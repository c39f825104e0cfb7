/**
 The provenance rewrite of backend/alembic/versions/0019_ddgs_provenance.py.

 `Rewrite` is the recursive function over a jsonb document and `RewriteProvenance` the
 procedure that accumulates it. A jsonb object is a map, since jsonb keeps one value
 for a key. The text of a document, which the update filters with LIKE, is printed
 with the keys of each object in an order that is left open.
 */
module Provenance {
  import opened Wrappers

  const LEGACY_PROVIDER := "duckduckgo"
  const DDGS_PROVIDER := "ddgs_metasearch"

  datatype Json =
    | JNull
    | JBool(value: bool)
    | JNum(numeral: string)
    | JStr(text: string)
    | JArr(items: seq<Json>)
    | JObj(entries: map<string, Json>)

  predicate ProvenanceKey(key: string) {
    key == "source" || key == "provider" || key == "search_provider"
  }

  predicate Labels(key: string, value: Json, provider: string) {
    ProvenanceKey(key) && value == JStr(provider)
  }

  /** pg_temp.rewrite_ddgs_provenance */
  function Rewrite(doc: Json, stale: string, current: string): Json {
    match doc
    case JObj(entries) =>
      JObj(map key | key in entries ::
        if Labels(key, entries[key], stale) then JStr(current) else Rewrite(entries[key], stale, current))
    case JArr(items) => JArr(seq(|items|, i requires 0 <= i < |items| => Rewrite(items[i], stale, current)))
    case _ => doc
  }

  /** The procedure: an object is rebuilt entry by entry, an array item by item. */
  method RewriteProvenance(doc: Json, stale: string, current: string) returns (rewritten: Json)
    ensures rewritten == Rewrite(doc, stale, current)
    decreases doc
  {
    match doc
    case JObj(entries) =>
      var built: map<string, Json> := map[];
      var left := entries.Keys;
      while left != {}
        invariant left <= entries.Keys && built.Keys == entries.Keys - left
        invariant forall key | key in built :: built[key] == Rewrite(doc, stale, current).entries[key]
        decreases |left|
      {
        var key :| key in left;
        if Labels(key, entries[key], stale) {
          built := built[key := JStr(current)];
        } else {
          var entry := RewriteProvenance(entries[key], stale, current);
          built := built[key := entry];
        }
        left := left - {key};
      }
      assert built == Rewrite(doc, stale, current).entries;
      return JObj(built);
    case JArr(items) =>
      var built: seq<Json> := [];
      for i := 0 to |items|
        invariant |built| == i
        invariant forall k | 0 <= k < i :: built[k] == Rewrite(items[k], stale, current)
      {
        var item := RewriteProvenance(items[i], stale, current);
        built := built + [item];
      }
      assert built == Rewrite(doc, stale, current).items;
      return JArr(built);
    case _ => return doc;
  }

  // ----- what the rewrite does, place by place -----

  datatype Step = Key(name: string) | Index(index: nat)

  /** The part of a document behind one step, if there is one. */
  function Behind(doc: Json, step: Step): Option<Json> {
    if doc.JObj? && step.Key? && step.name in doc.entries then Some(doc.entries[step.name])
    else if doc.JArr? && step.Index? && step.index < |doc.items| then Some(doc.items[step.index])
    else None
  }

  /** The value at a path, if there is one. */
  function At(doc: Json, path: seq<Step>): Option<Json> {
    if path == [] then Some(doc)
    else
      var child := Behind(doc, path[0]);
      if child.None? then None else At(child.value, path[1..])
  }

  /** The same kind of value: equal scalars, objects with the same keys, arrays of the same length. */
  predicate SameNode(a: Json, b: Json) {
    match (a, b)
    case (JObj(x), JObj(y)) => x.Keys == y.Keys
    case (JArr(x), JArr(y)) => |x| == |y|
    case _ => a == b
  }

  predicate LabelledAt(doc: Json, path: seq<Step>, provider: string) {
    && path != [] && path[|path| - 1].Key? && ProvenanceKey(path[|path| - 1].name)
    && At(doc, path) == Some(JStr(provider))
  }

  /** At this path a stale label has become current, and anything else is as it was. */
  predicate CorrectedAt(doc: Json, result: Json, stale: string, current: string, path: seq<Step>) {
    && (At(doc, path).Some? <==> At(result, path).Some?)
    && (At(doc, path).Some? ==>
          if LabelledAt(doc, path, stale) then At(result, path).value == JStr(current)
          else SameNode(At(doc, path).value, At(result, path).value))
  }

  ghost predicate Corrected(doc: Json, result: Json, stale: string, current: string) {
    forall path :: CorrectedAt(doc, result, stale, current, path)
  }

  lemma AtChild(doc: Json, step: Step, child: Json, path: seq<Step>)
    requires Behind(doc, step) == Some(child)
    ensures At(doc, [step] + path) == At(child, path)
  {
    assert ([step] + path)[1..] == path;
  }

  lemma LabelledChild(doc: Json, step: Step, child: Json, path: seq<Step>, provider: string)
    requires Behind(doc, step) == Some(child) && path != []
    ensures LabelledAt(doc, [step] + path, provider) <==> LabelledAt(child, path, provider)
  {
    AtChild(doc, step, child, path);
    assert ([step] + path)[|[step] + path| - 1] == path[|path| - 1];
  }

  lemma RewriteBehind(doc: Json, stale: string, current: string, step: Step)
    ensures Behind(doc, step).None? ==> Behind(Rewrite(doc, stale, current), step).None?
    ensures Behind(doc, step).Some? ==>
      Behind(Rewrite(doc, stale, current), step) ==
        Some(if step.Key? && Labels(step.name, Behind(doc, step).value, stale) then JStr(current)
             else Rewrite(Behind(doc, step).value, stale, current))
  {
  }

  lemma {:induction false} RewriteCorrects(doc: Json, stale: string, current: string, path: seq<Step>)
    ensures CorrectedAt(doc, Rewrite(doc, stale, current), stale, current, path)
    decreases |path|
  {
    if path != [] {
      var step, rest := path[0], path[1..];
      assert path == [step] + rest;
      RewriteBehind(doc, stale, current, step);
      if Behind(doc, step).Some? {
        var child := Behind(doc, step).value;
        RewriteCorrects(child, stale, current, rest);
        if rest != [] {
          LabelledChild(doc, step, child, rest, stale);
        }
      }
    }
  }

  /** A corrected child is corrected by itself, unless it was the label. */
  lemma CorrectedChild(doc: Json, result: Json, stale: string, current: string, step: Step, child: Json, changed: Json)
    requires Corrected(doc, result, stale, current)
    requires Behind(doc, step) == Some(child) && Behind(result, step) == Some(changed)
    ensures step.Key? && Labels(step.name, child, stale) ==> changed == JStr(current)
    ensures !(step.Key? && Labels(step.name, child, stale)) ==> Corrected(child, changed, stale, current)
  {
    AtChild(doc, step, child, []);
    AtChild(result, step, changed, []);
    assert [step] + [] == [step];
    assert CorrectedAt(doc, result, stale, current, [step]);
    if !(step.Key? && Labels(step.name, child, stale)) {
      forall path
        ensures CorrectedAt(child, changed, stale, current, path)
      {
        assert CorrectedAt(doc, result, stale, current, [step] + path);
        AtChild(doc, step, child, path);
        AtChild(result, step, changed, path);
        if path != [] {
          LabelledChild(doc, step, child, path, stale);
        }
      }
    }
  }

  lemma {:induction false} CorrectionUnique(doc: Json, result: Json, stale: string, current: string)
    requires Corrected(doc, result, stale, current)
    ensures result == Rewrite(doc, stale, current)
    decreases doc
  {
    assert CorrectedAt(doc, result, stale, current, []);
    match doc
    case JObj(entries) =>
      forall key | key in entries
        ensures result.entries[key] == Rewrite(doc, stale, current).entries[key]
      {
        CorrectedChild(doc, result, stale, current, Key(key), entries[key], result.entries[key]);
        if !Labels(key, entries[key], stale) {
          CorrectionUnique(entries[key], result.entries[key], stale, current);
        }
      }
      assert result.entries == Rewrite(doc, stale, current).entries;
    case JArr(items) =>
      forall i | 0 <= i < |items|
        ensures result.items[i] == Rewrite(items[i], stale, current)
      {
        CorrectedChild(doc, result, stale, current, Index(i), items[i], result.items[i]);
        CorrectionUnique(items[i], result.items[i], stale, current);
      }
      assert result.items == Rewrite(doc, stale, current).items;
    case _ =>
  }

  /**
   The rewrite is the one document in which every stale label has become current and
   every other place has the value, the keys or the length that it had.
   */
  lemma RewriteIsCorrection(doc: Json, result: Json, stale: string, current: string)
    ensures Corrected(doc, result, stale, current) <==> result == Rewrite(doc, stale, current)
  {
    forall path
      ensures CorrectedAt(doc, Rewrite(doc, stale, current), stale, current, path)
    {
      RewriteCorrects(doc, stale, current, path);
    }
    if Corrected(doc, result, stale, current) {
      CorrectionUnique(doc, result, stale, current);
    }
  }

  // ----- applying it more than once, and back -----

  /** Somewhere in the document a provenance key has this provider. */
  predicate Labelled(doc: Json, provider: string) {
    match doc
    case JObj(entries) =>
      exists key | key in entries :: Labels(key, entries[key], provider) || Labelled(entries[key], provider)
    case JArr(items) => exists i | 0 <= i < |items| :: Labelled(items[i], provider)
    case _ => false
  }

  /** No stale label is left. */
  lemma {:induction false} NoneLeft(doc: Json, stale: string, current: string)
    requires stale != current
    ensures !Labelled(Rewrite(doc, stale, current), stale)
  {
    match doc
    case JObj(entries) =>
      forall key | key in entries
        ensures !Labelled(Rewrite(entries[key], stale, current), stale)
      {
        NoneLeft(entries[key], stale, current);
      }
    case JArr(items) =>
      forall i | 0 <= i < |items|
        ensures !Labelled(Rewrite(items[i], stale, current), stale)
      {
        NoneLeft(items[i], stale, current);
      }
    case _ =>
  }

  lemma {:induction false} UnlabelledUnchanged(doc: Json, stale: string, current: string)
    requires !Labelled(doc, stale)
    ensures Rewrite(doc, stale, current) == doc
  {
    match doc
    case JObj(entries) =>
      forall key | key in entries
        ensures Rewrite(entries[key], stale, current) == entries[key]
      {
        UnlabelledUnchanged(entries[key], stale, current);
      }
      assert Rewrite(doc, stale, current).entries == entries;
    case JArr(items) =>
      forall i | 0 <= i < |items|
        ensures Rewrite(items[i], stale, current) == items[i]
      {
        UnlabelledUnchanged(items[i], stale, current);
      }
      assert Rewrite(doc, stale, current).items == items;
    case _ =>
  }

  /** The rewrite changes exactly the documents with a stale label, and a second rewrite changes nothing. */
  lemma ChangesExactlyLabelled(doc: Json, stale: string, current: string)
    requires stale != current
    ensures Rewrite(doc, stale, current) != doc <==> Labelled(doc, stale)
    ensures Rewrite(Rewrite(doc, stale, current), stale, current) == Rewrite(doc, stale, current)
  {
    NoneLeft(doc, stale, current);
    UnlabelledUnchanged(Rewrite(doc, stale, current), stale, current);
    if !Labelled(doc, stale) {
      UnlabelledUnchanged(doc, stale, current);
    }
  }

  lemma {:induction false} RewrittenBack(doc: Json, stale: string, current: string)
    requires !Labelled(doc, current)
    ensures Rewrite(Rewrite(doc, stale, current), current, stale) == doc
  {
    match doc
    case JObj(entries) =>
      var back := Rewrite(Rewrite(doc, stale, current), current, stale);
      forall key | key in entries
        ensures back.entries[key] == entries[key]
      {
        RewrittenBack(entries[key], stale, current);
        LabelsKept(key, entries[key], stale, current);
      }
      assert back.entries == entries;
    case JArr(items) =>
      var back := Rewrite(Rewrite(doc, stale, current), current, stale);
      forall i | 0 <= i < |items|
        ensures back.items[i] == items[i]
      {
        RewrittenBack(items[i], stale, current);
      }
      assert back.items == items;
    case _ =>
  }

  lemma LabelsKept(key: string, value: Json, stale: string, current: string)
    ensures Labels(key, Rewrite(value, stale, current), current) <==> Labels(key, value, current)
  {
  }

  /** The way back restores a document exactly when it had no current label before. */
  lemma {:induction false} RoundTrip(doc: Json, stale: string, current: string)
    requires stale != current
    ensures Rewrite(Rewrite(doc, stale, current), current, stale) == doc <==> !Labelled(doc, current)
  {
    NoneLeft(Rewrite(doc, stale, current), current, stale);
    if !Labelled(doc, current) {
      RewrittenBack(doc, stale, current);
    }
  }

  // ----- the text of a document -----

  function HexDigit(n: nat): char
    requires n < 16
  {
    if n < 10 then '0' + n as char else 'a' + (n - 10) as char
  }

  function EscapedChar(c: char): string {
    if c == '\"' then "\\\""
    else if c == '\\' then "\\\\"
    else if c as int == 8 then "\\b"
    else if c as int == 12 then "\\f"
    else if c == '\n' then "\\n"
    else if c == '\r' then "\\r"
    else if c == '\t' then "\\t"
    else if c < ' ' then "\\u00" + [HexDigit(c as int / 16), HexDigit(c as int % 16)]
    else [c]
  }

  function Escaped(s: string): string {
    if s == "" then "" else EscapedChar(s[0]) + Escaped(s[1..])
  }

  function Quoted(s: string): string {
    "\"" + Escaped(s) + "\""
  }

  function Listed(parts: seq<string>): string {
    if parts == [] then "" else if |parts| == 1 then parts[0] else parts[0] + ", " + Listed(parts[1..])
  }

  /** An order of the keys of an object lists each of them once. */
  ghost predicate KeyOrder(order: set<string> -> seq<string>) {
    forall keys: set<string> :: multiset(order(keys)) == multiset(keys)
  }

  lemma OrderedKeys(order: set<string> -> seq<string>, keys: set<string>)
    requires KeyOrder(order)
    ensures forall key :: key in order(keys) <==> key in keys
  {
    assert multiset(order(keys)) == multiset(keys);
    assert forall key :: key in order(keys) <==> key in multiset(order(keys));
    assert forall key :: key in keys <==> key in multiset(keys);
  }

  function EntryTexts(doc: Json, order: set<string> -> seq<string>): seq<string>
    requires KeyOrder(order) && doc.JObj?
    decreases doc, 0
  {
    var keys := order(doc.entries.Keys);
    OrderedKeys(order, doc.entries.Keys);
    seq(|keys|, i requires 0 <= i < |keys| => Quoted(keys[i]) + ": " + AsText(doc.entries[keys[i]], order))
  }

  /** document::text */
  function AsText(doc: Json, order: set<string> -> seq<string>): string
    requires KeyOrder(order)
    decreases doc, 1
  {
    match doc
    case JNull => "null"
    case JBool(value) => if value then "true" else "false"
    case JNum(numeral) => numeral
    case JStr(text) => Quoted(text)
    case JArr(items) => "[" + Listed(seq(|items|, i requires 0 <= i < |items| => AsText(items[i], order))) + "]"
    case JObj(entries) => "{" + Listed(EntryTexts(doc, order)) + "}"
  }

  predicate OccursAt(text: string, part: string, i: nat) {
    i + |part| <= |text| && text[i..i + |part|] == part
  }

  ghost predicate Contains(text: string, part: string) {
    exists i: nat :: OccursAt(text, part, i)
  }

  lemma ContainsWithin(before: string, text: string, behind: string, part: string)
    requires Contains(text, part)
    ensures Contains(before + text + behind, part)
  {
    var i: nat :| OccursAt(text, part, i);
    var whole := before + text + behind;
    assert whole[|before| + i..|before| + i + |part|] == text[i..i + |part|];
    assert OccursAt(whole, part, |before| + i);
  }

  lemma ContainsSelf(text: string)
    ensures Contains(text, text)
  {
    assert OccursAt(text, text, 0);
  }

  lemma {:induction false} ListedContains(parts: seq<string>, i: nat, part: string)
    requires i < |parts| && Contains(parts[i], part)
    ensures Contains(Listed(parts), part)
  {
    if i > 0 {
      ListedContains(parts[1..], i - 1, part);
      ContainsWithin(parts[0] + ", ", Listed(parts[1..]), "", part);
      assert parts[0] + ", " + Listed(parts[1..]) + "" == Listed(parts);
    } else if |parts| > 1 {
      ContainsWithin("", parts[0], ", " + Listed(parts[1..]), part);
      assert "" + parts[0] + (", " + Listed(parts[1..])) == Listed(parts);
    }
  }

  lemma EntryContains(doc: Json, order: set<string> -> seq<string>, key: string, part: string)
    requires KeyOrder(order) && doc.JObj? && key in doc.entries && Contains(AsText(doc.entries[key], order), part)
    ensures Contains(AsText(doc, order), part)
  {
    var keys := order(doc.entries.Keys);
    OrderedKeys(order, doc.entries.Keys);
    var i :| 0 <= i < |keys| && keys[i] == key;
    var value := AsText(doc.entries[key], order);
    ContainsWithin(Quoted(key) + ": ", value, "", part);
    assert Quoted(key) + ": " + value + "" == EntryTexts(doc, order)[i];
    ListedContains(EntryTexts(doc, order), i, part);
    ContainsWithin("{", Listed(EntryTexts(doc, order)), "}", part);
  }

  lemma ItemContains(doc: Json, order: set<string> -> seq<string>, i: nat, part: string)
    requires KeyOrder(order) && doc.JArr? && i < |doc.items| && Contains(AsText(doc.items[i], order), part)
    ensures Contains(AsText(doc, order), part)
  {
    var texts := seq(|doc.items|, k requires 0 <= k < |doc.items| => AsText(doc.items[k], order));
    ListedContains(texts, i, part);
    ContainsWithin("[", Listed(texts), "]", part);
  }

  lemma {:induction false} LabelPrinted(doc: Json, order: set<string> -> seq<string>, provider: string)
    requires KeyOrder(order) && Labelled(doc, provider)
    ensures Contains(AsText(doc, order), Quoted(provider))
    decreases doc
  {
    match doc
    case JObj(entries) =>
      var key :| key in entries && (Labels(key, entries[key], provider) || Labelled(entries[key], provider));
      if Labels(key, entries[key], provider) {
        ContainsSelf(Quoted(provider));
      } else {
        LabelPrinted(entries[key], order, provider);
      }
      EntryContains(doc, order, key, Quoted(provider));
    case JArr(items) =>
      var i :| 0 <= i < |items| && Labelled(items[i], provider);
      LabelPrinted(items[i], order, provider);
      ItemContains(doc, order, i, Quoted(provider));
  }

  // ----- LIKE -----

  /** text LIKE pattern, with the backslash as the escape character. */
  predicate Like(text: string, pattern: string)
    decreases |pattern|, |text|
  {
    if pattern == "" then text == ""
    else if pattern[0] == '%' then Like(text, pattern[1..]) || (text != "" && Like(text[1..], pattern))
    else if pattern[0] == '_' then text != "" && Like(text[1..], pattern[1..])
    else if pattern[0] == '\\' && |pattern| > 1 then text != "" && text[0] == pattern[1] && Like(text[1..], pattern[2..])
    else text != "" && text[0] == pattern[0] && Like(text[1..], pattern[1..])
  }

  /** A provider name that needs no escape, neither in JSON nor in a pattern. The underscore is allowed. */
  predicate PlainName(name: string) {
    forall c | c in name :: c >= ' ' && c != '\"' && c != '\\' && c != '%'
  }

  /** '%"provider"%' */
  function Pattern(provider: string): string {
    "%" + (Needle(provider) + "%")
  }

  function Needle(provider: string): string {
    "\"" + provider + "\""
  }

  lemma NeedlePlain(provider: string)
    requires PlainName(provider)
    ensures Needle(provider) == Quoted(provider)
    ensures forall c | c in Needle(provider) :: c != '\\' && c != '%'
  {
    PlainEscaped(provider);
    assert forall c | c in Needle(provider) :: c == '\"' || c in provider;
  }

  lemma {:induction false} LikeAnything(text: string)
    ensures Like(text, "%")
    decreases |text|
  {
    assert "%"[1..] == "";
    if text != "" {
      LikeAnything(text[1..]);
    }
  }

  lemma {:induction false} LikePrefix(part: string, rest: string)
    requires forall c | c in part :: c != '\\' && c != '%'
    ensures Like(part + rest, part + "%")
    decreases |part|
  {
    if part == "" {
      assert part + rest == rest && part + "%" == "%";
      LikeAnything(rest);
    } else {
      assert (part + rest)[1..] == part[1..] + rest && (part + "%")[1..] == part[1..] + "%";
      assert forall c | c in part[1..] :: c in part;
      assert part[0] in part;
      LikePrefix(part[1..], rest);
    }
  }

  lemma {:induction false} LikeSkips(before: string, text: string, pattern: string)
    requires Like(text, pattern)
    ensures Like(before + text, "%" + pattern)
    decreases |before|
  {
    assert ("%" + pattern)[1..] == pattern;
    if before == "" {
      assert before + text == text;
    } else {
      assert (before + text)[1..] == before[1..] + text;
      LikeSkips(before[1..], text, pattern);
    }
  }

  lemma ContainsLike(text: string, part: string)
    requires Contains(text, part) && forall c | c in part :: c != '\\' && c != '%'
    ensures Like(text, "%" + (part + "%"))
  {
    var i: nat :| OccursAt(text, part, i);
    assert text == text[..i] + (part + text[i + |part|..]);
    LikePrefix(part, text[i + |part|..]);
    LikeSkips(text[..i], part + text[i + |part|..], part + "%");
  }

  lemma PlainChar(c: char)
    requires c >= ' ' && c != '\"' && c != '\\'
    ensures EscapedChar(c) == [c]
  {
  }

  lemma {:induction false} PlainEscaped(name: string)
    requires PlainName(name)
    ensures Escaped(name) == name
  {
    if name != "" {
      assert name == [name[0]] + name[1..];
      assert forall c | c in name[1..] :: c in name;
      assert name[0] in name;
      PlainChar(name[0]);
      PlainEscaped(name[1..]);
    }
  }

  /** The filter selects every document with the label, however its keys are ordered. */
  lemma FilterSelectsLabelled(doc: Json, order: set<string> -> seq<string>, provider: string)
    requires KeyOrder(order) && PlainName(provider) && Labelled(doc, provider)
    ensures Like(AsText(doc, order), Pattern(provider))
  {
    LabelPrinted(doc, order, provider);
    NeedlePlain(provider);
    ContainsLike(AsText(doc, order), Needle(provider));
  }

  lemma ProvidersArePlain()
    ensures PlainName(LEGACY_PROVIDER) && PlainName(DDGS_PROVIDER) && LEGACY_PROVIDER != DDGS_PROVIDER
  {
    assert |LEGACY_PROVIDER| != |DDGS_PROVIDER|;
  }

  // ----- the four columns -----

  /** A nullable jsonb column by row id. */
  type Column = map<string, Option<Json>>

  /** The rewrite of a whole column without a filter; a NULL stays NULL. */
  function RewriteColumn(column: Column, stale: string, current: string): Column {
    map id | id in column ::
      if column[id].None? then None else Some(Rewrite(column[id].value, stale, current))
  }

  predicate ColumnLabelled(column: Column, provider: string) {
    exists id | id in column :: column[id].Some? && Labelled(column[id].value, provider)
  }

  lemma ColumnRoundTrip(column: Column, stale: string, current: string)
    requires stale != current
    ensures RewriteColumn(RewriteColumn(column, stale, current), current, stale) == column
       <==> !ColumnLabelled(column, current)
  {
    var back := RewriteColumn(RewriteColumn(column, stale, current), current, stale);
    forall id | id in column
      ensures back[id] == column[id] <==> !(column[id].Some? && Labelled(column[id].value, current))
    {
      if column[id].Some? {
        RoundTrip(column[id].value, stale, current);
      }
    }
    if !ColumnLabelled(column, current) {
      assert back == column;
    }
  }

  /** UPDATE ... WHERE column::text LIKE '%"stale"%': the filtered update rewrites the whole column. */
  method UpdateColumn(column: Column, order: set<string> -> seq<string>, stale: string, current: string)
    returns (updated: Column)
    requires KeyOrder(order) && PlainName(stale)
    ensures updated == RewriteColumn(column, stale, current)
  {
    updated := column;
    var left := column.Keys;
    while left != {}
      invariant left <= column.Keys && updated.Keys == column.Keys
      invariant forall id | id in left :: updated[id] == column[id]
      invariant forall id | id in column && id !in left :: updated[id] == RewriteColumn(column, stale, current)[id]
      decreases |left|
    {
      var id :| id in left;
      if column[id].Some? {
        if Like(AsText(column[id].value, order), Pattern(stale)) {
          var document := RewriteProvenance(column[id].value, stale, current);
          updated := updated[id := Some(document)];
        } else {
          SkippedUnchanged(column[id].value, order, stale, current);
        }
      }
      left := left - {id};
    }
  }

  /** A row that the filter passes over is one that the rewrite would leave as it is. */
  lemma SkippedUnchanged(doc: Json, order: set<string> -> seq<string>, stale: string, current: string)
    requires KeyOrder(order) && PlainName(stale) && !Like(AsText(doc, order), Pattern(stale))
    ensures Rewrite(doc, stale, current) == doc
  {
    if Labelled(doc, stale) {
      FilterSelectsLabelled(doc, order, stale);
    } else {
      UnlabelledUnchanged(doc, stale, current);
    }
  }

  datatype Documents = Documents(webEvidence: Column, runOutputs: Column, artifacts: Column, domainEvents: Column)

  function Migrated(d: Documents, stale: string, current: string): Documents {
    Documents(
      RewriteColumn(d.webEvidence, stale, current), RewriteColumn(d.runOutputs, stale, current),
      RewriteColumn(d.artifacts, stale, current), RewriteColumn(d.domainEvents, stale, current))
  }

  predicate AnyLabelled(d: Documents, provider: string) {
    || ColumnLabelled(d.webEvidence, provider) || ColumnLabelled(d.runOutputs, provider)
    || ColumnLabelled(d.artifacts, provider) || ColumnLabelled(d.domainEvents, provider)
  }

  /** Downgrade after upgrade restores the four columns exactly when none had the new provider before. */
  lemma DowngradeUndoesUpgrade(d: Documents)
    ensures Migrated(Migrated(d, LEGACY_PROVIDER, DDGS_PROVIDER), DDGS_PROVIDER, LEGACY_PROVIDER) == d
       <==> !AnyLabelled(d, DDGS_PROVIDER)
  {
    ProvidersArePlain();
    ColumnRoundTrip(d.webEvidence, LEGACY_PROVIDER, DDGS_PROVIDER);
    ColumnRoundTrip(d.runOutputs, LEGACY_PROVIDER, DDGS_PROVIDER);
    ColumnRoundTrip(d.artifacts, LEGACY_PROVIDER, DDGS_PROVIDER);
    ColumnRoundTrip(d.domainEvents, LEGACY_PROVIDER, DDGS_PROVIDER);
  }

  /** One run output that names its provider. */
  function SampleDocuments(provider: string): Documents {
    Documents(map[], map["run" := Some(JObj(map["provider" := JStr(provider)]))], map[], map[])
  }

  /** A run output that had the new provider before the upgrade has the legacy one after the downgrade. */
  lemma NewProviderIsNotRestored()
    ensures Migrated(Migrated(SampleDocuments(DDGS_PROVIDER), LEGACY_PROVIDER, DDGS_PROVIDER), DDGS_PROVIDER, LEGACY_PROVIDER)
         == SampleDocuments(LEGACY_PROVIDER) != SampleDocuments(DDGS_PROVIDER)
  {
    ProvidersArePlain();
    var doc := JObj(map["provider" := JStr(DDGS_PROVIDER)]);
    assert Rewrite(doc, LEGACY_PROVIDER, DDGS_PROVIDER) == doc;
    assert Rewrite(doc, DDGS_PROVIDER, LEGACY_PROVIDER) == JObj(map["provider" := JStr(LEGACY_PROVIDER)]);
    assert SampleDocuments(LEGACY_PROVIDER).runOutputs["run"].value.entries["provider"] == JStr(LEGACY_PROVIDER);
    assert SampleDocuments(DDGS_PROVIDER).runOutputs["run"].value.entries["provider"] == JStr(DDGS_PROVIDER);
  }

  class ProductDocuments {
    var webEvidence: Column
    var runOutputs: Column
    var artifacts: Column
    var domainEvents: Column
    const order: set<string> -> seq<string>

    ghost predicate Valid() {
      KeyOrder(order)
    }

    function Contents(): Documents
      reads this
    {
      Documents(webEvidence, runOutputs, artifacts, domainEvents)
    }

    constructor (webEvidence: Column, runOutputs: Column, artifacts: Column, domainEvents: Column,
                 order: set<string> -> seq<string>)
      requires KeyOrder(order)
      ensures Valid() && Contents() == Documents(webEvidence, runOutputs, artifacts, domainEvents)
    {
      this.webEvidence, this.runOutputs, this.artifacts, this.domainEvents := webEvidence, runOutputs, artifacts, domainEvents;
      this.order := order;
    }

    /** _rewrite_provenance */
    method Correct(stale: string, current: string)
      requires Valid() && PlainName(stale)
      modifies this
      ensures Contents() == Migrated(old(Contents()), stale, current)
    {
      webEvidence := UpdateColumn(webEvidence, order, stale, current);
      runOutputs := UpdateColumn(runOutputs, order, stale, current);
      artifacts := UpdateColumn(artifacts, order, stale, current);
      domainEvents := UpdateColumn(domainEvents, order, stale, current);
    }

    method Upgrade()
      requires Valid()
      modifies this
      ensures Contents() == Migrated(old(Contents()), LEGACY_PROVIDER, DDGS_PROVIDER)
    {
      ProvidersArePlain();
      Correct(LEGACY_PROVIDER, DDGS_PROVIDER);
    }

    method Downgrade()
      requires Valid()
      modifies this
      ensures Contents() == Migrated(old(Contents()), DDGS_PROVIDER, LEGACY_PROVIDER)
    {
      ProvidersArePlain();
      Correct(DDGS_PROVIDER, LEGACY_PROVIDER);
    }
  }
}
