/**
 The request fingerprint of frontend/src/lib/stable-fingerprint.ts.

 `Encode` prints a finite value. `Meaning` is what the fingerprint is meant to
 identify: the value with objects read as unordered maps and with -0 and 0
 taken as one number. The main theorem says that two values have the same
 fingerprint exactly when they have the same meaning.

 `StableFingerprint` runs on a graph of objects, in which an object may be shared or
 may contain itself, and carries the mutable set of the objects being encoded.
 */
module StableFingerprint {
  import opened Wrappers
  import opened CodeUnits
  import opened Sorting

  // ----- values -----

  /** A number is -0, or is named by the text that `String(n)` gives for it. */
  datatype Number = NegativeZero | Printed(text: Text)

  datatype Primitive =
    | Null
    | Undefined
    | Str(text: Text)
    | Num(number: Number)
    | Bool(value: bool)

  /** `keys` is the order in which the properties were added. */
  datatype Value =
    | Prim(prim: Primitive)
    | Arr(items: seq<Value>)
    | Obj(keys: seq<Text>, props: map<Text, Value>)

  const ZERO: Text := [48]
  const NULL: Text := [110, 117, 108, 108]                                 // null
  const UNDEFINED: Text := [117, 110, 100, 101, 102, 105, 110, 101, 100]   // undefined
  const STRING: Text := [115, 116, 114, 105, 110, 103, 58]                 // string:
  const NUMBER: Text := [110, 117, 109, 98, 101, 114, 58]                  // number:
  const BOOLEAN: Text := [98, 111, 111, 108, 101, 97, 110, 58]             // boolean:
  const TRUE: Text := [116, 114, 117, 101]                                 // true
  const FALSE: Text := [102, 97, 108, 115, 101]                            // false

  predicate ValidPrimitive(p: Primitive) {
    p.Num? && p.number.Printed? ==> p.number.text != [] && Undelimited(p.number.text)
  }

  /** The key list of an object names each of its properties once. */
  predicate ValidKeys<T>(keys: seq<Text>, props: map<Text, T>) {
    Distinct(keys) && (forall k | k in keys :: k in props) && (forall k | k in props :: k in keys)
  }

  predicate Valid(v: Value) {
    match v
    case Prim(p) => ValidPrimitive(p)
    case Arr(items) => forall x | x in items :: Valid(x)
    case Obj(keys, props) => ValidKeys(keys, props) && forall k | k in props :: Valid(props[k])
  }

  // ----- the printer -----

  function NumberText(n: Number): Text {
    if n.NegativeZero? then ZERO else n.text
  }

  function EncodePrimitive(p: Primitive): Text {
    match p
    case Null => NULL
    case Undefined => UNDEFINED
    case Str(text) => EncodeString(text)
    case Num(number) => NUMBER + NumberText(number)
    case Bool(value) => BOOLEAN + if value then TRUE else FALSE
  }

  function EncodeString(text: Text): Text {
    STRING + (Decimal(|text|) + ([COLON] + text))
  }

  function Encode(v: Value): Text
    requires Valid(v)
    decreases v, 1
  {
    match v
    case Prim(p) => EncodePrimitive(p)
    case Arr(items) => [LEFT_BRACKET] + (EncodeItems(items) + [RIGHT_BRACKET])
    case Obj(keys, props) => [LEFT_BRACE] + (EncodeEntries(v, Sorted(keys)) + [RIGHT_BRACE])
  }

  /** The items joined by commas. */
  function EncodeItems(items: seq<Value>): Text
    requires forall x | x in items :: Valid(x)
    decreases items, 0
  {
    if items == [] then [] else Encode(items[0]) + MoreItems(items[1..])
  }

  function MoreItems(items: seq<Value>): Text
    requires forall x | x in items :: Valid(x)
    decreases items, 1
  {
    if items == [] then [] else [COMMA] + EncodeItems(items)
  }

  /** The properties named by `ks`, in that order, joined by commas. */
  function EncodeEntries(v: Value, ks: seq<Text>): Text
    requires v.Obj? && Valid(v) && forall k | k in ks :: k in v.props
    decreases v, 0, ks, 0
  {
    if ks == [] then []
    else EncodeString(ks[0]) + ([COLON] + (Encode(v.props[ks[0]]) + MoreEntries(v, ks[1..])))
  }

  function MoreEntries(v: Value, ks: seq<Text>): Text
    requires v.Obj? && Valid(v) && forall k | k in ks :: k in v.props
    decreases v, 0, ks, 1
  {
    if ks == [] then [] else [COMMA] + EncodeEntries(v, ks)
  }

  // ----- what is identified -----

  datatype Json =
    | JPrim(prim: Primitive)
    | JArr(items: seq<Json>)
    | JObj(props: map<Text, Json>)

  function PrimitiveMeaning(p: Primitive): Primitive {
    if p == Num(NegativeZero) then Num(Printed(ZERO)) else p
  }

  function Meaning(v: Value): Json
    decreases v, 1
  {
    match v
    case Prim(p) => JPrim(PrimitiveMeaning(p))
    case Arr(items) => JArr(seq(|items|, i requires 0 <= i < |items| => Meaning(items[i])))
    case Obj(_, _) => JObj(PropertiesMeaning(v))
  }

  function PropertiesMeaning(v: Value): map<Text, Json>
    requires v.Obj?
    decreases v, 0
  {
    map k | k in v.props :: Meaning(v.props[k])
  }

  // ----- values with the same fingerprint have the same meaning -----

  lemma {:induction false} StringDecodable(a: Text, x: Text, b: Text, y: Text)
    requires EncodeString(a) + x == EncodeString(b) + y
    ensures a == b && x == y
  {
    var s, t := EncodeString(a) + x, EncodeString(b) + y;
    var m, n := Decimal(|a|), Decimal(|b|);
    assert s[|STRING|..] == m + ([COLON] + a + x);
    assert t[|STRING|..] == n + ([COLON] + b + y);
    UndelimitedPrefix(m, [COLON] + a + x, n, [COLON] + b + y);
    DecimalInjective(|a|, |b|);
    assert ([COLON] + a + x)[1..] == a + x;
    assert ([COLON] + b + y)[1..] == b + y;
    assert a == (a + x)[..|a|] && b == (b + y)[..|a|];
    assert x == (a + x)[|a|..] && y == (b + y)[|a|..];
  }

  /** The first units of an encoding tell what kind of value it encodes. */
  function Kind(t: Text): int
    requires t != []
  {
    if t[0] == NULL[0] then (if |t| > 2 && t[2] == NULL[2] then 0 else 1)
    else 2 + t[0] as int
  }

  function KindOf(v: Value): int {
    match v
    case Prim(Null) => 0
    case Prim(Num(_)) => 1
    case Prim(Undefined) => 2 + UNDEFINED[0] as int
    case Prim(Str(_)) => 2 + STRING[0] as int
    case Prim(Bool(_)) => 2 + BOOLEAN[0] as int
    case Arr(_) => 2 + LEFT_BRACKET as int
    case Obj(_, _) => 2 + LEFT_BRACE as int
  }

  lemma EncodeKind(v: Value, x: Text)
    requires Valid(v)
    ensures Encode(v) != [] && Kind(Encode(v) + x) == KindOf(v)
  {
  }

  lemma KindUnique(a: Value, b: Value)
    requires KindOf(a) == KindOf(b)
    ensures a.Prim? == b.Prim? && a.Arr? == b.Arr? && a.Obj? == b.Obj?
    ensures a.Prim? ==>
              && a.prim.Null? == b.prim.Null? && a.prim.Undefined? == b.prim.Undefined?
              && a.prim.Str? == b.prim.Str? && a.prim.Num? == b.prim.Num?
              && a.prim.Bool? == b.prim.Bool?
  {
  }

  lemma {:induction false} PrimitiveDecodable(a: Primitive, x: Text, b: Primitive, y: Text)
    requires ValidPrimitive(a) && ValidPrimitive(b) && Delimited(x) && Delimited(y)
    requires KindOf(Prim(a)) == KindOf(Prim(b))
    requires EncodePrimitive(a) + x == EncodePrimitive(b) + y
    ensures PrimitiveMeaning(a) == PrimitiveMeaning(b) && x == y
  {
    KindUnique(Prim(a), Prim(b));
    match a
    case Null => Cancel(NULL, x, y);
    case Undefined => Cancel(UNDEFINED, x, y);
    case Str(text) => StringDecodable(text, x, b.text, y);
    case Num(number) => WordDecodable(NUMBER, NumberText(number), x, NumberText(b.number), y);
    case Bool(value) => WordDecodable(BOOLEAN, if value then TRUE else FALSE, x, if b.value then TRUE else FALSE, y);
  }

  lemma WordDecodable(tag: Text, u: Text, x: Text, v: Text, y: Text)
    requires Undelimited(u) && Undelimited(v) && Delimited(x) && Delimited(y)
    requires (tag + u) + x == (tag + v) + y
    ensures u == v && x == y
  {
    Regroup(tag, u, x);
    Regroup(tag, v, y);
    Cancel(tag, u + x, v + y);
    UndelimitedPrefix(u, x, v, y);
  }

  lemma {:induction false} Decodable(a: Value, x: Text, b: Value, y: Text)
    requires Valid(a) && Valid(b) && Delimited(x) && Delimited(y)
    requires Encode(a) + x == Encode(b) + y
    ensures Meaning(a) == Meaning(b) && x == y
    decreases a, 1
  {
    EncodeKind(a, x);
    EncodeKind(b, y);
    KindUnique(a, b);
    match a
    case Prim(p) =>
      PrimitiveDecodable(p, x, b.prim, y);
    case Arr(items) =>
      Unwrap(LEFT_BRACKET, EncodeItems(items), EncodeItems(b.items), RIGHT_BRACKET, x, y);
      ItemsDecodable(items, x, b.items, y);
    case Obj(keys, _) =>
      Unwrap(LEFT_BRACE, EncodeEntries(a, Sorted(keys)), EncodeEntries(b, Sorted(b.keys)), RIGHT_BRACE, x, y);
      EntriesDecodable(a, Sorted(keys), x, b, Sorted(b.keys), y);
      SameProperties(a, b);
  }

  lemma Unwrap(open: Unit, u: Text, v: Text, close: Unit, x: Text, y: Text)
    requires ([open] + (u + [close])) + x == ([open] + (v + [close])) + y
    ensures u + ([close] + x) == v + ([close] + y)
  {
    Regroup([open], u + [close], x);
    Regroup([open], v + [close], y);
    Cancel([open], (u + [close]) + x, (v + [close]) + y);
    Regroup(u, [close], x);
    Regroup(v, [close], y);
  }

  lemma SameProperties(a: Value, b: Value)
    requires a.Obj? && ValidKeys(a.keys, a.props) && b.Obj? && ValidKeys(b.keys, b.props)
    requires Sorted(a.keys) == Sorted(b.keys)
    requires forall k | k in Sorted(a.keys) :: Meaning(a.props[k]) == Meaning(b.props[k])
    ensures PropertiesMeaning(a) == PropertiesMeaning(b)
  {
    assert forall k :: k in a.props <==> k in Sorted(a.keys);
    assert forall k :: k in b.props <==> k in Sorted(a.keys);
    assert a.props.Keys == b.props.Keys;
  }

  lemma {:induction false} ItemsDecodable(us: seq<Value>, x: Text, ws: seq<Value>, y: Text)
    requires forall v | v in us :: Valid(v)
    requires forall v | v in ws :: Valid(v)
    requires EncodeItems(us) + ([RIGHT_BRACKET] + x) == EncodeItems(ws) + ([RIGHT_BRACKET] + y)
    ensures |us| == |ws| && x == y
    ensures forall i | 0 <= i < |us| :: Meaning(us[i]) == Meaning(ws[i])
    decreases us, 0
  {
    if us == [] || ws == [] {
      ItemsStart(us, [RIGHT_BRACKET] + x);
      ItemsStart(ws, [RIGHT_BRACKET] + y);
      assert [] + ([RIGHT_BRACKET] + x) == [RIGHT_BRACKET] + x;
      assert [] + ([RIGHT_BRACKET] + y) == [RIGHT_BRACKET] + y;
      CancelUnit(RIGHT_BRACKET, x, RIGHT_BRACKET, y);
    } else {
      var p, q := MoreItems(us[1..]) + ([RIGHT_BRACKET] + x), MoreItems(ws[1..]) + ([RIGHT_BRACKET] + y);
      Regroup(Encode(us[0]), MoreItems(us[1..]), [RIGHT_BRACKET] + x);
      Regroup(Encode(ws[0]), MoreItems(ws[1..]), [RIGHT_BRACKET] + y);
      ItemsStart(us[1..], [RIGHT_BRACKET] + x);
      ItemsStart(ws[1..], [RIGHT_BRACKET] + y);
      Decodable(us[0], p, ws[0], q);
      MoreItemsDecodable(us[1..], x, ws[1..], y);
    }
  }

  lemma {:induction false} MoreItemsDecodable(us: seq<Value>, x: Text, ws: seq<Value>, y: Text)
    requires forall v | v in us :: Valid(v)
    requires forall v | v in ws :: Valid(v)
    requires MoreItems(us) + ([RIGHT_BRACKET] + x) == MoreItems(ws) + ([RIGHT_BRACKET] + y)
    ensures |us| == |ws| && x == y
    ensures forall i | 0 <= i < |us| :: Meaning(us[i]) == Meaning(ws[i])
    decreases us, 1
  {
    ItemsStart(us, [RIGHT_BRACKET] + x);
    ItemsStart(ws, [RIGHT_BRACKET] + y);
    var u, w := EncodeItems(us) + ([RIGHT_BRACKET] + x), EncodeItems(ws) + ([RIGHT_BRACKET] + y);
    Regroup([COMMA], EncodeItems(us), [RIGHT_BRACKET] + x);
    Regroup([COMMA], EncodeItems(ws), [RIGHT_BRACKET] + y);
    assert us == [] <==> ws == [];
    if us != [] {
      CancelUnit(COMMA, u, COMMA, w);
    } else {
      assert EncodeItems([]) == [];
      assert u == MoreItems(us) + ([RIGHT_BRACKET] + x);
      assert w == MoreItems(ws) + ([RIGHT_BRACKET] + y);
    }
    ItemsDecodable(us, x, ws, y);
  }

  /** No item starts the way the closing bracket does. */
  lemma ItemsStart(us: seq<Value>, x: Text)
    requires forall v | v in us :: Valid(v)
    requires x != [] && x[0] == RIGHT_BRACKET
    ensures (EncodeItems(us) + x)[0] == RIGHT_BRACKET <==> us == []
    ensures (MoreItems(us) + x)[0] == if us == [] then RIGHT_BRACKET else COMMA
  {
    if us != [] {
      EncodeKind(us[0], MoreItems(us[1..]) + x);
    }
  }

  lemma FirstKey(a: Value, ks: seq<Text>, x: Text, b: Value, ls: seq<Text>, y: Text)
    requires a.Obj? && Valid(a) && ks != [] && forall k | k in ks :: k in a.props
    requires b.Obj? && Valid(b) && ls != [] && forall k | k in ls :: k in b.props
    requires EncodeEntries(a, ks) + x == EncodeEntries(b, ls) + y
    ensures ks[0] == ls[0]
    ensures Encode(a.props[ks[0]]) + (MoreEntries(a, ks[1..]) + x) == Encode(b.props[ls[0]]) + (MoreEntries(b, ls[1..]) + y)
  {
    var p, q := MoreEntries(a, ks[1..]) + x, MoreEntries(b, ls[1..]) + y;
    var v, w := Encode(a.props[ks[0]]), Encode(b.props[ls[0]]);
    EntriesSplit(a, ks, x);
    EntriesSplit(b, ls, y);
    StringDecodable(ks[0], [COLON] + (v + p), ls[0], [COLON] + (w + q));
    CancelUnit(COLON, v + p, COLON, w + q);
  }

  lemma {:induction false} FirstEntryDecodable(a: Value, ks: seq<Text>, x: Text, b: Value, ls: seq<Text>, y: Text)
    requires a.Obj? && Valid(a) && ks != [] && forall k | k in ks :: k in a.props
    requires b.Obj? && Valid(b) && ls != [] && forall k | k in ls :: k in b.props
    requires x != [] && x[0] == RIGHT_BRACE && y != [] && y[0] == RIGHT_BRACE
    requires EncodeEntries(a, ks) + x == EncodeEntries(b, ls) + y
    ensures ks[0] == ls[0] && Meaning(a.props[ks[0]]) == Meaning(b.props[ls[0]])
    ensures MoreEntries(a, ks[1..]) + x == MoreEntries(b, ls[1..]) + y
    decreases a, 0, ks, 0
  {
    FirstKey(a, ks, x, b, ls, y);
    EntriesStart(a, ks[1..], x);
    EntriesStart(b, ls[1..], y);
    Decodable(a.props[ks[0]], MoreEntries(a, ks[1..]) + x, b.props[ls[0]], MoreEntries(b, ls[1..]) + y);
  }

  lemma {:induction false} EntriesDecodable(a: Value, ks: seq<Text>, x: Text, b: Value, ls: seq<Text>, y: Text)
    requires a.Obj? && Valid(a) && forall k | k in ks :: k in a.props
    requires b.Obj? && Valid(b) && forall k | k in ls :: k in b.props
    requires EncodeEntries(a, ks) + ([RIGHT_BRACE] + x) == EncodeEntries(b, ls) + ([RIGHT_BRACE] + y)
    ensures ks == ls && x == y
    ensures forall k | k in ks :: Meaning(a.props[k]) == Meaning(b.props[k])
    decreases a, 0, ks, 1
  {
    if ks == [] || ls == [] {
      NoEntries(a, ks, x, b, ls, y);
    } else {
      FirstEntryDecodable(a, ks, [RIGHT_BRACE] + x, b, ls, [RIGHT_BRACE] + y);
      MoreEntriesDecodable(a, ks[1..], x, b, ls[1..], y);
      assert ks == [ks[0]] + ks[1..] && ls == [ls[0]] + ls[1..];
      forall k | k in ks
        ensures Meaning(a.props[k]) == Meaning(b.props[k])
      {
        assert k == ks[0] || k in ks[1..];
      }
    }
  }

  lemma NoEntries(a: Value, ks: seq<Text>, x: Text, b: Value, ls: seq<Text>, y: Text)
    requires a.Obj? && Valid(a) && forall k | k in ks :: k in a.props
    requires b.Obj? && Valid(b) && forall k | k in ls :: k in b.props
    requires EncodeEntries(a, ks) + ([RIGHT_BRACE] + x) == EncodeEntries(b, ls) + ([RIGHT_BRACE] + y)
    requires ks == [] || ls == []
    ensures ks == [] && ls == [] && x == y
  {
    EntriesStart(a, ks, [RIGHT_BRACE] + x);
    EntriesStart(b, ls, [RIGHT_BRACE] + y);
    assert [] + ([RIGHT_BRACE] + x) == [RIGHT_BRACE] + x;
    assert [] + ([RIGHT_BRACE] + y) == [RIGHT_BRACE] + y;
    CancelUnit(RIGHT_BRACE, x, RIGHT_BRACE, y);
  }

  lemma {:induction false} MoreEntriesDecodable(a: Value, ks: seq<Text>, x: Text, b: Value, ls: seq<Text>, y: Text)
    requires a.Obj? && Valid(a) && forall k | k in ks :: k in a.props
    requires b.Obj? && Valid(b) && forall k | k in ls :: k in b.props
    requires MoreEntries(a, ks) + ([RIGHT_BRACE] + x) == MoreEntries(b, ls) + ([RIGHT_BRACE] + y)
    ensures ks == ls && x == y
    ensures forall k | k in ks :: Meaning(a.props[k]) == Meaning(b.props[k])
    decreases a, 0, ks, 2
  {
    EntriesStart(a, ks, [RIGHT_BRACE] + x);
    EntriesStart(b, ls, [RIGHT_BRACE] + y);
    var u, w := EncodeEntries(a, ks) + ([RIGHT_BRACE] + x), EncodeEntries(b, ls) + ([RIGHT_BRACE] + y);
    Regroup([COMMA], EncodeEntries(a, ks), [RIGHT_BRACE] + x);
    Regroup([COMMA], EncodeEntries(b, ls), [RIGHT_BRACE] + y);
    assert ks == [] <==> ls == [];
    if ks != [] {
      CancelUnit(COMMA, u, COMMA, w);
    } else {
      assert u == MoreEntries(a, ks) + ([RIGHT_BRACE] + x);
      assert w == MoreEntries(b, ls) + ([RIGHT_BRACE] + y);
    }
    EntriesDecodable(a, ks, x, b, ls, y);
  }

  lemma EntriesStart(v: Value, ks: seq<Text>, x: Text)
    requires v.Obj? && Valid(v) && forall k | k in ks :: k in v.props
    requires x != [] && x[0] == RIGHT_BRACE
    ensures (EncodeEntries(v, ks) + x)[0] == RIGHT_BRACE <==> ks == []
    ensures (MoreEntries(v, ks) + x)[0] == if ks == [] then RIGHT_BRACE else COMMA
  {
    assert EncodeString([])[0] == STRING[0];
  }

  lemma EntriesSplit(v: Value, ks: seq<Text>, x: Text)
    requires v.Obj? && Valid(v) && ks != [] && forall k | k in ks :: k in v.props
    ensures EncodeEntries(v, ks) + x
         == EncodeString(ks[0]) + ([COLON] + (Encode(v.props[ks[0]]) + (MoreEntries(v, ks[1..]) + x)))
  {
    var e, m := Encode(v.props[ks[0]]), MoreEntries(v, ks[1..]);
    Regroup(EncodeString(ks[0]), [COLON] + (e + m), x);
    Regroup([COLON], e + m, x);
    Regroup(e, m, x);
  }

  // ----- values with the same meaning have the same fingerprint -----

  lemma {:induction false} SameMeaningSameEncoding(a: Value, b: Value)
    requires Valid(a) && Valid(b) && Meaning(a) == Meaning(b)
    ensures Encode(a) == Encode(b)
    decreases a, 1
  {
    match a
    case Prim(_) =>
    case Arr(items) =>
      assert |items| == |Meaning(a).items| == |Meaning(b).items| == |b.items|;
      forall i | 0 <= i < |items|
        ensures Meaning(items[i]) == Meaning(b.items[i])
      {
        assert Meaning(a).items[i] == Meaning(b).items[i];
      }
      SameItems(items, b.items);
    case Obj(keys, props) =>
      assert props.Keys == Meaning(a).props.Keys == Meaning(b).props.Keys == b.props.Keys;
      forall k | k in props
        ensures Meaning(props[k]) == Meaning(b.props[k])
      {
        assert Meaning(a).props[k] == Meaning(b).props[k];
      }
      SortedCanonical(keys, b.keys);
      SameEntries(a, b, Sorted(keys));
  }

  lemma {:induction false} SameItems(us: seq<Value>, ws: seq<Value>)
    requires forall v | v in us :: Valid(v)
    requires forall v | v in ws :: Valid(v)
    requires |us| == |ws| && forall i | 0 <= i < |us| :: Meaning(us[i]) == Meaning(ws[i])
    ensures EncodeItems(us) == EncodeItems(ws)
    decreases us, 0
  {
    if us != [] {
      SameMeaningSameEncoding(us[0], ws[0]);
      SameItems(us[1..], ws[1..]);
    }
  }

  lemma {:induction false} SameEntries(a: Value, b: Value, ks: seq<Text>)
    requires a.Obj? && Valid(a) && b.Obj? && Valid(b)
    requires forall k | k in ks :: k in a.props && k in b.props && Meaning(a.props[k]) == Meaning(b.props[k])
    ensures EncodeEntries(a, ks) == EncodeEntries(b, ks)
    decreases a, 0, ks
  {
    if ks != [] {
      SameMeaningSameEncoding(a.props[ks[0]], b.props[ks[0]]);
      SameEntries(a, b, ks[1..]);
    }
  }

  /** Equal fingerprints say equal meaning, and no more. */
  lemma FingerprintIdentifiesMeaning(a: Value, b: Value)
    requires Valid(a) && Valid(b)
    ensures Encode(a) == Encode(b) <==> Meaning(a) == Meaning(b)
  {
    if Encode(a) == Encode(b) {
      assert Encode(a) + [] == Encode(b) + [];
      Decodable(a, [], b, []);
    } else if Meaning(a) == Meaning(b) {
      SameMeaningSameEncoding(a, b);
    }
  }

  // ----- object graphs -----

  type Address = nat

  /** What a variable holds: a primitive, or a reference to an object. */
  datatype Slot = Direct(prim: Primitive) | Ref(address: Address)

  datatype Node =
    | ArrayNode(items: seq<Slot>)
    | ObjectNode(keys: seq<Text>, props: map<Text, Slot>)

  type Heap = map<Address, Node>

  predicate ValidSlot(heap: Heap, s: Slot) {
    match s
    case Direct(p) => ValidPrimitive(p)
    case Ref(a) => a in heap
  }

  predicate ValidNode(heap: Heap, n: Node) {
    match n
    case ArrayNode(items) => forall s | s in items :: ValidSlot(heap, s)
    case ObjectNode(keys, props) => ValidKeys(keys, props) && forall k | k in props :: ValidSlot(heap, props[k])
  }

  predicate ValidHeap(heap: Heap) {
    forall a | a in heap :: ValidNode(heap, heap[a])
  }

  ghost predicate Child(n: Node, s: Slot) {
    match n
    case ArrayNode(items) => s in items
    case ObjectNode(_, props) => exists k :: k in props && props[k] == s
  }

  /** A walk through the graph: each object is held by the one before it. */
  ghost predicate Walk(heap: Heap, p: seq<Address>) {
    && (forall i | 0 <= i < |p| :: p[i] in heap)
    && (forall i | 0 < i < |p| :: Child(heap[p[i - 1]], Ref(p[i])))
  }

  /** A walk from `s` that ends where it has been before. */
  ghost predicate Lasso(heap: Heap, s: Slot, p: seq<Address>) {
    && Walk(heap, p) && p != [] && s == Ref(p[0])
    && exists i :: 0 <= i < |p| - 1 && p[i] == p[|p| - 1]
  }

  ghost predicate ReachesCycle(heap: Heap, s: Slot) {
    exists p :: Lasso(heap, s, p)
  }

  /** `v` is the finite value that `s` stands for once sharing is forgotten. */
  ghost predicate Unfolds(heap: Heap, s: Slot, v: Value)
    decreases v
  {
    match s
    case Direct(p) => v == Prim(p)
    case Ref(a) =>
      a in heap &&
      match heap[a]
      case ArrayNode(items) =>
        v.Arr? && |v.items| == |items| && forall i | 0 <= i < |items| :: Unfolds(heap, items[i], v.items[i])
      case ObjectNode(keys, props) =>
        v.Obj? && v.keys == keys && v.props.Keys == props.Keys
        && forall k | k in props :: Unfolds(heap, props[k], v.props[k])
  }

  lemma {:induction false} UnfoldingValid(heap: Heap, s: Slot, v: Value)
    requires ValidHeap(heap) && ValidSlot(heap, s) && Unfolds(heap, s, v)
    ensures Valid(v)
    decreases v
  {
    if s.Ref? {
      assert ValidNode(heap, heap[s.address]);
      match heap[s.address]
      case ArrayNode(items) =>
        forall x | x in v.items
          ensures Valid(x)
        {
          var i :| 0 <= i < |items| && v.items[i] == x;
          UnfoldingValid(heap, items[i], x);
        }
      case ObjectNode(keys, props) =>
        forall k | k in v.props
          ensures Valid(v.props[k])
        {
          UnfoldingValid(heap, props[k], v.props[k]);
        }
    }
  }

  lemma {:induction false} UnfoldingUnique(heap: Heap, s: Slot, v: Value, w: Value)
    requires Unfolds(heap, s, v) && Unfolds(heap, s, w)
    ensures v == w
    decreases v
  {
    if s.Ref? {
      match heap[s.address]
      case ArrayNode(items) =>
        forall i | 0 <= i < |items|
          ensures v.items[i] == w.items[i]
        {
          UnfoldingUnique(heap, items[i], v.items[i], w.items[i]);
        }
        assert v.items == w.items;
      case ObjectNode(keys, props) =>
        forall k | k in props
          ensures v.props[k] == w.props[k]
        {
          UnfoldingUnique(heap, props[k], v.props[k], w.props[k]);
        }
        assert v.props == w.props;
    }
  }

  ghost predicate Within(v: Value, w: Value)
    decreases w
  {
    match w
    case Prim(_) => false
    case Arr(items) => exists i :: 0 <= i < |items| && (v == items[i] || Within(v, items[i]))
    case Obj(_, props) => exists k :: k in props && (v == props[k] || Within(v, props[k]))
  }

  lemma {:induction false} WithinTransitive(u: Value, v: Value, w: Value)
    requires Within(u, v) && Within(v, w)
    ensures Within(u, w)
    decreases w
  {
    match w
    case Prim(_) =>
    case Arr(items) =>
      var i :| 0 <= i < |items| && (v == items[i] || Within(v, items[i]));
      if v != items[i] { WithinTransitive(u, v, items[i]); }
    case Obj(_, props) =>
      var k :| k in props && (v == props[k] || Within(v, props[k]));
      if v != props[k] { WithinTransitive(u, v, props[k]); }
  }

  lemma {:induction false} WithinIrreflexive(v: Value)
    ensures !Within(v, v)
    decreases v
  {
    if Within(v, v) {
      match v
      case Prim(_) =>
      case Arr(items) =>
        var i :| 0 <= i < |items| && (v == items[i] || Within(v, items[i]));
        WithinTransitive(items[i], v, items[i]);
        WithinIrreflexive(items[i]);
      case Obj(_, props) =>
        var k :| k in props && (v == props[k] || Within(v, props[k]));
        WithinTransitive(props[k], v, props[k]);
        WithinIrreflexive(props[k]);
    }
  }

  lemma ChildUnfolding(heap: Heap, a: Address, s: Slot, v: Value) returns (w: Value)
    requires a in heap && Child(heap[a], s) && Unfolds(heap, Ref(a), v)
    ensures Unfolds(heap, s, w) && Within(w, v)
  {
    match heap[a]
    case ArrayNode(items) =>
      var i :| 0 <= i < |items| && items[i] == s;
      w := v.items[i];
    case ObjectNode(keys, props) =>
      var k :| k in props && props[k] == s;
      w := v.props[k];
  }

  /** Going down a walk goes down the unfolding. */
  lemma {:induction false} WalkUnfolding(heap: Heap, p: seq<Address>, v: Value) returns (w: Value)
    requires Walk(heap, p) && p != [] && Unfolds(heap, Ref(p[0]), v)
    ensures Unfolds(heap, Ref(p[|p| - 1]), w)
    ensures if |p| == 1 then w == v else Within(w, v)
    decreases |p|
  {
    if |p| == 1 {
      w := v;
    } else {
      var front := p[..|p| - 1];
      assert Child(heap[p[|p| - 2]], Ref(p[|p| - 1]));
      var u := WalkUnfolding(heap, front, v);
      w := ChildUnfolding(heap, p[|p| - 2], Ref(p[|p| - 1]), u);
      if |front| > 1 { WithinTransitive(w, u, v); }
    }
  }

  lemma WalkTail(heap: Heap, p: seq<Address>, i: nat)
    requires Walk(heap, p) && i < |p|
    ensures Walk(heap, p[i..])
  {
    var rest := p[i..];
    forall j | 0 < j < |rest|
      ensures Child(heap[rest[j - 1]], Ref(rest[j]))
    {
      assert Child(heap[p[i + j - 1]], Ref(p[i + j]));
    }
  }

  /** What has a finite unfolding reaches no cycle. */
  lemma FiniteHasNoCycle(heap: Heap, s: Slot, v: Value)
    requires Unfolds(heap, s, v)
    ensures !ReachesCycle(heap, s)
  {
    forall p
      ensures !Lasso(heap, s, p)
    {
      if Lasso(heap, s, p) {
        var i :| 0 <= i < |p| - 1 && p[i] == p[|p| - 1];
        var u := WalkUnfolding(heap, p[..i + 1], v);
        var loop := p[i..];
        WalkTail(heap, p, i);
        var w := WalkUnfolding(heap, loop, u);
        UnfoldingUnique(heap, Ref(p[i]), u, w);
        WithinIrreflexive(u);
      }
    }
  }

  // ----- the traversal -----

  /** The set of objects whose encoding is under way. */
  class WeakSet {
    var members: set<Address>

    constructor ()
      ensures members == {}
    {
      members := {};
    }

    predicate Has(a: Address)
      reads this
    {
      a in members
    }

    method Add(a: Address)
      modifies this
      ensures members == old(members) + {a}
    {
      members := members + {a};
    }

    method Delete(a: Address)
      modifies this
      ensures members == old(members) - {a}
    {
      members := members - {a};
    }
  }

  datatype FingerprintError = CyclicValue

  type Outcome = Result<Text, FingerprintError>

  /** `path` is a walk down to the object that holds `s`; the set holds just its members. */
  ghost predicate Underway(heap: Heap, members: set<Address>, path: seq<Address>, s: Slot) {
    && Walk(heap, path)
    && (forall a :: a in members <==> a in path)
    && (path != [] ==> Child(heap[path[|path| - 1]], s))
  }

  /** A lasso that starts at the first object of `path`, or at `s` when there is none. */
  ghost predicate CycleBelow(heap: Heap, path: seq<Address>, s: Slot) {
    ReachesCycle(heap, if path == [] then s else Ref(path[0]))
  }

  lemma SeenAgain(heap: Heap, members: set<Address>, path: seq<Address>, a: Address)
    requires Underway(heap, members, path, Ref(a)) && a in heap && a in members
    ensures CycleBelow(heap, path, Ref(a))
  {
    var p := path + [a];
    var i :| 0 <= i < |path| && path[i] == a;
    assert p[i] == p[|p| - 1];
    assert Lasso(heap, Ref(p[0]), p);
  }

  lemma StepInto(heap: Heap, members: set<Address>, path: seq<Address>, a: Address, s: Slot)
    requires Underway(heap, members, path, Ref(a)) && a in heap && Child(heap[a], s)
    ensures Underway(heap, members + {a}, path + [a], s)
    ensures (path + [a])[0] == if path == [] then a else path[0]
  {
  }

  lemma FewerLeft(heap: Heap, members: set<Address>, a: Address)
    requires a in heap && a !in members
    ensures |heap.Keys - (members + {a})| < |heap.Keys - members|
  {
    assert heap.Keys - (members + {a}) == (heap.Keys - members) - {a};
  }

  lemma {:induction false} AppendItem(us: seq<Value>, v: Value)
    requires Valid(v) && forall u | u in us :: Valid(u)
    ensures EncodeItems(us + [v]) == if us == [] then Encode(v) else EncodeItems(us) + ([COMMA] + Encode(v))
    decreases |us|, 0
  {
    if us == [] {
      SingleItem(v);
    } else {
      AppendMoreItem(us[1..], v);
      assert (us + [v])[1..] == us[1..] + [v];
      Regroup(Encode(us[0]), MoreItems(us[1..]), [COMMA] + Encode(v));
    }
  }

  lemma SingleItem(v: Value)
    requires Valid(v)
    ensures EncodeItems([] + [v]) == Encode(v)
  {
    assert [] + [v] == [v];
    assert MoreItems([v][1..]) == [];
    assert Encode(v) + [] == Encode(v);
  }

  lemma {:induction false} AppendMoreItem(us: seq<Value>, v: Value)
    requires Valid(v) && forall u | u in us :: Valid(u)
    ensures MoreItems(us + [v]) == MoreItems(us) + ([COMMA] + Encode(v))
    decreases |us|, 1
  {
    AppendItem(us, v);
    if us == [] {
      assert [] + ([COMMA] + Encode(v)) == [COMMA] + Encode(v);
    } else {
      Regroup([COMMA], EncodeItems(us), [COMMA] + Encode(v));
    }
  }

  function EntryText(k: Text, encoded: Text): Text {
    EncodeString(k) + ([COLON] + encoded)
  }

  function Entry(k: Text, v: Value): Text
    requires Valid(v)
  {
    EntryText(k, Encode(v))
  }

  /** The entries of `ks` joined from the left, as a loop over them builds the text. */
  ghost function JoinEntries(trees: map<Text, Value>, ks: seq<Text>): Text
    requires forall k | k in ks :: k in trees && Valid(trees[k])
  {
    if ks == [] then []
    else
      var front, k := ks[..|ks| - 1], ks[|ks| - 1];
      (if front == [] then [] else JoinEntries(trees, front) + [COMMA]) + Entry(k, trees[k])
  }

  lemma {:induction false} JoinSame(trees: map<Text, Value>, others: map<Text, Value>, ks: seq<Text>)
    requires forall k | k in ks :: k in trees && k in others && trees[k] == others[k] && Valid(trees[k])
    ensures JoinEntries(trees, ks) == JoinEntries(others, ks)
  {
    if ks != [] {
      JoinSame(trees, others, ks[..|ks| - 1]);
    }
  }

  lemma {:induction false} AppendEntry(v: Value, ks: seq<Text>, k: Text)
    requires v.Obj? && Valid(v) && k in v.props && forall l | l in ks :: l in v.props
    ensures EncodeEntries(v, ks + [k])
         == (if ks == [] then [] else EncodeEntries(v, ks) + [COMMA]) + Entry(k, v.props[k])
    decreases |ks|, 0
  {
    var e := Entry(k, v.props[k]);
    if ks == [] {
      SingleEntry(v, k);
    } else {
      AppendMore(v, ks[1..], k);
      assert (ks + [k])[1..] == ks[1..] + [k];
      assert (ks + [k])[0] == ks[0];
      EntriesSplit(v, ks, [COMMA] + e);
      Regroup(EncodeEntries(v, ks), [COMMA], e);
    }
  }

  lemma SingleEntry(v: Value, k: Text)
    requires v.Obj? && Valid(v) && k in v.props
    ensures EncodeEntries(v, [] + [k]) == [] + Entry(k, v.props[k]) == Entry(k, v.props[k])
  {
    assert [] + [k] == [k];
    assert MoreEntries(v, [k][1..]) == [];
    assert Encode(v.props[k]) + [] == Encode(v.props[k]);
  }

  lemma {:induction false} AppendMore(v: Value, ks: seq<Text>, k: Text)
    requires v.Obj? && Valid(v) && k in v.props && forall l | l in ks :: l in v.props
    ensures MoreEntries(v, ks + [k]) == MoreEntries(v, ks) + ([COMMA] + Entry(k, v.props[k]))
    decreases |ks|, 1
  {
    var e := Entry(k, v.props[k]);
    AppendEntry(v, ks, k);
    if ks == [] {
      assert [] + ([COMMA] + e) == [COMMA] + e;
      assert [] + e == e;
    } else {
      Regroup(EncodeEntries(v, ks), [COMMA], e);
      Regroup([COMMA], EncodeEntries(v, ks), [COMMA] + e);
    }
  }

  lemma {:induction false} JoinIsEncode(v: Value, ks: seq<Text>)
    requires v.Obj? && Valid(v) && forall k | k in ks :: k in v.props
    ensures JoinEntries(v.props, ks) == EncodeEntries(v, ks)
    decreases |ks|
  {
    if ks == [] {
      assert EncodeEntries(v, []) == [];
    } else {
      var front, k := ks[..|ks| - 1], ks[|ks| - 1];
      assert ks == front + [k];
      JoinIsEncode(v, front);
      AppendEntry(v, front, k);
    }
  }

  /**
   The recursive encoder. It fails only when a cycle is reachable, and otherwise
   gives the encoding of the unfolding and leaves the set as it was.
   */
  method EncodeValue(heap: Heap, s: Slot, seen: WeakSet, ghost path: seq<Address>)
    returns (r: Outcome, ghost tree: Value)
    requires ValidHeap(heap) && ValidSlot(heap, s)
    requires Underway(heap, seen.members, path, s)
    modifies seen
    ensures r.Err? ==> CycleBelow(heap, path, s)
    ensures r.Ok? ==> seen.members == old(seen.members)
    ensures r.Ok? ==> Unfolds(heap, s, tree) && Valid(tree) && r.value == Encode(tree)
    decreases |heap.Keys - seen.members|, 1
  {
    match s
    case Direct(p) =>
      return Ok(EncodePrimitive(p)), Prim(p);
    case Ref(a) =>
      if seen.Has(a) {
        SeenAgain(heap, seen.members, path, a);
        return Err(CyclicValue), Prim(Null);
      }
      FewerLeft(heap, seen.members, a);
      assert ValidNode(heap, heap[a]);
      ghost var before := seen.members;
      seen.Add(a);
      match heap[a] {
        case ArrayNode(items) =>
          r, tree := EncodeArray(heap, a, items, seen, before, path);
        case ObjectNode(keys, props) =>
          r, tree := EncodeObject(heap, a, keys, props, seen, before, path);
      }
      if r.Ok? {
        seen.Delete(a);
        assert seen.members == before;
        UnfoldingValid(heap, s, tree);
      }
  }

  method EncodeItem(heap: Heap, a: Address, i: nat, items: seq<Slot>, seen: WeakSet,
                    ghost before: set<Address>, ghost path: seq<Address>)
    returns (r: Outcome, ghost tree: Value)
    requires ValidHeap(heap) && a in heap && heap[a] == ArrayNode(items) && i < |items|
    requires Underway(heap, before, path, Ref(a)) && a !in before && seen.members == before + {a}
    modifies seen
    ensures r.Err? ==> CycleBelow(heap, path, Ref(a))
    ensures r.Ok? ==> seen.members == old(seen.members)
    ensures r.Ok? ==> Unfolds(heap, items[i], tree) && Valid(tree) && r.value == Encode(tree)
    decreases |heap.Keys - seen.members|, 2
  {
    assert ValidNode(heap, heap[a]);
    StepInto(heap, before, path, a, items[i]);
    r, tree := EncodeValue(heap, items[i], seen, path + [a]);
  }

  /** `trees` are the unfoldings of the first items. */
  ghost predicate ItemsDone(heap: Heap, items: seq<Slot>, trees: seq<Value>) {
    |trees| <= |items| && forall j | 0 <= j < |trees| :: Unfolds(heap, items[j], trees[j]) && Valid(trees[j])
  }

  lemma ItemsStep(heap: Heap, items: seq<Slot>, trees: seq<Value>, sub: Value)
    requires ItemsDone(heap, items, trees) && |trees| < |items|
    requires Unfolds(heap, items[|trees|], sub) && Valid(sub)
    ensures ItemsDone(heap, items, trees + [sub])
  {
    var done := trees + [sub];
    forall j | 0 <= j < |done|
      ensures Unfolds(heap, items[j], done[j]) && Valid(done[j])
    {
      assert done[j] == if j < |trees| then trees[j] else sub;
    }
  }

  lemma ItemsFinish(heap: Heap, a: Address, items: seq<Slot>, trees: seq<Value>)
    requires a in heap && heap[a] == ArrayNode(items) && ItemsDone(heap, items, trees) && |trees| == |items|
    ensures Unfolds(heap, Ref(a), Arr(trees)) && Valid(Arr(trees))
    ensures Encode(Arr(trees)) == [LEFT_BRACKET] + (EncodeItems(trees) + [RIGHT_BRACKET])
  {
  }

  /** The items of the array at `a`, one after the other. */
  method EncodeArray(heap: Heap, a: Address, items: seq<Slot>, seen: WeakSet,
                     ghost before: set<Address>, ghost path: seq<Address>)
    returns (r: Outcome, ghost tree: Value)
    requires ValidHeap(heap) && a in heap && heap[a] == ArrayNode(items)
    requires Underway(heap, before, path, Ref(a)) && a !in before && seen.members == before + {a}
    modifies seen
    ensures r.Err? ==> CycleBelow(heap, path, Ref(a))
    ensures r.Ok? ==> seen.members == old(seen.members)
    ensures r.Ok? ==> Unfolds(heap, Ref(a), tree) && Valid(tree) && r.value == Encode(tree)
    decreases |heap.Keys - seen.members|, 3
  {
    var body: Text := [];
    ghost var trees: seq<Value> := [];
    for i := 0 to |items|
      invariant seen.members == before + {a}
      invariant |trees| == i && ItemsDone(heap, items, trees)
      invariant body == EncodeItems(trees)
    {
      var item, sub := EncodeItem(heap, a, i, items, seen, before, path);
      if item.Err? { return item, Prim(Null); }
      ItemsStep(heap, items, trees, sub);
      AppendItem(trees, sub);
      body := if i == 0 then item.value else body + ([COMMA] + item.value);
      trees := trees + [sub];
    }
    ItemsFinish(heap, a, items, trees);
    return Ok([LEFT_BRACKET] + (body + [RIGHT_BRACKET])), Arr(trees);
  }

  /** `trees` holds the unfoldings of just the properties named by `ks`. */
  ghost predicate EntriesDone(heap: Heap, props: map<Text, Slot>, trees: map<Text, Value>, ks: seq<Text>) {
    && (forall k :: k in trees <==> k in ks)
    && forall k | k in trees :: k in props && Unfolds(heap, props[k], trees[k]) && Valid(trees[k])
  }

  lemma EntriesStep(heap: Heap, props: map<Text, Slot>, trees: map<Text, Value>, sorted: seq<Text>, i: nat, sub: Value)
    requires Ascending(sorted) && i < |sorted| && EntriesDone(heap, props, trees, sorted[..i])
    requires sorted[i] in props && Unfolds(heap, props[sorted[i]], sub) && Valid(sub)
    ensures EntriesDone(heap, props, trees[sorted[i] := sub], sorted[..i + 1])
    ensures JoinEntries(trees[sorted[i] := sub], sorted[..i + 1])
         == (if i == 0 then [] else JoinEntries(trees, sorted[..i]) + [COMMA]) + Entry(sorted[i], sub)
  {
    AscendingFresh(sorted, i);
    assert sorted[..i + 1] == sorted[..i] + [sorted[i]];
    DoneStep(heap, props, trees, sorted[..i], sorted[i], sub);
    JoinStep(trees, sorted[..i], sorted[i], sub);
  }

  lemma DoneStep(heap: Heap, props: map<Text, Slot>, trees: map<Text, Value>, ks: seq<Text>, k: Text, sub: Value)
    requires EntriesDone(heap, props, trees, ks) && k !in ks
    requires k in props && Unfolds(heap, props[k], sub) && Valid(sub)
    ensures EntriesDone(heap, props, trees[k := sub], ks + [k])
  {
  }

  lemma JoinStep(trees: map<Text, Value>, ks: seq<Text>, k: Text, sub: Value)
    requires (forall l | l in ks :: l in trees && Valid(trees[l])) && k !in ks && Valid(sub)
    ensures JoinEntries(trees[k := sub], ks + [k])
         == (if ks == [] then [] else JoinEntries(trees, ks) + [COMMA]) + Entry(k, sub)
  {
    JoinSame(trees, trees[k := sub], ks);
    assert (ks + [k])[..|ks|] == ks;
  }

  lemma EntriesFinish(heap: Heap, a: Address, keys: seq<Text>, props: map<Text, Slot>, trees: map<Text, Value>)
    requires a in heap && heap[a] == ObjectNode(keys, props) && ValidKeys(keys, props)
    requires EntriesDone(heap, props, trees, Sorted(keys))
    ensures Unfolds(heap, Ref(a), Obj(keys, trees)) && Valid(Obj(keys, trees))
    ensures Encode(Obj(keys, trees)) == [LEFT_BRACE] + (JoinEntries(trees, Sorted(keys)) + [RIGHT_BRACE])
  {
    assert trees.Keys == props.Keys;
    JoinIsEncode(Obj(keys, trees), Sorted(keys));
  }

  lemma AscendingFresh(s: seq<Text>, i: nat)
    requires Ascending(s) && i < |s|
    ensures s[i] !in s[..i]
  {
    LessIrreflexive(s[i]);
  }

  method EncodeProperty(heap: Heap, a: Address, k: Text, keys: seq<Text>, props: map<Text, Slot>, seen: WeakSet,
                        ghost before: set<Address>, ghost path: seq<Address>)
    returns (r: Outcome, ghost tree: Value)
    requires ValidHeap(heap) && a in heap && heap[a] == ObjectNode(keys, props) && k in props
    requires Underway(heap, before, path, Ref(a)) && a !in before && seen.members == before + {a}
    modifies seen
    ensures r.Err? ==> CycleBelow(heap, path, Ref(a))
    ensures r.Ok? ==> seen.members == old(seen.members)
    ensures r.Ok? ==> Unfolds(heap, props[k], tree) && Valid(tree) && r.value == Encode(tree)
    decreases |heap.Keys - seen.members|, 2
  {
    assert ValidNode(heap, heap[a]);
    StepInto(heap, before, path, a, props[k]);
    r, tree := EncodeValue(heap, props[k], seen, path + [a]);
  }

  /** The entries of the object at `a`, joined in the order of `sorted`. */
  method EncodeSorted(heap: Heap, a: Address, sorted: seq<Text>, keys: seq<Text>, props: map<Text, Slot>, seen: WeakSet,
                      ghost before: set<Address>, ghost path: seq<Address>)
    returns (r: Outcome, ghost trees: map<Text, Value>)
    requires ValidHeap(heap) && a in heap && heap[a] == ObjectNode(keys, props)
    requires Ascending(sorted) && forall k | k in sorted :: k in props
    requires Underway(heap, before, path, Ref(a)) && a !in before && seen.members == before + {a}
    modifies seen
    ensures r.Err? ==> CycleBelow(heap, path, Ref(a))
    ensures r.Ok? ==> seen.members == old(seen.members)
    ensures r.Ok? ==> EntriesDone(heap, props, trees, sorted) && r.value == JoinEntries(trees, sorted)
    decreases |heap.Keys - seen.members|, 3
  {
    var body: Text := [];
    trees := map[];
    for i := 0 to |sorted|
      invariant seen.members == before + {a}
      invariant EntriesDone(heap, props, trees, sorted[..i])
      invariant body == JoinEntries(trees, sorted[..i])
    {
      var k := sorted[i];
      var item, sub := EncodeProperty(heap, a, k, keys, props, seen, before, path);
      if item.Err? { return item, trees; }
      body := (if i == 0 then [] else body + [COMMA]) + EntryText(k, item.value);
      EntriesStep(heap, props, trees, sorted, i, sub);
      trees := trees[k := sub];
    }
    assert sorted[..|sorted|] == sorted;
    return Ok(body), trees;
  }

  /** The object at `a`, its properties in the order of the sorted keys. */
  method EncodeObject(heap: Heap, a: Address, keys: seq<Text>, props: map<Text, Slot>, seen: WeakSet,
                      ghost before: set<Address>, ghost path: seq<Address>)
    returns (r: Outcome, ghost tree: Value)
    requires ValidHeap(heap) && a in heap && heap[a] == ObjectNode(keys, props)
    requires Underway(heap, before, path, Ref(a)) && a !in before && seen.members == before + {a}
    modifies seen
    ensures r.Err? ==> CycleBelow(heap, path, Ref(a))
    ensures r.Ok? ==> seen.members == old(seen.members)
    ensures r.Ok? ==> Unfolds(heap, Ref(a), tree) && Valid(tree) && r.value == Encode(tree)
    decreases |heap.Keys - seen.members|, 4
  {
    assert ValidNode(heap, heap[a]);
    SortedAscending(keys);
    var body, trees := EncodeSorted(heap, a, Sorted(keys), keys, props, seen, before, path);
    if body.Err? { return body, Prim(Null); }
    EntriesFinish(heap, a, keys, props, trees);
    return Ok([LEFT_BRACE] + (body.value + [RIGHT_BRACE])), Obj(keys, trees);
  }

  /** The exported function: a fresh set, then the recursive encoder. */
  method StableFingerprint(heap: Heap, s: Slot) returns (r: Outcome)
    requires ValidHeap(heap) && ValidSlot(heap, s)
    ensures r.Err? <==> ReachesCycle(heap, s)
    ensures r.Ok? ==> exists v :: Valid(v) && Unfolds(heap, s, v) && r.value == Encode(v)
  {
    var seen := new WeakSet();
    ghost var tree;
    r, tree := EncodeValue(heap, s, seen, []);
    if r.Ok? {
      FiniteHasNoCycle(heap, s, tree);
    }
  }

  /** Acyclic graphs, whatever they share, agree on the fingerprint just when they agree on the meaning. */
  method CompareGraphs(heap: Heap, s: Slot, other: Heap, t: Slot, ghost v: Value, ghost w: Value)
    returns (same: bool)
    requires ValidHeap(heap) && ValidSlot(heap, s) && Unfolds(heap, s, v)
    requires ValidHeap(other) && ValidSlot(other, t) && Unfolds(other, t, w)
    ensures same <==> Meaning(v) == Meaning(w)
  {
    FiniteHasNoCycle(heap, s, v);
    FiniteHasNoCycle(other, t, w);
    var a := StableFingerprint(heap, s);
    var b := StableFingerprint(other, t);
    ghost var x :| Valid(x) && Unfolds(heap, s, x) && a.value == Encode(x);
    ghost var y :| Valid(y) && Unfolds(other, t, y) && b.value == Encode(y);
    UnfoldingUnique(heap, s, v, x);
    UnfoldingUnique(other, t, w, y);
    FingerprintIdentifiesMeaning(v, w);
    same := a == b;
  }
}
