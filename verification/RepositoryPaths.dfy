/**
 The texts of repository paths as the tools under tools/v2 treat them: str.strip(),
 PurePosixPath(...).as_posix(), and the two together. `blank` says which characters
 str.strip() takes for white space.
 */
module RepositoryPaths {
  import opened Wrappers

  // ----- white space -----

  function StripLeft(blank: char -> bool, s: string): string {
    if s != "" && blank(s[0]) then StripLeft(blank, s[1..]) else s
  }

  function StripRight(blank: char -> bool, s: string): string {
    if s != "" && blank(s[|s| - 1]) then StripRight(blank, s[..|s| - 1]) else s
  }

  /** s.strip() */
  function Strip(blank: char -> bool, s: string): string {
    StripRight(blank, StripLeft(blank, s))
  }

  lemma {:induction false} StripLeftFacts(blank: char -> bool, s: string)
    ensures var t := StripLeft(blank, s);
      && |t| <= |s| && (t == s || |t| < |s|) && (t != "" ==> !blank(t[0]))
      && (forall c | c in t :: c in s)
    decreases |s|
  {
    if s != "" && blank(s[0]) {
      StripLeftFacts(blank, s[1..]);
      assert forall c | c in s[1..] :: c in s;
    }
  }

  lemma {:induction false} StripRightFacts(blank: char -> bool, s: string)
    ensures var t := StripRight(blank, s);
      && |t| <= |s| && (t == s || |t| < |s|) && (t != "" ==> !blank(t[|t| - 1]) && t[0] == s[0])
      && (forall c | c in t :: c in s)
    decreases |s|
  {
    if s != "" && blank(s[|s| - 1]) {
      StripRightFacts(blank, s[..|s| - 1]);
      assert forall c | c in s[..|s| - 1] :: c in s;
    }
  }

  /** Stripping shortens a text or leaves it, and then finds nothing more to strip. */
  lemma StripFacts(blank: char -> bool, s: string)
    ensures var t := Strip(blank, s);
      Strip(blank, t) == t && |t| <= |s| && (t == s || |t| < |s|) && forall c | c in t :: c in s
  {
    var left := StripLeft(blank, s);
    var t := StripRight(blank, left);
    StripLeftFacts(blank, s);
    StripRightFacts(blank, left);
    if t != "" {
      assert StripLeft(blank, t) == t;
      assert StripRight(blank, t) == t;
    }
  }

  // ----- PurePosixPath -----

  /** s.split("/") */
  function Split(s: string): (parts: seq<string>)
    ensures |parts| >= 1
  {
    if s == "" then [""]
    else if s[0] == '/' then [""] + Split(s[1..])
    else
      var rest := Split(s[1..]);
      [[s[0]] + rest[0]] + rest[1..]
  }

  /** "/".join(parts) */
  function Joined(parts: seq<string>): string {
    if parts == [] then "" else if |parts| == 1 then parts[0] else parts[0] + "/" + Joined(parts[1..])
  }

  predicate Named(part: string) {
    part != "" && part != "."
  }

  function Kept(parts: seq<string>): seq<string> {
    if parts == [] then [] else (if Named(parts[0]) then [parts[0]] else []) + Kept(parts[1..])
  }

  /** Path(s).as_posix(), or None where the tools refuse the path: it is absolute or goes up. */
  function Posix(s: string): Option<string> {
    var parts := Kept(Split(s));
    if (s != "" && s[0] == '/') || ".." in parts then None
    else Some(if parts == [] then "." else Joined(parts))
  }

  function Slashed(s: string): string {
    seq(|s|, i requires 0 <= i < |s| => if s[i] == '\\' then '/' else s[i])
  }

  /** _relative_path: the text stripped, its backslashes turned, and normalized. */
  function RelativePath(blank: char -> bool, s: string): Option<string> {
    var t := Strip(blank, s);
    if t == "" then None else Posix(Slashed(t))
  }

  // ----- laws -----

  predicate Solid(part: string) {
    Named(part) && '/' !in part
  }

  lemma {:induction false} SplitSolid(s: string)
    ensures forall part | part in Split(s) :: '/' !in part
    decreases |s|
  {
    if s != "" {
      SplitSolid(s[1..]);
      var rest := Split(s[1..]);
      if s[0] != '/' {
        assert rest[0] in rest;
        forall part | part in Split(s)
          ensures '/' !in part
        {
          assert part == [s[0]] + rest[0] || part in rest[1..];
          assert forall p | p in rest[1..] :: p in rest;
        }
      }
    }
  }

  lemma {:induction false} KeptMembers(parts: seq<string>)
    ensures forall part :: part in Kept(parts) <==> part in parts && Named(part)
    decreases |parts|
  {
    if parts != [] {
      KeptMembers(parts[1..]);
      assert parts == [parts[0]] + parts[1..];
    }
  }

  lemma {:induction false} KeptAll(parts: seq<string>)
    requires forall part | part in parts :: Named(part)
    ensures Kept(parts) == parts
    decreases |parts|
  {
    if parts != [] {
      assert parts[0] in parts && forall p | p in parts[1..] :: p in parts;
      KeptAll(parts[1..]);
    }
  }

  lemma {:induction false} SplitPart(part: string)
    requires '/' !in part
    ensures Split(part) == [part]
    decreases |part|
  {
    if part != "" {
      assert part[0] in part && forall c | c in part[1..] :: c in part;
      SplitPart(part[1..]);
      assert [part[0]] + part[1..] == part;
    }
  }

  lemma {:induction false} SplitFirst(part: string, rest: string)
    requires '/' !in part
    ensures Split(part + "/" + rest) == [part] + Split(rest)
    decreases |part|
  {
    var s := part + "/" + rest;
    if part == "" {
      assert s == "/" + rest && s[1..] == rest;
    } else {
      assert part[0] in part && forall c | c in part[1..] :: c in part;
      assert s[0] == part[0] && s[1..] == part[1..] + "/" + rest;
      SplitFirst(part[1..], rest);
      assert [part[0]] + part[1..] == part;
    }
  }

  lemma {:induction false} SplitJoined(parts: seq<string>)
    requires parts != [] && forall part | part in parts :: '/' !in part
    ensures Split(Joined(parts)) == parts
    decreases |parts|
  {
    assert parts[0] in parts && forall p | p in parts[1..] :: p in parts;
    if |parts| == 1 {
      SplitPart(parts[0]);
    } else {
      SplitJoined(parts[1..]);
      SplitFirst(parts[0], Joined(parts[1..]));
    }
  }

  lemma JoinedFirst(parts: seq<string>)
    requires parts != [] && parts[0] != ""
    ensures Joined(parts) != "" && Joined(parts)[0] == parts[0][0]
  {
  }

  /** A normalized path is its own normal form. */
  lemma PosixNormal(s: string, p: string)
    requires Posix(s) == Some(p)
    ensures Posix(p) == Some(p)
  {
    var parts := Kept(Split(s));
    SplitSolid(s);
    KeptMembers(Split(s));
    if parts == [] {
      SplitPart(".");
    } else {
      assert parts[0] in parts;
      SplitJoined(parts);
      KeptAll(parts);
      JoinedFirst(parts);
      assert parts[0][0] in parts[0];
    }
  }

  lemma {:induction false} SplitLength(s: string)
    ensures |Joined(Split(s))| == |s|
    decreases |s|
  {
    if s != "" {
      SplitLength(s[1..]);
      var rest := Split(s[1..]);
      if s[0] != '/' && |rest| > 1 {
        assert Split(s)[1..] == rest[1..];
      }
    }
  }

  lemma {:induction false} KeptLength(parts: seq<string>)
    ensures |Joined(Kept(parts))| <= |Joined(parts)|
    ensures |Kept(parts)| <= |parts|
    decreases |parts|
  {
    if parts != [] {
      KeptLength(parts[1..]);
      var rest := Kept(parts[1..]);
      if Named(parts[0]) {
        assert Kept(parts)[1..] == rest;
      } else {
        assert Kept(parts) == rest;
      }
    }
  }

  /** Normalizing makes no text longer. */
  lemma PosixShorter(s: string, p: string)
    requires s != "" && Posix(s) == Some(p)
    ensures |p| <= |s|
  {
    SplitLength(s);
    KeptLength(Split(s));
  }

  lemma {:induction false} JoinedChars(parts: seq<string>, c: char)
    requires c in Joined(parts) && c != '/'
    ensures exists part :: part in parts && c in part
    decreases |parts|
  {
    if |parts| > 1 {
      assert Joined(parts) == parts[0] + "/" + Joined(parts[1..]);
      if c in parts[0] {
        assert parts[0] in parts;
      } else {
        assert c in Joined(parts[1..]);
        JoinedChars(parts[1..], c);
        var part :| part in parts[1..] && c in part;
        assert part in parts;
      }
    } else {
      assert parts[0] in parts;
    }
  }

  lemma {:induction false} SplitChars(s: string, part: string, c: char)
    requires part in Split(s) && c in part
    ensures c in s
    decreases |s|
  {
    if s != "" {
      var rest := Split(s[1..]);
      if s[0] == '/' || part != Split(s)[0] {
        assert part in rest;
        SplitChars(s[1..], part, c);
      } else if c != s[0] {
        assert c in rest[0] && rest[0] in rest;
        SplitChars(s[1..], rest[0], c);
      }
    }
  }

  /** Normalizing a text without backslashes gives one without backslashes. */
  lemma PosixPlain(s: string, p: string)
    requires Posix(s) == Some(p) && '\\' !in s
    ensures '\\' !in p
  {
    var parts := Kept(Split(s));
    if parts != [] && '\\' in p {
      JoinedChars(parts, '\\');
      var part :| part in parts && '\\' in part;
      KeptMembers(Split(s));
      SplitChars(s, part, '\\');
    }
  }

  lemma SlashedPlain(s: string)
    ensures '\\' !in Slashed(s)
    ensures '\\' !in s ==> Slashed(s) == s
  {
    if '\\' !in s {
      forall i | 0 <= i < |s|
        ensures s[i] != '\\'
      {
        assert s[i] in s;
      }
    }
  }

  /**
   What a relative path becomes when it is normalized again: only its outer white space
   makes a difference.
   */
  lemma RelativeAgain(blank: char -> bool, s: string, p: string)
    requires RelativePath(blank, s) == Some(p)
    ensures Posix(p) == Some(p)
    ensures RelativePath(blank, p) == if Strip(blank, p) == "" then None else Posix(Strip(blank, p))
  {
    var t := Slashed(Strip(blank, s));
    SlashedPlain(Strip(blank, s));
    PosixNormal(t, p);
    PosixPlain(t, p);
    StripFacts(blank, p);
    SlashedPlain(Strip(blank, p));
  }

  /** A relative path is a fixed point exactly when it has no outer white space. */
  lemma RelativeFixed(blank: char -> bool, s: string, p: string)
    requires RelativePath(blank, s) == Some(p)
    ensures p != ""
    ensures RelativePath(blank, p) == Some(p) <==> Strip(blank, p) == p
  {
    RelativeAgain(blank, s, p);
    PosixNonEmpty(Slashed(Strip(blank, s)), p);
    StripFacts(blank, p);
    var t := Strip(blank, p);
    if t != "" && Posix(t) == Some(p) {
      PosixShorter(t, p);
    }
  }

  lemma PosixNonEmpty(s: string, p: string)
    requires Posix(s) == Some(p)
    ensures p != ""
  {
    var parts := Kept(Split(s));
    if parts != [] {
      KeptMembers(Split(s));
      assert parts[0] in parts;
      JoinedFirst(parts);
    }
  }

  // ----- paths with white space in front -----

  /** White space that no path of these samples uses for anything else. */
  predicate Blanks(blank: char -> bool) {
    blank(' ') && !blank('.') && !blank('/') && !blank('a')
  }

  lemma StripNothing(blank: char -> bool, s: string)
    requires s != "" && !blank(s[0]) && !blank(s[|s| - 1])
    ensures Strip(blank, s) == s
  {
  }

  lemma StripBlank(blank: char -> bool)
    requires Blanks(blank)
    ensures Strip(blank, " ") == "" && Strip(blank, " a") == "a"
  {
    assert " "[1..] == "" && " a"[1..] == "a";
    assert StripLeft(blank, " ") == StripLeft(blank, "");
    assert StripLeft(blank, " a") == StripLeft(blank, "a");
  }

  lemma SplitDotted(part: string)
    requires '/' !in part
    ensures Split("./" + part) == [".", part]
  {
    SplitPart(part);
    SplitFirst(".", part);
    assert "." + "/" + part == "./" + part;
  }

  lemma PosixOf(s: string, part: string)
    requires Solid(part) && part != ".." && (Split(s) == [part] || Split(s) == [".", part])
    requires s != "" && s[0] != '/'
    ensures Posix(s) == Some(part)
  {
    assert Kept([part]) == [part] by { assert [part][1..] == []; }
    assert Kept([".", part]) == [part] by { assert [".", part][1..] == [part]; }
  }

  /** "./ a" is normalized to " a", and that to "a". */
  lemma BlankName(blank: char -> bool)
    requires Blanks(blank)
    ensures RelativePath(blank, "./ a") == Some(" a") && Strip(blank, " a") == "a"
    ensures RelativePath(blank, " a") == Some("a") && RelativePath(blank, "a") == Some("a")
    ensures Posix(" a") == Some(" a") && Posix("a") == Some("a")
  {
    StripNothing(blank, "./ a");
    StripNothing(blank, "a");
    StripBlank(blank);
    assert "./" + " a" == "./ a";
    SplitDotted(" a");
    SplitPart(" a");
    SplitPart("a");
    PosixOf("./ a", " a");
    PosixOf(" a", " a");
    PosixOf("a", "a");
    SlashedPlain("./ a");
    SlashedPlain("a");
  }

  /** "./ /" is normalized to a blank, which is no path. */
  lemma BlankPath(blank: char -> bool)
    requires Blanks(blank)
    ensures RelativePath(blank, "./ /") == Some(" ") && RelativePath(blank, " ") == None
  {
    StripNothing(blank, "./ /");
    StripBlank(blank);
    assert "." + "/" + " /" == "./ /" && " " + "/" + "" == " /";
    SplitFirst(".", " /");
    SplitFirst(" ", "");
    SlashedPlain("./ /");
    assert Split("./ /") == [".", " ", ""];
    assert [".", " ", ""][1..] == [" ", ""] && [" ", ""][1..] == [""] && [""][1..] == [];
    assert Kept([".", " ", ""]) == [" "];
  }

  /** A name without dots, slashes and blanks is its own relative path. */
  lemma PlainName(blank: char -> bool, name: string)
    requires Solid(name) && name != ".." && '\\' !in name && !blank(name[0]) && !blank(name[|name| - 1])
    ensures RelativePath(blank, name) == Some(name) && Posix(name) == Some(name)
  {
    assert name[0] in name;
    StripNothing(blank, name);
    SplitPart(name);
    PosixOf(name, name);
    SlashedPlain(name);
  }
}
