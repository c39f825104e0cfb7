/**
 JavaScript strings as sequences of UTF-16 code units, ordered the way
 `Array.prototype.sort` orders strings, and the decimal numerals of `String(n)`
 for natural numbers.
 */
module CodeUnits {
  import opened Sorting

  newtype Unit = x: int | 0 <= x < 0x1_0000
  type Text = seq<Unit>

  const COMMA: Unit := 44
  const COLON: Unit := 58
  const LEFT_BRACKET: Unit := 91
  const RIGHT_BRACKET: Unit := 93
  const LEFT_BRACE: Unit := 123
  const RIGHT_BRACE: Unit := 125

  /** The units that may follow an encoded value inside a composite encoding. */
  predicate IsDelimiter(u: Unit) {
    u == COMMA || u == COLON || u == RIGHT_BRACKET || u == RIGHT_BRACE
  }

  /** A continuation that cannot be mistaken for more of the value before it. */
  predicate Delimited(t: Text) {
    t == [] || IsDelimiter(t[0])
  }

  predicate Undelimited(t: Text) {
    forall i | 0 <= i < |t| :: !IsDelimiter(t[i])
  }

  /** An undelimited text ends where the first delimiter starts. */
  lemma {:induction false} UndelimitedPrefix(u: Text, x: Text, v: Text, y: Text)
    requires Undelimited(u) && Undelimited(v)
    requires Delimited(x) && Delimited(y)
    requires u + x == v + y
    ensures u == v && x == y
  {
    assert u == (u + x)[..|u|];
    assert v == (v + y)[..|v|];
    assert x == (u + x)[|u|..];
    assert y == (v + y)[|v|..];
  }

  lemma Cancel(p: Text, x: Text, y: Text)
    requires p + x == p + y
    ensures x == y
  {
    assert x == (p + x)[|p|..];
    assert y == (p + y)[|p|..];
  }

  lemma Regroup(p: Text, q: Text, x: Text)
    ensures (p + q) + x == p + (q + x)
  {
  }

  /** Texts that start with one unit each agree on it and on what follows. */
  lemma CancelUnit(c: Unit, x: Text, d: Unit, y: Text)
    requires [c] + x == [d] + y
    ensures c == d && x == y
  {
    assert c == ([c] + x)[0] && d == ([d] + y)[0];
    Cancel([c], x, y);
  }

  // ----- numerals -----

  function Decimal(n: nat): (t: Text)
    ensures |t| >= 1 && forall i | 0 <= i < |t| :: 48 <= t[i] <= 57
  {
    if n < 10 then [(48 + n) as Unit] else Decimal(n / 10) + [(48 + n % 10) as Unit]
  }

  lemma {:induction false} DecimalInjective(m: nat, n: nat)
    requires Decimal(m) == Decimal(n)
    ensures m == n
  {
    var s, t := Decimal(m), Decimal(n);
    assert s[|s| - 1] == (48 + m % 10) as Unit;
    assert t[|t| - 1] == (48 + n % 10) as Unit;
    if m >= 10 && n >= 10 {
      assert Decimal(m / 10) == s[..|s| - 1];
      assert Decimal(n / 10) == t[..|t| - 1];
      DecimalInjective(m / 10, n / 10);
    }
  }

  // ----- the order of strings -----

  predicate Less(a: Text, b: Text) {
    b != [] && (a == [] || a[0] < b[0] || (a[0] == b[0] && Less(a[1..], b[1..])))
  }

  lemma {:induction false} LessIrreflexive(a: Text)
    ensures !Less(a, a)
  {
    if a != [] {
      LessIrreflexive(a[1..]);
    }
  }

  lemma {:induction false} LessTransitive(a: Text, b: Text, c: Text)
    requires Less(a, b) && Less(b, c)
    ensures Less(a, c)
  {
    if a != [] && a[0] == b[0] && b[0] == c[0] {
      LessTransitive(a[1..], b[1..], c[1..]);
    }
  }

  lemma {:induction false} LessTotal(a: Text, b: Text)
    ensures Less(a, b) || a == b || Less(b, a)
  {
    if a != [] && b != [] && a[0] == b[0] {
      LessTotal(a[1..], b[1..]);
      assert a == [a[0]] + a[1..];
      assert b == [b[0]] + b[1..];
    }
  }

  // ----- sorting distinct keys -----

  predicate Ascending(s: seq<Text>) {
    forall i, j | 0 <= i < j < |s| :: Less(s[i], s[j])
  }

  lemma LessOrder()
    ensures TotalOrder(Less)
  {
    forall a, b
      ensures Less(a, b) || a == b || Less(b, a)
      ensures Less(a, b) ==> !Less(b, a)
    {
      LessTotal(a, b);
      LessIrreflexive(a);
      if Less(a, b) && Less(b, a) { LessTransitive(a, b, a); }
    }
    forall a, b, c | !Less(a, b) && !Less(b, c)
      ensures !Less(a, c)
    {
      LessTotal(a, b);
      LessTotal(b, c);
      LessIrreflexive(c);
      if Less(a, c) && Less(c, b) { LessTransitive(a, c, b); }
    }
  }

  /** The effect of `keys.sort()`. */
  function Sorted(keys: seq<Text>): (r: seq<Text>)
    ensures |r| == |keys|
    ensures forall x :: x in r <==> x in keys
  {
    var r := SortBy(Less, keys);
    MembersKept(keys, r);
    r
  }

  lemma SortedAscending(keys: seq<Text>)
    requires Distinct(keys)
    ensures Ascending(Sorted(keys))
  {
    LessOrder();
    SortOrdered(Less, keys);
    DistinctKept(keys, Sorted(keys));
  }

  lemma {:induction false} DistinctMultiset(s: seq<Text>, x: Text)
    requires Distinct(s)
    ensures multiset(s)[x] == if x in s then 1 else 0
  {
    if s != [] {
      assert s == [s[0]] + s[1..];
      DistinctMultiset(s[1..], x);
    }
  }

  lemma DistinctKept(s: seq<Text>, r: seq<Text>)
    requires Distinct(s) && multiset(r) == multiset(s)
    ensures Distinct(r)
  {
    forall i, j | 0 <= i < j < |r|
      ensures r[i] != r[j]
    {
      DistinctMultiset(s, r[i]);
      if r[i] == r[j] { Repeated(r, i, j); }
    }
  }

  /** Sorting forgets the order in which the keys were listed. */
  lemma SortedCanonical(keys: seq<Text>, others: seq<Text>)
    requires Distinct(keys) && Distinct(others)
    ensures Sorted(keys) == Sorted(others) <==> forall x :: x in keys <==> x in others
  {
    if Sorted(keys) == Sorted(others) {
      assert forall x :: x in keys <==> x in Sorted(keys);
    } else if forall x :: x in keys <==> x in others {
      forall x
        ensures multiset(keys)[x] == multiset(others)[x]
      {
        DistinctMultiset(keys, x);
        DistinctMultiset(others, x);
      }
      assert multiset(keys) == multiset(others);
      LessOrder();
      SortCanonical(Less, keys, others);
    }
  }
}
