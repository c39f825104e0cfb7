/** The library sorts that the sources call, as one insertion sort with its laws. */
module Sorting {

  function Insert<T>(before: (T, T) -> bool, x: T, s: seq<T>): (r: seq<T>)
    ensures multiset(r) == multiset(s) + multiset{x}
  {
    if s == [] || !before(s[0], x) then [x] + s
    else
      assert s == [s[0]] + s[1..];
      [s[0]] + Insert(before, x, s[1..])
  }

  function SortBy<T>(before: (T, T) -> bool, s: seq<T>): (r: seq<T>)
    ensures multiset(r) == multiset(s)
  {
    if s == [] then []
    else
      assert s == [s[0]] + s[1..];
      Insert(before, s[0], SortBy(before, s[1..]))
  }

  ghost predicate Ordered<T>(before: (T, T) -> bool, s: seq<T>) {
    forall i, j | 0 <= i < j < |s| :: !before(s[j], s[i])
  }

  /** A strict order in which elements that come in neither order may be tied. */
  ghost predicate WeakOrder<T(!new)>(before: (T, T) -> bool) {
    && (forall a, b :: before(a, b) ==> !before(b, a))
    && (forall a, b, c :: !before(a, b) && !before(b, c) ==> !before(a, c))
  }

  ghost predicate TotalOrder<T(!new)>(before: (T, T) -> bool) {
    WeakOrder(before) && forall a, b :: before(a, b) || a == b || before(b, a)
  }

  predicate Distinct<T(==)>(s: seq<T>) {
    forall i, j | 0 <= i < j < |s| :: s[i] != s[j]
  }

  lemma Repeated<T>(s: seq<T>, i: nat, j: nat)
    requires i < j < |s| && s[i] == s[j]
    ensures multiset(s)[s[i]] >= 2
  {
    assert s == s[..j] + s[j..];
    assert s[i] in s[..j] && s[j] in s[j..];
    assert s[i] in multiset(s[..j]) && s[j] in multiset(s[j..]);
  }

  lemma MembersKept<T>(s: seq<T>, r: seq<T>)
    requires multiset(r) == multiset(s)
    ensures |r| == |s| && forall x :: x in r <==> x in s
  {
    assert |multiset(r)| == |multiset(s)|;
    assert forall x :: x in r <==> x in multiset(r);
    assert forall x :: x in s <==> x in multiset(s);
  }

  lemma {:induction false} InsertOrdered<T(!new)>(before: (T, T) -> bool, x: T, s: seq<T>)
    requires WeakOrder(before) && Ordered(before, s)
    ensures Ordered(before, Insert(before, x, s))
  {
    if s != [] && before(s[0], x) {
      var rest := Insert(before, x, s[1..]);
      InsertOrdered(before, x, s[1..]);
      forall j | 0 <= j < |rest|
        ensures !before(rest[j], s[0])
      {
        assert rest[j] in multiset(rest);
        if rest[j] != x {
          var i :| 0 <= i < |s[1..]| && s[1..][i] == rest[j];
          assert s[i + 1] == rest[j];
        }
      }
    } else {
      forall j | 0 <= j < |s|
        ensures !before(s[j], x)
      {
        assert !before(s[j], s[0]) && !before(s[0], x);
      }
    }
  }

  lemma {:induction false} SortOrdered<T(!new)>(before: (T, T) -> bool, s: seq<T>)
    requires WeakOrder(before)
    ensures Ordered(before, SortBy(before, s))
  {
    if s != [] {
      SortOrdered(before, s[1..]);
      InsertOrdered(before, s[0], SortBy(before, s[1..]));
    }
  }

  lemma TailMultiset<T>(s: seq<T>)
    requires s != []
    ensures multiset(s[1..]) == multiset(s) - multiset{s[0]}
  {
    assert s == [s[0]] + s[1..];
  }

  /** Under a total order there is one ordered listing of a multiset. */
  lemma {:induction false} OrderedUnique<T(!new)>(before: (T, T) -> bool, s: seq<T>, t: seq<T>)
    requires TotalOrder(before) && Ordered(before, s) && Ordered(before, t) && multiset(s) == multiset(t)
    ensures s == t
  {
    MembersKept(s, t);
    if s != [] {
      FirstIsLeast(before, s, t[0]);
      FirstIsLeast(before, t, s[0]);
      assert s[0] == t[0];
      TailMultiset(s);
      TailMultiset(t);
      OrderedUnique(before, s[1..], t[1..]);
    }
  }

  lemma FirstIsLeast<T(!new)>(before: (T, T) -> bool, s: seq<T>, x: T)
    requires WeakOrder(before) && Ordered(before, s) && x in s
    ensures !before(x, s[0])
  {
    var i :| 0 <= i < |s| && s[i] == x;
  }

  /** The result of a sort does not depend on the order of its input. */
  lemma SortCanonical<T(!new)>(before: (T, T) -> bool, s: seq<T>, t: seq<T>)
    requires TotalOrder(before) && multiset(s) == multiset(t)
    ensures SortBy(before, s) == SortBy(before, t)
  {
    SortOrdered(before, s);
    SortOrdered(before, t);
    OrderedUnique(before, SortBy(before, s), SortBy(before, t));
  }
}
