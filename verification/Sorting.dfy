/** Stable sorting by a total preorder, as the runtime's `sorted` does it. */
module Sorting {
  ghost predicate IsTotalPreorder<T(!new)>(leq: (T, T) -> bool) {
    && (forall x, y :: leq(x, y) || leq(y, x))
    && (forall x, y, z :: leq(x, y) && leq(y, z) ==> leq(x, z))
  }

  predicate IsSorted<T>(leq: (T, T) -> bool, s: seq<T>) {
    forall i: nat, j: nat :: i < j < |s| ==> leq(s[i], s[j])
  }

  /** Puts `x` after every element it does not precede. */
  function Insert<T>(leq: (T, T) -> bool, s: seq<T>, x: T): seq<T> {
    if s == [] then [x]
    else
      var last := s[|s| - 1];
      if leq(last, x) then s + [x] else Insert(leq, s[..|s| - 1], x) + [last]
  }

  function Sort<T>(leq: (T, T) -> bool, s: seq<T>): seq<T> {
    if s == [] then [] else Insert(leq, Sort(leq, s[..|s| - 1]), s[|s| - 1])
  }

  function Filter<T>(keep: T -> bool, s: seq<T>): seq<T> {
    if s == [] then []
    else Filter(keep, s[..|s| - 1]) + if keep(s[|s| - 1]) then [s[|s| - 1]] else []
  }

  lemma {:induction false} InsertKeepsElements<T>(leq: (T, T) -> bool, s: seq<T>, x: T)
    ensures multiset(Insert(leq, s, x)) == multiset(s) + multiset{x}
  {
    if s != [] {
      InsertKeepsElements(leq, s[..|s| - 1], x);
      assert s == s[..|s| - 1] + [s[|s| - 1]];
    }
  }

  lemma {:induction false} SortKeepsElements<T>(leq: (T, T) -> bool, s: seq<T>)
    ensures multiset(Sort(leq, s)) == multiset(s)
    ensures |Sort(leq, s)| == |s|
  {
    if s != [] {
      SortKeepsElements(leq, s[..|s| - 1]);
      InsertKeepsElements(leq, Sort(leq, s[..|s| - 1]), s[|s| - 1]);
      assert s == s[..|s| - 1] + [s[|s| - 1]];
    }
    assert |multiset(Sort(leq, s))| == |multiset(s)|;
  }

  lemma {:induction false} InsertKeepsOrder<T(!new)>(leq: (T, T) -> bool, s: seq<T>, x: T)
    requires IsTotalPreorder(leq) && IsSorted(leq, s)
    ensures IsSorted(leq, Insert(leq, s, x))
  {
    if s != [] {
      var last := s[|s| - 1];
      var init := s[..|s| - 1];
      if !leq(last, x) {
        InsertKeepsOrder(leq, init, x);
        InsertKeepsElements(leq, init, x);
        var r := Insert(leq, init, x);
        forall i: nat | i < |r| ensures leq(r[i], last) {
          assert r[i] in multiset(r);
          assert r[i] in init || r[i] == x;
        }
      } else {
        forall i: nat | i < |s| ensures leq(s[i], x) {
          assert i < |s| - 1 ==> leq(s[i], last);
        }
      }
    }
  }

  lemma {:induction false} SortOrders<T(!new)>(leq: (T, T) -> bool, s: seq<T>)
    requires IsTotalPreorder(leq)
    ensures IsSorted(leq, Sort(leq, s))
  {
    if s != [] {
      SortOrders(leq, s[..|s| - 1]);
      InsertKeepsOrder(leq, Sort(leq, s[..|s| - 1]), s[|s| - 1]);
    }
  }

  /** All elements that pass the filter tie with one another. */
  ghost predicate AreTied<T(!new)>(leq: (T, T) -> bool, keep: T -> bool) {
    forall x, y :: keep(x) && keep(y) ==> leq(x, y)
  }

  lemma {:induction false} InsertIsStable<T(!new)>(leq: (T, T) -> bool, keep: T -> bool, s: seq<T>, x: T)
    requires AreTied(leq, keep)
    ensures Filter(keep, Insert(leq, s, x)) == Filter(keep, s) + if keep(x) then [x] else []
  {
    if s != [] {
      var last := s[|s| - 1];
      var init := s[..|s| - 1];
      if leq(last, x) {
        assert (s + [x])[..|s|] == s;
      } else {
        InsertIsStable(leq, keep, init, x);
        var r := Insert(leq, init, x);
        assert (r + [last])[..|r|] == r;
        assert !(keep(x) && keep(last));
      }
    }
  }

  /** Elements that tie keep their order. */
  lemma {:induction false} SortIsStable<T(!new)>(leq: (T, T) -> bool, keep: T -> bool, s: seq<T>)
    requires AreTied(leq, keep)
    ensures Filter(keep, Sort(leq, s)) == Filter(keep, s)
  {
    if s != [] {
      SortIsStable(leq, keep, s[..|s| - 1]);
      InsertIsStable(leq, keep, Sort(leq, s[..|s| - 1]), s[|s| - 1]);
    }
  }

  lemma {:induction false} FilterMembers<T>(keep: T -> bool, s: seq<T>)
    ensures forall x :: x in Filter(keep, s) <==> x in s && keep(x)
  {
    if s != [] {
      FilterMembers(keep, s[..|s| - 1]);
      assert s == s[..|s| - 1] + [s[|s| - 1]];
    }
  }

  function Head<T>(s: seq<T>, limit: nat): seq<T> {
    if limit < |s| then s[..limit] else s
  }

  /** Whatever `behind` is past the head, nothing in the head comes after it. */
  ghost predicate IsAhead<T(!new)>(leq: (T, T) -> bool, ahead: seq<T>, behind: seq<T>) {
    forall x, y :: x in ahead && y in behind ==> leq(x, y)
  }

  lemma HeadIsBest<T(!new)>(leq: (T, T) -> bool, s: seq<T>, limit: nat) returns (rest: seq<T>)
    requires IsTotalPreorder(leq)
    ensures multiset(Head(Sort(leq, s), limit) + rest) == multiset(s)
    ensures rest == [] || |Head(Sort(leq, s), limit)| == limit
    ensures IsSorted(leq, Head(Sort(leq, s), limit)) && IsAhead(leq, Head(Sort(leq, s), limit), rest)
  {
    var sorted := Sort(leq, s);
    SortOrders(leq, s);
    SortKeepsElements(leq, s);
    var head := Head(sorted, limit);
    rest := sorted[|head|..];
    assert sorted == head + rest;
    forall x, y | x in head && y in rest ensures leq(x, y) {
      var i: nat :| i < |head| && head[i] == x;
      var j: nat :| j < |rest| && rest[j] == y;
      assert sorted[i] == x && sorted[|head| + j] == y;
    }
  }
}
