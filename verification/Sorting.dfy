/** Lists: Python's stable sort by an order on elements, and what the other modules need of sequences. */
module Sorting {
  function Insert<T>(le: (T, T) -> bool, x: T, s: seq<T>): seq<T> {
    if s == [] then [x] else if le(x, s[0]) then [x] + s else [s[0]] + Insert(le, x, s[1..])
  }

  function Sort<T>(le: (T, T) -> bool, s: seq<T>): seq<T> {
    if s == [] then [] else Insert(le, s[0], Sort(le, s[1..]))
  }

  lemma {:induction false} InsertKeeps<T>(le: (T, T) -> bool, x: T, s: seq<T>)
    ensures multiset(Insert(le, x, s)) == multiset{x} + multiset(s)
    ensures |Insert(le, x, s)| == |s| + 1
  {
    if s != [] {
      assert s == [s[0]] + s[1..];
      InsertKeeps(le, x, s[1..]);
    }
  }

  lemma {:induction false} SortKeeps<T>(le: (T, T) -> bool, s: seq<T>)
    ensures multiset(Sort(le, s)) == multiset(s) && |Sort(le, s)| == |s|
  {
    if s != [] {
      assert s == [s[0]] + s[1..];
      SortKeeps(le, s[1..]);
      InsertKeeps(le, s[0], Sort(le, s[1..]));
    }
  }

  ghost predicate Ordered<T>(le: (T, T) -> bool, s: seq<T>) {
    forall i, j :: 0 <= i < j < |s| ==> le(s[i], s[j])
  }

  ghost predicate TotalOrder<T(!new)>(le: (T, T) -> bool) {
    && (forall a, b :: le(a, b) || le(b, a))
    && (forall a, b, c :: le(a, b) && le(b, c) ==> le(a, c))
  }

  lemma SameElements<T>(le: (T, T) -> bool, s: seq<T>)
    ensures forall x :: x in Sort(le, s) <==> x in s
  {
    SortKeeps(le, s);
    forall x ensures x in Sort(le, s) <==> x in s {
      assert x in Sort(le, s) <==> x in multiset(Sort(le, s));
    }
  }

  lemma {:induction false} InsertOrders<T(!new)>(le: (T, T) -> bool, x: T, s: seq<T>)
    requires TotalOrder(le) && Ordered(le, s)
    ensures Ordered(le, Insert(le, x, s))
  {
    if s == [] || le(x, s[0]) {
    } else {
      InsertOrders(le, x, s[1..]);
      var t := Insert(le, x, s[1..]);
      InsertKeeps(le, x, s[1..]);
      forall j | 0 <= j < |t| ensures le(s[0], t[j]) {
        assert t[j] in multiset(t);
        assert t[j] == x || t[j] in s[1..];
      }
    }
  }

  lemma {:induction false} SortOrders<T(!new)>(le: (T, T) -> bool, s: seq<T>)
    requires TotalOrder(le)
    ensures Ordered(le, Sort(le, s))
  {
    if s != [] {
      SortOrders(le, s[1..]);
      InsertOrders(le, s[0], Sort(le, s[1..]));
    }
  }

  lemma {:induction false} SortOfOrdered<T>(le: (T, T) -> bool, s: seq<T>)
    requires Ordered(le, s)
    ensures Sort(le, s) == s
  {
    if s != [] {
      SortOfOrdered(le, s[1..]);
    }
  }

  ghost predicate Distinct<T>(s: seq<T>) {
    forall i, j :: 0 <= i < j < |s| ==> s[i] != s[j]
  }

  lemma DistinctCounts<T>(s: seq<T>)
    ensures Distinct(s) <==> forall x :: multiset(s)[x] <= 1
  {
    if s != [] {
      var last := |s| - 1;
      assert s == s[..last] + [s[last]];
      DistinctCounts(s[..last]);
      assert s[last] in s[..last] <==> multiset(s[..last])[s[last]] > 0;
      if Distinct(s) {
        assert s[last] !in s[..last];
      } else if Distinct(s[..last]) {
        assert s[last] in s[..last];
        assert multiset(s)[s[last]] > 1;
      } else {
        var x :| multiset(s[..last])[x] > 1;
        assert multiset(s)[x] > 1;
      }
    }
  }

  lemma SortKeepsDistinct<T>(le: (T, T) -> bool, s: seq<T>)
    requires Distinct(s)
    ensures Distinct(Sort(le, s))
  {
    SortKeeps(le, s);
    DistinctCounts(s);
    DistinctCounts(Sort(le, s));
  }

  // ---- One element each, one list each ----

  function Each<A, B>(f: A -> B, s: seq<A>): seq<B> {
    if s == [] then [] else Each(f, s[..|s| - 1]) + [f(s[|s| - 1])]
  }

  lemma {:induction false} EachAt<A, B>(f: A -> B, s: seq<A>)
    ensures |Each(f, s)| == |s| && forall k :: 0 <= k < |s| ==> Each(f, s)[k] == f(s[k])
  {
    if s != [] {
      EachAt(f, s[..|s| - 1]);
    }
  }

  // at(0) + at(1) + ... + at(count - 1)
  function Joined<T>(at: nat -> seq<T>, count: nat): seq<T> {
    if count == 0 then [] else Joined(at, count - 1) + at(count - 1)
  }
}
