/** The stable sort behind LINQ `OrderBy` and `OrderByDescending` over a
    key of type `int`, `Select`, and the enumeration of a set of rows. */
module Seqs {

  /* ---------- stable sort by an integer key ---------- */

  ghost predicate SortedBy<T(!new)>(s: seq<T>, key: T -> int)
  {
    forall i, j :: 0 <= i < j < |s| ==> key(s[i]) <= key(s[j])
  }

  /** Inserts `x` after every element whose key is not greater, which keeps
      equal keys in arrival order. */
  function InsertBy<T(!new)>(x: T, s: seq<T>, key: T -> int): (r: seq<T>)
    requires SortedBy(s, key)
    ensures SortedBy(r, key)
    ensures multiset(r) == multiset(s) + multiset{x}
  {
    if s == [] then [x]
    else if key(x) < key(s[0]) then
      SortedHeadLeast(s, key);
      [x] + s
    else
      var t := InsertBy(x, s[1..], key);
      assert s == [s[0]] + s[1..];
      SortedHeadLeast(s, key);
      assert forall y :: y in t ==> key(s[0]) <= key(y) by {
        forall y | y in t ensures key(s[0]) <= key(y) {
          assert y in multiset(t);
          assert y in multiset(s[1..]) || y == x;
        }
      }
      [s[0]] + t
  }

  /** The head of a sorted sequence has the least key. */
  lemma SortedHeadLeast<T(!new)>(s: seq<T>, key: T -> int)
    requires s != [] && SortedBy(s, key)
    ensures forall y :: y in s ==> key(s[0]) <= key(y)
  {
    forall y | y in s ensures key(s[0]) <= key(y) {
      var m :| 0 <= m < |s| && s[m] == y;
      if m > 0 { assert key(s[0]) <= key(s[m]); }
    }
  }

  /** LINQ `OrderBy(key)`: a stable insertion sort. */
  function SortBy<T(!new)>(s: seq<T>, key: T -> int): (r: seq<T>)
    ensures SortedBy(r, key)
    ensures multiset(r) == multiset(s)
    decreases |s|
  {
    if s == [] then []
    else
      assert s == s[..|s| - 1] + [s[|s| - 1]];
      InsertBy(s[|s| - 1], SortBy(s[..|s| - 1], key), key)
  }

  /** A permutation keeps length and membership. */
  lemma PermutationFacts<T(!new)>(a: seq<T>, b: seq<T>)
    requires multiset(a) == multiset(b)
    ensures |a| == |b|
    ensures forall x :: x in a <==> x in b
  {
    assert |a| == |multiset(a)| == |multiset(b)| == |b|;
    forall x ensures x in a <==> x in b {
      assert x in a <==> x in multiset(a);
      assert x in b <==> x in multiset(b);
    }
  }

  /** `s.Select(f)`. */
  function Map<A, B>(s: seq<A>, f: A -> B): (r: seq<B>)
    ensures |r| == |s| && forall i :: 0 <= i < |s| ==> r[i] == f(s[i])
  {
    seq(|s|, i requires 0 <= i < |s| => f(s[i]))
  }

  /* ---------- listing a set ---------- */

  /** The elements of a sequence, as a set. */
  function Elems<T(!new)>(s: seq<T>): (r: set<T>)
    ensures forall x :: x in r <==> x in s
  {
    set x | x in s
  }

  /** The image of a set under `f`. */
  function MapSet<A(!new), B>(s: set<A>, f: A -> B): set<B>
  {
    set x | x in s :: f(x)
  }

  lemma MapSetAdd<A(!new), B>(s: set<A>, x: A, f: A -> B)
    ensures MapSet(s + {x}, f) == MapSet(s, f) + {f(x)}
  {
    forall y | y in MapSet(s + {x}, f) ensures y in MapSet(s, f) + {f(x)} {
      var z :| z in s + {x} && f(z) == y;
      if z != x { assert z in s; }
    }
  }

  lemma ElemsSnoc<T(!new)>(s: seq<T>, x: T)
    ensures Elems(s + [x]) == Elems(s) + {x}
  {
  }

  /** `s` lists the elements of `elems`, each exactly once. */
  ghost predicate Lists<T(!new)>(s: seq<T>, elems: set<T>)
  {
    (forall x :: x in s <==> x in elems)
    && forall i, j :: 0 <= i < j < |s| ==> s[i] != s[j]
  }

  /** Enumerates a finite set, each element once, in an unspecified order: the
      order in which a query without `OrderBy` returns its rows. */
  method ListOf<T(==, !new)>(elems: set<T>) returns (r: seq<T>)
    ensures Lists(r, elems) && |r| == |elems|
  {
    r := [];
    var rest := elems;
    while rest != {}
      invariant rest <= elems
      invariant forall x :: x in r <==> x in elems && x !in rest
      invariant forall i, j :: 0 <= i < j < |r| ==> r[i] != r[j]
      invariant |r| + |rest| == |elems|
      decreases |rest|
    {
      var x :| x in rest;
      r := r + [x];
      rest := rest - {x};
    }
  }

  /** A list of a set, without repeats, is as long as the set is large. */
  lemma {:induction false} ListsSize<T(!new)>(s: seq<T>, elems: set<T>)
    requires Lists(s, elems)
    ensures |s| == |elems|
    decreases |s|
  {
    if s != [] {
      var x := s[|s| - 1];
      var init := s[..|s| - 1];
      forall y ensures y in init <==> y in elems - {x} {
        if y in init {
          var m :| 0 <= m < |init| && init[m] == y;
          assert s[m] == y && m < |s| - 1;
        }
        if y in elems - {x} {
          assert y in s;
          var m :| 0 <= m < |s| && s[m] == y;
          assert m != |s| - 1;
          assert init[m] == y;
        }
      }
      ListsSize(init, elems - {x});
    }
  }

  /* ---------- sequences without repeats ---------- */

  /** An element that occurs at two positions is counted at least twice. */
  lemma RepeatCountsTwice<T>(s: seq<T>, i: nat, j: nat)
    requires i < j < |s| && s[i] == s[j]
    ensures multiset(s)[s[i]] >= 2
  {
    assert s == s[..j] + s[j..];
    assert s[i] in s[..j];
    assert s[j] in s[j..];
  }

  /** In a sequence without repeats every value is counted at most once. */
  lemma {:induction false} DistinctCountsOnce<T>(s: seq<T>, x: T)
    requires forall i, j :: 0 <= i < j < |s| ==> s[i] != s[j]
    ensures multiset(s)[x] <= 1
    decreases |s|
  {
    if s != [] {
      assert s == [s[0]] + s[1..];
      DistinctCountsOnce(s[1..], x);
      if s[0] == x {
        assert x !in s[1..];
      }
    }
  }

  /** A reordering of a sequence without repeats has no repeats either. */
  lemma PermutationDistinct<T>(a: seq<T>, b: seq<T>)
    requires multiset(a) == multiset(b)
    requires forall i, j :: 0 <= i < j < |b| ==> b[i] != b[j]
    ensures forall i, j :: 0 <= i < j < |a| ==> a[i] != a[j]
  {
    forall i, j | 0 <= i < j < |a| ensures a[i] != a[j] {
      if a[i] == a[j] {
        RepeatCountsTwice(a, i, j);
        DistinctCountsOnce(b, a[i]);
        assert false;
      }
    }
  }
}
