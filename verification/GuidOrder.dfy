/**
 * Sorting and deduplicating GUID vectors, and why the sorted forms decide the
 * all-pairs and set conditions they stand for.
 */
module GuidOrder {
  import opened Base

  /** The order of byte arrays: lexicographic. */
  predicate Leq(a: bytes, b: bytes) {
    if a == [] then true
    else if b == [] then false
    else if a[0] != b[0] then a[0] < b[0]
    else Leq(a[1..], b[1..])
  }

  lemma {:induction false} LeqTotal(a: bytes, b: bytes)
    ensures Leq(a, b) || Leq(b, a)
  {
    if a != [] && b != [] && a[0] == b[0] {
      LeqTotal(a[1..], b[1..]);
    }
  }

  lemma {:induction false} LeqAntisymmetric(a: bytes, b: bytes)
    requires Leq(a, b) && Leq(b, a)
    ensures a == b
  {
    if a != [] {
      LeqAntisymmetric(a[1..], b[1..]);
      assert a == [a[0]] + a[1..] == [b[0]] + b[1..] == b;
    }
  }

  lemma {:induction false} LeqTransitive(a: bytes, b: bytes, c: bytes)
    requires Leq(a, b) && Leq(b, c)
    ensures Leq(a, c)
  {
    if a != [] && a[0] == b[0] == c[0] {
      LeqTransitive(a[1..], b[1..], c[1..]);
    }
  }

  lemma {:induction false} ZerosLeast(z: bytes, b: bytes)
    requires |z| <= |b| && forall i :: 0 <= i < |z| ==> z[i] == 0
    ensures Leq(z, b)
  {
    if z != [] {
      ZerosLeast(z[1..], b[1..]);
    }
  }

  ghost predicate Sorted(s: seq<Guid>) {
    forall i, j :: 0 <= i < j < |s| ==> Leq(s[i], s[j])
  }

  ghost predicate Distinct<T>(s: seq<T>) {
    forall i, j :: 0 <= i < j < |s| ==> s[i] != s[j]
  }

  ghost predicate SameElements<T>(s: seq<T>, t: seq<T>) {
    multiset(s) == multiset(t)
  }

  function Insert(x: Guid, s: seq<Guid>): (t: seq<Guid>)
    ensures multiset(t) == multiset(s) + multiset{x}
    ensures Sorted(s) ==> Sorted(t)
  {
    if s == [] then [x]
    else if Leq(x, s[0]) then
      assert Sorted(s) ==> Sorted([x] + s) by {
        if Sorted(s) {
          forall j | 1 <= j < |s| ensures Leq(x, s[j]) { LeqTransitive(x, s[0], s[j]); }
        }
      }
      [x] + s
    else
      var rest := Insert(x, s[1..]);
      InsertStep(x, s, rest);
      [s[0]] + rest
  }

  lemma InsertStep(x: Guid, s: seq<Guid>, rest: seq<Guid>)
    requires s != [] && !Leq(x, s[0])
    requires multiset(rest) == multiset(s[1..]) + multiset{x}
    requires Sorted(s[1..]) ==> Sorted(rest)
    ensures multiset([s[0]] + rest) == multiset(s) + multiset{x}
    ensures Sorted(s) ==> Sorted([s[0]] + rest)
  {
    assert s == [s[0]] + s[1..];
    if Sorted(s) {
      forall j | 0 <= j < |rest| ensures Leq(s[0], rest[j]) {
        assert rest[j] in multiset(rest);
        LeqTotal(x, s[0]);
      }
    }
  }

  /** `sort_unstable`: the one ascending arrangement of the elements. */
  function Sort(s: seq<Guid>): (t: seq<Guid>)
    ensures Sorted(t) && SameElements(s, t)
  {
    if s == [] then []
    else
      assert s == [s[0]] + s[1..];
      Insert(s[0], Sort(s[1..]))
  }

  lemma SameMembers<T>(xs: seq<T>, ys: seq<T>)
    requires SameElements(xs, ys)
    ensures forall x :: x in xs <==> x in ys
  {
    forall x ensures x in xs <==> x in ys {
      assert x in xs <==> x in multiset(xs);
      assert x in ys <==> x in multiset(ys);
    }
  }

  /** Every sorting algorithm gives the result of `Sort`: equal GUIDs are indistinguishable. */
  lemma {:induction false} SortedUnique(s: seq<Guid>, t: seq<Guid>)
    requires Sorted(s) && Sorted(t) && SameElements(s, t)
    ensures s == t
  {
    assert |s| == |multiset(s)| == |multiset(t)| == |t|;
    if s != [] {
      HeadLeast(s, t);
      HeadLeast(t, s);
      LeqAntisymmetric(s[0], t[0]);
      SameTails(s, t);
      SortedUnique(s[1..], t[1..]);
      assert s == [s[0]] + s[1..] && t == [t[0]] + t[1..];
    }
  }

  lemma SameTails(s: seq<Guid>, t: seq<Guid>)
    requires s != [] && t != [] && s[0] == t[0] && SameElements(s, t)
    ensures SameElements(s[1..], t[1..])
  {
    assert s == [s[0]] + s[1..] && t == [t[0]] + t[1..];
    assert multiset(s[1..]) == multiset(s) - multiset{s[0]};
  }

  lemma HeadLeast(s: seq<Guid>, t: seq<Guid>)
    requires s != [] && t != [] && Sorted(s) && SameElements(s, t)
    ensures Leq(s[0], t[0])
  {
    SameMembers(s, t);
    assert t[0] in s;
    LeqTotal(s[0], s[0]);
  }

  lemma {:induction false} DistinctByMultiset(s: seq<Guid>)
    ensures Distinct(s) <==> forall x :: multiset(s)[x] <= 1
  {
    if s != [] {
      var m, tail := multiset(s), multiset(s[1..]);
      DistinctByMultiset(s[1..]);
      assert s == [s[0]] + s[1..];
      assert m == multiset{s[0]} + tail;
      if Distinct(s) {
        assert s[0] !in s[1..];
        assert tail[s[0]] == 0;
      }
      if forall x :: m[x] <= 1 {
        assert forall x :: tail[x] <= m[x];
        assert m[s[0]] == 1 + tail[s[0]];
        assert s[0] !in multiset(s[1..]);
        forall j | 0 < j < |s| ensures s[0] != s[j] {
          assert s[j] == s[1..][j - 1] && s[j] in multiset(s[1..]);
        }
        forall i, j | 0 <= i < j < |s| ensures s[i] != s[j] {
          if i > 0 { assert s[1..][i - 1] != s[1..][j - 1]; }
        }
      }
    }
  }

  lemma DistinctPermutes(s: seq<Guid>, t: seq<Guid>)
    requires SameElements(s, t)
    ensures Distinct(s) <==> Distinct(t)
  {
    DistinctByMultiset(s);
    DistinctByMultiset(t);
  }

  predicate EqualNeighbours(s: seq<Guid>) {
    exists i :: 0 <= i < |s| - 1 && s[i] == s[i + 1]
  }

  lemma NeighboursDecideDistinct(s: seq<Guid>)
    requires Sorted(s)
    ensures EqualNeighbours(s) <==> !Distinct(s)
  {
    if !Distinct(s) {
      var i, j :| 0 <= i < j < |s| && s[i] == s[j];
      if s[i] != s[i + 1] {
        LeqAntisymmetric(s[i], s[i + 1]);
      }
    }
  }

  lemma NilFirst(s: seq<Guid>)
    requires Sorted(s)
    ensures NIL in s <==> s != [] && s[0] == NIL
  {
    if NIL in s {
      ZerosLeast(NIL, s[0]);
      if s[0] != NIL { LeqAntisymmetric(NIL, s[0]); }
    }
  }

  /**
   * The sort-then-adjacent check is the all-pairs condition on the unsorted input:
   * no nil GUID, and no two equal elements at any distance.
   */
  lemma SortedCheckIsAllPairs(s: seq<Guid>)
    ensures var t := Sort(s);
            !(t != [] && t[0] == NIL) && !EqualNeighbours(t)
            <==> NIL !in s && Distinct(s)
  {
    var t := Sort(s);
    NilFirst(t);
    NeighboursDecideDistinct(t);
    DistinctPermutes(s, t);
    SameMembers(s, t);
  }

  /** `Vec::dedup`: drop every element equal to the one before it. */
  function Dedup(s: seq<Guid>): (t: seq<Guid>)
    ensures forall x :: x in t <==> x in s
    ensures s != [] ==> t != [] && t[0] == s[0]
  {
    if |s| <= 1 then s
    else
      assert s == [s[0]] + s[1..];
      if s[0] == s[1] then Dedup(s[1..]) else [s[0]] + Dedup(s[1..])
  }

  lemma {:induction false} DedupStrict(s: seq<Guid>)
    requires Sorted(s)
    ensures Sorted(Dedup(s)) && Distinct(Dedup(s))
  {
    if |s| > 1 {
      var d := Dedup(s[1..]);
      DedupStrict(s[1..]);
      if s[0] != s[1] {
        forall j | 0 <= j < |d| ensures Leq(s[0], d[j]) && s[0] != d[j] {
          assert d[j] in s[1..];
          if s[0] == d[j] { LeqAntisymmetric(s[0], s[1]); }
        }
      }
    }
  }

  /** Two strictly ascending vectors are equal exactly when they hold the same set. */
  lemma {:induction false} StrictUnique(s: seq<Guid>, t: seq<Guid>)
    requires Sorted(s) && Distinct(s) && Sorted(t) && Distinct(t)
    requires forall x :: x in s <==> x in t
    ensures s == t
  {
    assert (s == [] <==> t == []) by {
      assert s != [] ==> s[0] in s;
      assert t != [] ==> t[0] in t;
    }
    if s != [] {
      LeqTotal(s[0], s[0]); LeqTotal(t[0], t[0]);
      assert s[0] in t && t[0] in s;
      LeqAntisymmetric(s[0], t[0]);
      assert s == [s[0]] + s[1..] && t == [t[0]] + t[1..];
      assert forall x :: x in s[1..] <==> x in s && x != s[0];
      assert forall x :: x in t[1..] <==> x in t && x != t[0];
      StrictUnique(s[1..], t[1..]);
    }
  }

  /**
   * Vector equality after the two in-place passes decides set equality: with the
   * required GUIDs distinct, `Sort(required) == Dedup(Sort(found))` iff the two
   * hold the same set.
   */
  lemma VectorEqualityIsSetEquality(required: seq<Guid>, found: seq<Guid>)
    requires Distinct(required)
    ensures Sort(required) == Dedup(Sort(found)) <==> (forall x :: x in required <==> x in found)
  {
    var r, f := Sort(required), Sort(found);
    DistinctPermutes(required, r);
    DedupStrict(f);
    SameMembers(required, r);
    SameMembers(found, f);
    if forall x :: x in required <==> x in found {
      StrictUnique(r, Dedup(f));
    }
  }
}
