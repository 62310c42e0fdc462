/**
 * JavaScript's `Set<string>`, as far as the table component uses it: `add`
 * keeps the first insertion of each element, and iteration visits the
 * elements in insertion order. The class keeps that order in `items`; the
 * functions below give its abstract behaviour, and the lemmas what a
 * sequence of `add` calls builds.
 */
module OrderedSets {

  predicate Distinct<T(==)>(s: seq<T>)
  {
    forall i, j :: 0 <= i < j < |s| ==> s[i] != s[j]
  }

  /** `set.add(x)` on the set's insertion order. */
  function SetAdd<T(==)>(items: seq<T>, x: T): seq<T>
  {
    if x in items then items else items + [x]
  }

  /** The insertion order after adding every element of `xs`, left to right. */
  function AddAll<T(==)>(items: seq<T>, xs: seq<T>): seq<T>
  {
    if xs == [] then items else SetAdd(AddAll(items, xs[..|xs| - 1]), xs[|xs| - 1])
  }

  /** The position of the first occurrence of `x` in `s`. */
  function FirstIndex<T(==)>(s: seq<T>, x: T): (r: nat)
    requires x in s
    ensures r < |s| && s[r] == x && x !in s[..r]
  {
    if s[0] == x then 0
    else
      var r' := FirstIndex(s[1..], x);
      assert s[..r' + 1] == [s[0]] + s[1..][..r'];
      r' + 1
  }

  /** `d` lists its elements in the order in which they first occur in `xs`. */
  predicate OrderedByFirstSeen<T(==)>(d: seq<T>, xs: seq<T>)
  {
    forall p, q :: 0 <= p < q < |d| && d[p] in xs && d[q] in xs ==>
      FirstIndex(xs, d[p]) < FirstIndex(xs, d[q])
  }

  lemma FirstIndexUnique<T>(s: seq<T>, x: T, r: nat)
    requires r < |s| && s[r] == x && x !in s[..r]
    ensures FirstIndex(s, x) == r
  {
  }

  /** Appending to a sequence does not move the first occurrence of an element already there. */
  lemma FirstIndexAppend<T>(s: seq<T>, x: T, y: T)
    requires y in s
    ensures FirstIndex(s + [x], y) == FirstIndex(s, y)
  {
    var f := FirstIndex(s, y);
    assert (s + [x])[..f] == s[..f];
    FirstIndexUnique(s + [x], y, f);
  }

  /** Adding never removes, reorders or duplicates: what was there stays a prefix, and no element repeats. */
  lemma {:induction false} AddAllDistinct<T>(items: seq<T>, xs: seq<T>)
    requires Distinct(items)
    ensures Distinct(AddAll(items, xs))
    ensures items <= AddAll(items, xs)
  {
    if xs != [] {
      AddAllDistinct(items, xs[..|xs| - 1]);
    }
  }

  /** The insertion order holds exactly the elements that were there or were added. */
  lemma {:induction false} AddAllElements<T>(items: seq<T>, xs: seq<T>, y: T)
    ensures y in AddAll(items, xs) <==> y in items || y in xs
  {
    if xs != [] {
      var init := xs[..|xs| - 1];
      AddAllElements(items, init, y);
      assert xs == init + [xs[|xs| - 1]];
    }
  }

  /** Starting from an empty set, adding `xs` orders the elements by their first occurrence in `xs`. */
  lemma {:induction false} AddAllFirstSeen<T>(xs: seq<T>)
    ensures OrderedByFirstSeen(AddAll([], xs), xs)
  {
    if xs != [] {
      var init, x := xs[..|xs| - 1], xs[|xs| - 1];
      assert xs == init + [x];
      var d' := AddAll([], init);
      var d := AddAll([], xs);
      AddAllFirstSeen(init);
      forall y | y in d'
        ensures y in init && FirstIndex(xs, y) == FirstIndex(init, y)
      {
        AddAllElements([], init, y);
        FirstIndexAppend(init, x, y);
      }
      if x !in d' {
        AddAllElements([], init, x);
        FirstIndexUnique(xs, x, |init|);
        assert d == d' + [x];
      }
    }
  }

  /** Names `s[0]`, so that an empty-or-not case split needs no branch on an impossible case. */
  lemma HeadIn<T>(s: seq<T>)
    ensures s != [] ==> s[0] in s
  {
  }

  /** Of two sequences with the same elements, both ordered by first occurrence, the last elements agree. */
  lemma FirstSeenLast<T>(d1: seq<T>, d2: seq<T>, xs: seq<T>)
    requires d1 != [] && d2 != []
    requires forall y :: y in d1 <==> y in d2
    requires forall y :: y in d1 ==> y in xs
    requires OrderedByFirstSeen(d1, xs) && OrderedByFirstSeen(d2, xs)
    ensures d1[|d1| - 1] == d2[|d2| - 1]
  {
    var x, y := d1[|d1| - 1], d2[|d2| - 1];
    // Every element of a sequence ordered by first occurrence is seen no later than its last one.
    assert y in d1 && FirstIndex(xs, y) <= FirstIndex(xs, x);
    assert x in d2 && FirstIndex(xs, x) <= FirstIndex(xs, y);
    assert xs[FirstIndex(xs, x)] == x && xs[FirstIndex(xs, y)] == y;
  }

  /** Removing the last element of a duplicate-free sequence removes exactly that element. */
  lemma DropLast<T>(d: seq<T>, z: T)
    requires Distinct(d) && d != []
    ensures Distinct(d[..|d| - 1])
    ensures z in d[..|d| - 1] <==> z in d && z != d[|d| - 1]
  {
    if z in d[..|d| - 1] {
      var i :| 0 <= i < |d| - 1 && d[..|d| - 1][i] == z;
      assert d[i] == z;
    }
    if z in d && z != d[|d| - 1] {
      var i :| 0 <= i < |d| && d[i] == z;
      assert d[..|d| - 1][i] == z;
    }
  }

  lemma OrderedPrefix<T>(d: seq<T>, xs: seq<T>, n: nat)
    requires n <= |d| && OrderedByFirstSeen(d, xs)
    ensures OrderedByFirstSeen(d[..n], xs)
  {
    forall p, q | 0 <= p < q < n && d[..n][p] in xs && d[..n][q] in xs
      ensures FirstIndex(xs, d[..n][p]) < FirstIndex(xs, d[..n][q])
    {
      assert d[..n][p] == d[p] && d[..n][q] == d[q];
    }
  }

  /**
   * Two duplicate-free sequences with the same elements, both ordered by
   * first occurrence in `xs`, are equal: the first-seen order determines
   * the sequence.
   */
  lemma {:induction false} FirstSeenOrderUnique<T>(d1: seq<T>, d2: seq<T>, xs: seq<T>)
    requires Distinct(d1) && Distinct(d2)
    requires forall y :: y in d1 <==> y in d2
    requires forall y :: y in d1 ==> y in xs
    requires OrderedByFirstSeen(d1, xs) && OrderedByFirstSeen(d2, xs)
    ensures d1 == d2
    decreases |d1| + |d2|
  {
    if d1 == [] || d2 == [] {
      HeadIn(d1);
      HeadIn(d2);
    } else {
      var n1, n2 := |d1| - 1, |d2| - 1;
      FirstSeenLast(d1, d2, xs);
      var x := d1[n1];
      var e1, e2 := d1[..n1], d2[..n2];
      assert d1 == e1 + [x] && d2 == e2 + [x];
      forall z
        ensures z in e1 <==> z in e2
      {
        DropLast(d1, z);
        DropLast(d2, z);
      }
      DropLast(d1, x);
      DropLast(d2, x);
      OrderedPrefix(d1, xs, n1);
      OrderedPrefix(d2, xs, n2);
      FirstSeenOrderUnique(e1, e2, xs);
    }
  }

  /** An insertion-ordered set of strings, JavaScript's `new Set<string>()`. */
  class InsertionOrderedSet {
    /** The elements in insertion order, as `for...of` visits them. */
    var items: seq<string>
    /** Membership, as the runtime's hash table answers it. */
    var members: set<string>

    ghost predicate Valid()
      reads this
    {
      Distinct(items) && forall k :: k in members <==> k in items
    }

    constructor ()
      ensures Valid() && items == []
    {
      items := [];
      members := {};
    }

    /** `set.add(k)`: appends `k` unless it is already an element. */
    method Add(k: string)
      requires Valid()
      modifies this
      ensures Valid()
      ensures items == SetAdd(old(items), k)
    {
      if k !in members {
        items := items + [k];
        members := members + {k};
      }
    }
  }
}
