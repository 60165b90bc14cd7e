/**
 * Order-preserving removal of duplicates, as `[...new Set(xs)]` does it:
 * a JavaScript `Set` keeps its members in insertion order, and adding a
 * value that is already a member changes nothing.
 */
module InsertionOrder {

  /** No value occurs twice. */
  predicate NoDuplicates<T(==)>(s: seq<T>)
  {
    forall i, j :: 0 <= i < j < |s| ==> s[i] != s[j]
  }

  /** `Set.prototype.add` on the members of an insertion-ordered set. */
  function Add<T(==)>(members: seq<T>, x: T): seq<T>
  {
    if x in members then members else members + [x]
  }

  /** Add the elements of `s` one by one, from the first to the last, to an empty set. */
  function Dedupe<T(==)>(s: seq<T>): seq<T>
    decreases |s|
  {
    if s == [] then [] else Add(Dedupe(s[..|s| - 1]), s[|s| - 1])
  }

  /** One insertion step: a value is appended only when it was not seen before. */
  lemma DedupeSnoc<T>(s: seq<T>, y: T)
    ensures Dedupe(s + [y]) == Add(Dedupe(s), y)
  {
    var t := s + [y];
    assert t[..|t| - 1] == s;
  }

  /** The result holds exactly the values of the input. */
  lemma {:induction false} DedupeMembers<T>(s: seq<T>, x: T)
    ensures x in Dedupe(s) <==> x in s
    decreases |s|
  {
    if s != [] {
      var init, y := s[..|s| - 1], s[|s| - 1];
      assert s == init + [y];
      DedupeMembers(init, x);
      DedupeMembers(init, y);
    }
  }

  /** The result has no duplicates. */
  lemma {:induction false} DedupeDistinct<T>(s: seq<T>)
    ensures NoDuplicates(Dedupe(s))
    decreases |s|
  {
    if s != [] {
      DedupeDistinct(s[..|s| - 1]);
    }
  }

  /** The result is no longer than the input. */
  lemma {:induction false} DedupeLength<T>(s: seq<T>)
    ensures |Dedupe(s)| <= |s|
    decreases |s|
  {
    if s != [] {
      DedupeLength(s[..|s| - 1]);
    }
  }

  /** The first value of the input is the first value of the result. */
  lemma {:induction false} DedupeHead<T>(s: seq<T>)
    requires s != []
    ensures Dedupe(s) != [] && Dedupe(s)[0] == s[0]
    decreases |s|
  {
    var init := s[..|s| - 1];
    if init != [] {
      DedupeHead(init);
    }
  }

  /** The position of the first occurrence of `x` in `s`. */
  function FirstIndex<T(==)>(s: seq<T>, x: T): (i: nat)
    requires x in s
    ensures i < |s| && s[i] == x && x !in s[..i]
    decreases |s|
  {
    var init := s[..|s| - 1];
    if x in init then
      var i := FirstIndex(init, x);
      assert s[..i] == init[..i];
      i
    else
      assert s[..|s| - 1] == init;
      |s| - 1
  }

  /** Appending to a sequence does not move the first occurrence of a value already in it. */
  lemma FirstIndexAppend<T>(a: seq<T>, b: seq<T>, x: T)
    requires x in a
    ensures FirstIndex(a + b, x) == FirstIndex(a, x)
  {
    var j := FirstIndex(a, x);
    assert (a + b)[j] == x;
    assert (a + b)[..j] == a[..j];
  }

  /** A value that is not in `a` first occurs in `a + b` past all of `a`. */
  lemma FirstIndexPastPrefix<T>(a: seq<T>, b: seq<T>, x: T)
    requires x !in a && x in a + b
    ensures FirstIndex(a + b, x) >= |a|
  {
    assert (a + b)[..|a|] == a;
  }

  /**
   * The result keeps first-occurrence order: its elements are sorted by the
   * position at which each was first seen in the input.
   */
  lemma {:induction false} DedupeKeepsFirstOccurrenceOrder<T>(s: seq<T>, i: nat, j: nat)
    requires i < j < |Dedupe(s)|
    ensures Dedupe(s)[i] in s && Dedupe(s)[j] in s
    ensures FirstIndex(s, Dedupe(s)[i]) < FirstIndex(s, Dedupe(s)[j])
    decreases |s|
  {
    var init, x := s[..|s| - 1], s[|s| - 1];
    assert s == init + [x];
    var d := Dedupe(init);
    var r := Dedupe(s);
    assert r[i] in d;
    DedupeMembers(init, r[i]);
    DedupeMembers(s, r[i]);
    DedupeMembers(s, r[j]);
    FirstIndexAppend(init, [x], r[i]);
    if j < |d| {
      DedupeKeepsFirstOccurrenceOrder(init, i, j);
      DedupeMembers(init, r[j]);
      FirstIndexAppend(init, [x], r[j]);
    } else {
      DedupeMembers(init, x);
      assert r[j] == x && x !in init;
    }
  }

  /** Values that first occur earlier come out earlier. */
  lemma EarlierFirstOccurrenceComesFirst<T>(s: seq<T>, i: nat, j: nat)
    requires i < |Dedupe(s)| && j < |Dedupe(s)|
    requires Dedupe(s)[i] in s && Dedupe(s)[j] in s
    requires FirstIndex(s, Dedupe(s)[i]) < FirstIndex(s, Dedupe(s)[j])
    ensures i < j
  {
    if j < i {
      DedupeKeepsFirstOccurrenceOrder(s, j, i);
    }
  }

  /** Deduplicating a prefix gives a prefix of the deduplicated whole. */
  lemma {:induction false} DedupePrefix<T>(a: seq<T>, b: seq<T>)
    ensures Dedupe(a) <= Dedupe(a + b)
    decreases |b|
  {
    if b == [] {
      assert a + b == a;
    } else {
      var init, y := b[..|b| - 1], b[|b| - 1];
      assert a + b == (a + init) + [y];
      DedupePrefix(a, init);
      DedupeSnoc(a + init, y);
    }
  }

  /** Appending values that are new and distinct appends exactly them. */
  lemma {:induction false} DedupeAppendFresh<T>(a: seq<T>, b: seq<T>)
    requires NoDuplicates(b)
    requires forall k :: 0 <= k < |b| ==> b[k] !in a
    ensures Dedupe(a + b) == Dedupe(a) + b
    decreases |b|
  {
    if b == [] {
      assert a + b == a;
    } else {
      var init, y := b[..|b| - 1], b[|b| - 1];
      assert b == init + [y];
      assert a + b == (a + init) + [y];
      assert y !in a + init;
      DedupeAppendFresh(a, init);
      DedupeMembers(a + init, y);
      DedupeSnoc(a + init, y);
    }
  }

  /** A value already seen contributes nothing when it is seen again. */
  lemma {:induction false} DedupeSkipsRepeat<T>(a: seq<T>, x: T, c: seq<T>)
    requires x in a
    ensures Dedupe(a + [x] + c) == Dedupe(a + c)
    decreases |c|
  {
    if c == [] {
      assert a + [x] + c == a + [x];
      assert a + c == a;
      DedupeSnoc(a, x);
      DedupeMembers(a, x);
    } else {
      var init, y := c[..|c| - 1], c[|c| - 1];
      assert a + [x] + c == (a + [x] + init) + [y];
      assert a + c == (a + init) + [y];
      DedupeSkipsRepeat(a, x, init);
      DedupeSnoc(a + [x] + init, y);
      DedupeSnoc(a + init, y);
      DedupeMembers(a + [x] + init, y);
      DedupeMembers(a + init, y);
      assert y in a + [x] + init <==> y in a + init;
    }
  }
}
