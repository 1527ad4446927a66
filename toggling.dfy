/**
 * The list toggle shared by the sidebar's submenu state and the
 * multi-select: add an item that is absent at the end, or drop every
 * occurrence of an item that is present, keeping the rest in order.
 */
module Toggling {

  /** Submenu titles and option values are strings. */
  type Item = string

  /** `a` is `b` with some elements left out, the rest in their order. */
  predicate IsSubsequence(a: seq<Item>, b: seq<Item>) {
    if a == [] then true
    else if b == [] then false
    else if a[0] == b[0] then IsSubsequence(a[1..], b[1..])
    else IsSubsequence(a, b[1..])
  }

  predicate NoDuplicates(xs: seq<Item>) {
    forall i, j :: 0 <= i < j < |xs| ==> xs[i] != xs[j]
  }

  /** The list filtered by `item !== x`. */
  function Without(xs: seq<Item>, x: Item): (r: seq<Item>)
    ensures x !in r
    ensures forall y :: y != x ==> (y in r <==> y in xs)
    ensures |r| <= |xs|
  {
    if xs == [] then []
    else if xs[0] == x then Without(xs[1..], x)
    else [xs[0]] + Without(xs[1..], x)
  }

  /** Filtering drops exactly the occurrences of `x`: every other item keeps its count. */
  lemma {:induction false} WithoutCounts(xs: seq<Item>, x: Item)
    ensures multiset(Without(xs, x)) == multiset(xs)[x := 0]
  {
    if xs != [] {
      WithoutCounts(xs[1..], x);
      assert xs == [xs[0]] + xs[1..];
    }
  }

  /** Filtering keeps the remaining items in their original order. */
  lemma {:induction false} WithoutKeepsOrder(xs: seq<Item>, x: Item)
    ensures IsSubsequence(Without(xs, x), xs)
  {
    if xs != [] {
      WithoutKeepsOrder(xs[1..], x);
      if xs[0] != x {
        assert Without(xs, x)[1..] == Without(xs[1..], x);
      } else {
        SubsequenceOfTail(Without(xs[1..], x), xs);
      }
    }
  }

  /** A subsequence of the tail is a subsequence of the whole. */
  lemma {:induction false} SubsequenceOfTail(a: seq<Item>, b: seq<Item>)
    requires b != [] && IsSubsequence(a, b[1..])
    ensures IsSubsequence(a, b)
    decreases |a| + |b|
  {
    if a != [] && a[0] == b[0] {
      DropHead(a, b[1..]);
    }
  }

  /** Dropping the first element of a subsequence leaves a subsequence. */
  lemma {:induction false} DropHead(a: seq<Item>, c: seq<Item>)
    requires a != [] && IsSubsequence(a, c)
    ensures IsSubsequence(a[1..], c)
    decreases |a| + |c|
  {
    if a[0] == c[0] {
      SubsequenceOfTail(a[1..], c);
    } else {
      DropHead(a, c[1..]);
      SubsequenceOfTail(a[1..], c);
    }
  }

  /** Filtering out an absent item changes nothing. */
  lemma {:induction false} WithoutAbsent(xs: seq<Item>, x: Item)
    requires x !in xs
    ensures Without(xs, x) == xs
  {
    if xs != [] {
      WithoutAbsent(xs[1..], x);
      assert xs == [xs[0]] + xs[1..];
    }
  }

  /** Appending `x` and then filtering it out gives back the original, when `x` was absent. */
  lemma {:induction false} WithoutAppended(xs: seq<Item>, x: Item)
    requires x !in xs
    ensures Without(xs + [x], x) == xs
  {
    if xs == [] {
      assert Without([x], x) == Without([x][1..], x);
    } else {
      assert (xs + [x])[1..] == xs[1..] + [x];
      WithoutAppended(xs[1..], x);
      assert xs == [xs[0]] + xs[1..];
    }
  }

  /** Filtering never introduces a duplicate. */
  lemma {:induction false} WithoutNoDuplicates(xs: seq<Item>, x: Item)
    requires NoDuplicates(xs)
    ensures NoDuplicates(Without(xs, x))
  {
    if xs != [] {
      TailNoDuplicates(xs);
      WithoutNoDuplicates(xs[1..], x);
      if xs[0] != x {
        assert Without(xs, x) == [xs[0]] + Without(xs[1..], x);
        ConsNoDuplicates(xs[0], Without(xs[1..], x));
      }
    }
  }

  /** The tail of a list without duplicates has none, and lacks the head. */
  lemma TailNoDuplicates(xs: seq<Item>)
    requires xs != [] && NoDuplicates(xs)
    ensures NoDuplicates(xs[1..]) && xs[0] !in xs[1..]
  {
    forall i, j | 0 <= i < j < |xs[1..]| ensures xs[1..][i] != xs[1..][j] {
      assert xs[1..][i] == xs[i + 1] && xs[1..][j] == xs[j + 1];
    }
    forall j | 0 <= j < |xs[1..]| ensures xs[1..][j] != xs[0] {
      assert xs[1..][j] == xs[j + 1];
    }
  }

  /** Putting an absent item in front of a list without duplicates keeps it so. */
  lemma ConsNoDuplicates(a: Item, r: seq<Item>)
    requires a !in r && NoDuplicates(r)
    ensures NoDuplicates([a] + r)
  {
    var ar := [a] + r;
    forall i, j | 0 <= i < j < |ar| ensures ar[i] != ar[j] {
      assert ar[j] == r[j - 1];
      if i > 0 {
        assert ar[i] == r[i - 1];
      }
    }
  }

  /**
   * The toggle: drop every occurrence of a present item, or append an
   * absent one. Either way the item's membership flips and every other
   * item's membership stays as it was.
   */
  function Toggle(xs: seq<Item>, x: Item): (r: seq<Item>)
    ensures x in r <==> x !in xs
    ensures forall y :: y != x ==> (y in r <==> y in xs)
    ensures x !in xs ==> r == xs + [x]
    ensures x in xs ==> r == Without(xs, x) && |r| < |xs|
  {
    if x in xs then
      WithoutCounts(xs, x);
      assert |multiset(Without(xs, x))| < |multiset(xs)|;
      Without(xs, x)
    else xs + [x]
  }

  /** Toggling an absent item twice gives back the original list. */
  lemma ToggleTwiceAbsent(xs: seq<Item>, x: Item)
    requires x !in xs
    ensures Toggle(Toggle(xs, x), x) == xs
  {
    WithoutAppended(xs, x);
  }

  /** Toggling a present item twice moves it, once, to the end. */
  lemma ToggleTwicePresent(xs: seq<Item>, x: Item)
    requires x in xs
    ensures Toggle(Toggle(xs, x), x) == Without(xs, x) + [x]
  {
  }

  /** A list without duplicates has none after a toggle. */
  lemma ToggleNoDuplicates(xs: seq<Item>, x: Item)
    requires NoDuplicates(xs)
    ensures NoDuplicates(Toggle(xs, x))
  {
    if x in xs {
      WithoutNoDuplicates(xs, x);
    }
  }

  /**
   * Removing a present item keeps every other item, with its count and in
   * its order.
   */
  lemma ToggleRemovesAll(xs: seq<Item>, x: Item)
    requires x in xs
    ensures multiset(Toggle(xs, x)) == multiset(xs)[x := 0]
    ensures IsSubsequence(Toggle(xs, x), xs)
  {
    WithoutCounts(xs, x);
    WithoutKeepsOrder(xs, x);
  }
}
