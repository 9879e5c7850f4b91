/** Levelled headings in document order and the tree they stand for: nearest
    earlier entry of smaller level, first later entry of equal or smaller level. */
module Levels {

  /** The last position before j whose level is smaller, or -1. */
  function ParentFrom(levels: seq<nat>, level: nat, j: nat): (p: int)
    requires j <= |levels|
    ensures -1 <= p < j
  {
    if j == 0 then -1
    else if levels[j - 1] < level then j - 1
    else ParentFrom(levels, level, j - 1)
  }

  /** The nearest earlier entry of smaller level, or -1 for a root. */
  function Parent(levels: seq<nat>, i: nat): (p: int)
    requires i < |levels|
    ensures -1 <= p < i
  {
    ParentFrom(levels, levels[i], i)
  }

  /** The first position from j on whose level is not larger, or the length. */
  function NextFrom(levels: seq<nat>, level: nat, j: nat): (n: nat)
    requires j <= |levels|
    ensures j <= n <= |levels|
    decreases |levels| - j
  {
    if j == |levels| || levels[j] <= level then j
    else NextFrom(levels, level, j + 1)
  }

  /** The first later entry of equal or smaller level, or the length; the virtual
      root -1 has none. */
  function Next(levels: seq<nat>, i: int): (n: nat)
    requires -1 <= i < |levels|
    ensures i < n <= |levels|
  {
    if i == -1 then |levels| else NextFrom(levels, levels[i], i + 1)
  }

  lemma {:induction false} ParentFromFacts(levels: seq<nat>, level: nat, j: nat)
    requires j <= |levels|
    ensures var p := ParentFrom(levels, level, j);
            && (p >= 0 ==> levels[p] < level)
            && forall m :: p < m < j ==> levels[m] >= level
  {
    if j != 0 && levels[j - 1] >= level { ParentFromFacts(levels, level, j - 1); }
  }

  lemma {:induction false} NextFromFacts(levels: seq<nat>, level: nat, j: nat)
    requires j <= |levels|
    ensures var n := NextFrom(levels, level, j);
            && (n < |levels| ==> levels[n] <= level)
            && forall m :: j <= m < n ==> levels[m] > level
    decreases |levels| - j
  {
    if j < |levels| && levels[j] > level { NextFromFacts(levels, level, j + 1); }
  }

  /** The parent is the nearest earlier entry of smaller level. */
  lemma ParentFacts(levels: seq<nat>, i: nat)
    requires i < |levels|
    ensures var p := Parent(levels, i);
            && (p >= 0 ==> levels[p] < levels[i])
            && forall m :: p < m < i ==> levels[m] >= levels[i]
  {
    ParentFromFacts(levels, levels[i], i);
  }

  /** The successor is the first later entry of equal or smaller level. */
  lemma NextFacts(levels: seq<nat>, i: nat)
    requires i < |levels|
    ensures var n := Next(levels, i);
            && (n < |levels| ==> levels[n] <= levels[i])
            && forall m :: i < m < n ==> levels[m] > levels[i]
  {
    NextFromFacts(levels, levels[i], i + 1);
  }

  lemma ParentFromIs(levels: seq<nat>, level: nat, j: nat, p: int)
    requires -1 <= p < j <= |levels|
    requires p >= 0 ==> levels[p] < level
    requires forall m :: p < m < j ==> levels[m] >= level
    ensures ParentFrom(levels, level, j) == p
  {
    ParentFromFacts(levels, level, j);
    var q := ParentFrom(levels, level, j);
    assert q >= 0 ==> levels[q] < level;
    assert p >= 0 ==> levels[p] < level;
  }

  lemma ParentIs(levels: seq<nat>, i: nat, p: int)
    requires -1 <= p < i < |levels|
    requires p >= 0 ==> levels[p] < levels[i]
    requires forall m :: p < m < i ==> levels[m] >= levels[i]
    ensures Parent(levels, i) == p
  {
    ParentFromIs(levels, levels[i], i, p);
  }

  // ---------------------------------------------------------------- descendants

  /** a is a parent of d, or of an ancestor of d; -1 is everyone's ancestor. */
  ghost predicate Descends(levels: seq<nat>, d: nat, a: int)
    requires d < |levels|
  {
    Parent(levels, d) == a || (Parent(levels, d) >= 0 && Descends(levels, Parent(levels, d), a))
  }

  /** An entry's descendants are exactly the entries strictly between it and the
      first later entry of equal or smaller level. */
  lemma {:induction false} DescendantsAreInterval(levels: seq<nat>, d: nat, a: int)
    requires -1 <= a < |levels| && d < |levels|
    ensures Descends(levels, d, a) <==> a < d < Next(levels, a)
    decreases d
  {
    hide ParentFrom, NextFrom;
    var p := Parent(levels, d);
    ParentFacts(levels, d);
    if p >= 0 { DescendantsAreInterval(levels, p, a); }
    if a >= 0 {
      var n := Next(levels, a);
      NextFacts(levels, a);
      if a < d < n {
        assert levels[d] > levels[a];
        assert p >= a;
      }
      if p == a || (p >= 0 && a < p < n) {
        assert levels[p] < levels[d];
        assert n < |levels| ==> levels[n] <= levels[a];
      }
    }
  }

  // ---------------------------------------------------------------- children

  /** The entries before n whose parent is i, in order. */
  function Kids(levels: seq<nat>, i: int, n: nat): seq<nat>
    requires n <= |levels|
  {
    if n == 0 then []
    else Kids(levels, i, n - 1) + if Parent(levels, n - 1) == i then [n - 1] else []
  }

  /** The heads of consecutive subtrees that fill the interval. */
  function Siblings(levels: seq<nat>, lo: nat, hi: nat): seq<nat>
    requires hi <= |levels|
    decreases hi - lo
  {
    if lo >= hi then [] else [lo] + Siblings(levels, Next(levels, lo), hi)
  }

  /** An entry is a child of the entry whose subtree's sibling list it heads. */
  predicate HeadsBlock(levels: seq<nat>, i: int, lo: nat)
    requires -1 <= i < |levels|
  {
    lo == Next(levels, i) || (i < lo < Next(levels, i) && Parent(levels, lo) == i)
  }

  lemma FirstHead(levels: seq<nat>, i: int)
    requires -1 <= i < |levels|
    ensures HeadsBlock(levels, i, i + 1)
  {
    if i + 1 < Next(levels, i) {
      if i >= 0 { NextFacts(levels, i); }
      ParentIs(levels, i + 1, i);
    }
  }

  /** The entry after a child's subtree is the next child, or the end of the block. */
  lemma NextHead(levels: seq<nat>, i: int, lo: nat)
    requires -1 <= i < |levels| && HeadsBlock(levels, i, lo) && lo < Next(levels, i)
    ensures Next(levels, lo) <= Next(levels, i) && HeadsBlock(levels, i, Next(levels, lo))
  {
    hide ParentFrom, NextFrom;
    var m, end := Next(levels, lo), Next(levels, i);
    NextFacts(levels, lo);
    ParentFacts(levels, lo);
    if i >= 0 { NextFacts(levels, i); }
    assert i >= 0 && end < |levels| ==> levels[end] <= levels[i] < levels[lo];
    if m < end { ParentIs(levels, m, i); }
  }

  lemma {:induction false} NoKidsBetween(levels: seq<nat>, i: int, lo: nat, hi: nat)
    requires lo <= hi <= |levels|
    requires forall j :: lo <= j < hi ==> Parent(levels, j) != i
    ensures Kids(levels, i, hi) == Kids(levels, i, lo)
    decreases hi - lo
  {
    hide Parent;
    if lo < hi { NoKidsBetween(levels, i, lo, hi - 1); }
  }

  /** Inside a child's subtree no entry is the parent's child. */
  lemma KidsPastSubtree(levels: seq<nat>, i: int, lo: nat)
    requires -1 <= i < lo < |levels| && Parent(levels, lo) == i
    ensures Kids(levels, i, Next(levels, lo)) == Kids(levels, i, lo) + [lo]
  {
    hide ParentFrom, NextFrom;
    var m := Next(levels, lo);
    NextFacts(levels, lo);
    forall j | lo < j < m
      ensures Parent(levels, j) != i
    {
      ParentFacts(levels, j);
      assert levels[lo] < levels[j];
    }
    NoKidsBetween(levels, i, lo + 1, m);
  }

  lemma {:induction false} KidsThenSiblings(levels: seq<nat>, i: int, lo: nat)
    requires -1 <= i < |levels| && HeadsBlock(levels, i, lo)
    ensures Kids(levels, i, lo) + Siblings(levels, lo, Next(levels, i)) == Kids(levels, i, Next(levels, i))
    decreases Next(levels, i) - lo
  {
    hide Parent, NextFrom;
    var end := Next(levels, i);
    if lo < end {
      NextHead(levels, i, lo);
      KidsPastSubtree(levels, i, lo);
      KidsThenSiblings(levels, i, Next(levels, lo));
      assert Siblings(levels, lo, end) == [lo] + Siblings(levels, Next(levels, lo), end);
    }
  }

  lemma NoKidsYet(levels: seq<nat>, i: int)
    requires -1 <= i < |levels|
    ensures Kids(levels, i, i + 1) == []
  {
    NoKidsBetween(levels, i, 0, i + 1);
  }

  /** The children collected left to right are the heads of consecutive subtrees
      that fill the parent's interval. */
  lemma KidsAreSiblings(levels: seq<nat>, i: int)
    requires -1 <= i < |levels|
    ensures Kids(levels, i, |levels|) == Siblings(levels, i + 1, Next(levels, i))
  {
    hide ParentFrom, NextFrom, Siblings;
    FirstHead(levels, i);
    KidsThenSiblings(levels, i, i + 1);
    NoKidsYet(levels, i);
    var end := Next(levels, i);
    if i >= 0 {
      NextFacts(levels, i);
      forall j | end <= j < |levels|
        ensures Parent(levels, j) != i
      {
        ParentFacts(levels, j);
        assert levels[end] <= levels[i];
      }
    }
    NoKidsBetween(levels, i, end, |levels|);
  }

  // ---------------------------------------------------------------- the two stacks

  /** The innermost open position, or -1. */
  function Top(open: seq<nat>): int {
    if open == [] then -1 else open[|open| - 1]
  }

  /** The stack position below m, or -1. */
  ghost predicate ParentBelow(levels: seq<nat>, open: seq<nat>, m: nat)
    requires m < |open|
  {
    open[m] < |levels| && Parent(levels, open[m]) == Top(open[..m])
  }

  /** The positions on the left-to-right stack are an entry, its parent, its
      grandparent and so on down to a root. */
  ghost predicate AncestorChain(levels: seq<nat>, open: seq<nat>) {
    forall m: nat :: m < |open| ==> ParentBelow(levels, open, m)
  }

  lemma PopChain(levels: seq<nat>, open: seq<nat>)
    requires open != [] && AncestorChain(levels, open)
    ensures var rest := open[..|open| - 1];
            && AncestorChain(levels, rest) && Top(open) < |levels|
            && Parent(levels, Top(open)) == Top(rest)
  {
    var rest, n := open[..|open| - 1], |open| - 1;
    assert ParentBelow(levels, open, n);
    forall m: nat | m < |rest|
      ensures ParentBelow(levels, rest, m)
    {
      assert ParentBelow(levels, open, m);
      assert rest[..m] == open[..m];
    }
  }

  lemma PushChain(levels: seq<nat>, open: seq<nat>, k: nat)
    requires k < |levels| && AncestorChain(levels, open) && Parent(levels, k) == Top(open)
    ensures AncestorChain(levels, open + [k])
  {
    var more := open + [k];
    forall m: nat | m < |more|
      ensures ParentBelow(levels, more, m)
    {
      assert more[..m] == open[..m];
      if m < |open| { assert ParentBelow(levels, open, m); } else { assert open[..m] == open; }
    }
  }

  /** Popping an entry that is not of smaller level loses no candidate parent. */
  lemma PopLeft(levels: seq<nat>, level: nat, t: nat)
    requires t < |levels| && levels[t] >= level
    ensures ParentFrom(levels, level, t + 1) == ParentFrom(levels, level, Parent(levels, t) + 1)
  {
    var p := Parent(levels, t);
    var q := ParentFrom(levels, level, p + 1);
    ParentFacts(levels, t);
    ParentFromFacts(levels, level, p + 1);
    ParentFromIs(levels, level, t + 1, q);
  }

  /** The successor of the position at m is the position below it, if any. */
  ghost predicate SuccessorBelow(levels: seq<nat>, open: seq<nat>, m: nat)
    requires m < |open|
  {
    open[m] < |levels| && Next(levels, open[m]) == TopOrEnd(levels, open[..m])
  }

  function TopOrEnd(levels: seq<nat>, open: seq<nat>): nat {
    if open == [] || open[|open| - 1] >= |levels| then |levels| else open[|open| - 1]
  }

  lemma ParentDef(levels: seq<nat>, k: nat)
    requires k < |levels|
    ensures Parent(levels, k) == ParentFrom(levels, levels[k], k)
  {
  }

  /** Once the innermost open entry has smaller level, it is the parent. */
  lemma FoundParent(levels: seq<nat>, level: nat, open: seq<nat>)
    requires Top(open) < |levels| && (open != [] ==> levels[Top(open)] < level)
    ensures ParentFrom(levels, level, Top(open) + 1) == Top(open)
  {
  }

  /** The positions on the right-to-left stack, each the first later entry of equal
      or smaller level of the one above it. */
  ghost predicate SuccessorChain(levels: seq<nat>, open: seq<nat>) {
    forall m: nat :: m < |open| ==> SuccessorBelow(levels, open, m)
  }

  lemma PopSuccessor(levels: seq<nat>, open: seq<nat>)
    requires open != [] && SuccessorChain(levels, open)
    ensures var rest, t := open[..|open| - 1], open[|open| - 1];
            && SuccessorChain(levels, rest) && t < |levels|
            && Next(levels, t) == TopOrEnd(levels, rest)
  {
    var rest, n := open[..|open| - 1], |open| - 1;
    assert SuccessorBelow(levels, open, n);
    forall m: nat | m < |rest|
      ensures SuccessorBelow(levels, rest, m)
    {
      assert SuccessorBelow(levels, open, m);
      assert rest[..m] == open[..m];
    }
  }

  lemma PushSuccessor(levels: seq<nat>, open: seq<nat>, k: nat)
    requires k < |levels| && SuccessorChain(levels, open) && Next(levels, k) == TopOrEnd(levels, open)
    ensures SuccessorChain(levels, open + [k])
  {
    var more := open + [k];
    forall m: nat | m < |more|
      ensures SuccessorBelow(levels, more, m)
    {
      assert more[..m] == open[..m];
      if m < |open| { assert SuccessorBelow(levels, open, m); } else { assert open[..m] == open; }
    }
  }

  /** Popping an entry of larger level loses no candidate successor. */
  lemma PopRight(levels: seq<nat>, level: nat, t: nat)
    requires t < |levels| && levels[t] > level
    ensures NextFrom(levels, level, t) == NextFrom(levels, level, Next(levels, t))
  {
    var n := Next(levels, t);
    var q := NextFrom(levels, level, n);
    NextFacts(levels, t);
    NextFromFacts(levels, level, n);
    NextFromIs(levels, level, t, q);
  }

  lemma NextFromIs(levels: seq<nat>, level: nat, j: nat, n: nat)
    requires j <= n <= |levels|
    requires n < |levels| ==> levels[n] <= level
    requires forall m :: j <= m < n ==> levels[m] > level
    ensures NextFrom(levels, level, j) == n
  {
    NextFromFacts(levels, level, j);
    var q := NextFrom(levels, level, j);
    assert q < |levels| ==> levels[q] <= level;
    assert n < |levels| ==> levels[n] <= level;
  }

  lemma NextDef(levels: seq<nat>, k: nat)
    requires k < |levels|
    ensures Next(levels, k) == NextFrom(levels, levels[k], k + 1)
  {
  }

  /** Once the top entry is not of larger level, it is the successor. */
  lemma FoundNext(levels: seq<nat>, level: nat, open: seq<nat>)
    requires open != [] ==> open[|open| - 1] < |levels| && levels[open[|open| - 1]] <= level
    ensures NextFrom(levels, level, TopOrEnd(levels, open)) == TopOrEnd(levels, open)
  {
  }
}
