/** Turning a flat levelled outline into a forest of section nodes with page ranges. */
module SectionForest {
  import opened Basics
  import opened Levels

  /** One outline entry, in document order. */
  datatype Entry = Entry(id: string, title: string, level: nat, start: int)

  /** What a finished node says about itself. */
  datatype Info = Info(id: string, parentId: string, title: string, level: nat,
                       pageStart: int, pageEnd: int, nextTitle: string)

  /** The value a node and its descendants stand for. */
  datatype Section = Section(info: Info, children: seq<Section>)

  class SectionNode {
    const nodeId: string
    const title: string
    const level: nat
    const pageStart: int
    var parentId: string
    var pageEnd: int
    var nextTitle: string
    var children: seq<SectionNode>
    ghost const at: nat  // position in document order

    constructor (entry: Entry, ghost at: nat)
      ensures this.at == at && Reflects(entry) && parentId == "" && children == []
    {
      nodeId, title, level, pageStart := entry.id, entry.title, entry.level, entry.start;
      parentId, pageEnd, nextTitle, children := "", entry.start, "", [];
      this.at := at;
    }

    predicate Reflects(entry: Entry) {
      nodeId == entry.id && title == entry.title && level == entry.level && pageStart == entry.start
    }

    function Describe(): Info
      reads this
    {
      Info(nodeId, parentId, title, level, pageStart, pageEnd, nextTitle)
    }
  }

  // ---------------------------------------------------------------- specification

  function LevelsOf(entries: seq<Entry>): (levels: seq<nat>)
    ensures |levels| == |entries|
    ensures forall i :: 0 <= i < |entries| ==> levels[i] == entries[i].level
  {
    seq(|entries|, i requires 0 <= i < |entries| => entries[i].level)
  }

  function ParentId(entries: seq<Entry>, i: nat): string
    requires i < |entries|
  {
    var p := Parent(LevelsOf(entries), i);
    if p < 0 then "" else entries[p].id
  }

  /** Start page used in arithmetic: a zero start counts as 1. */
  function StartOr1(start: int): int { if start == 0 then 1 else start }

  function PageEnd(entries: seq<Entry>, pageCount: nat, i: nat): int
    requires i < |entries|
  {
    var later := Next(LevelsOf(entries), i);
    if later < |entries| then Max(StartOr1(entries[i].start), StartOr1(entries[later].start) - 1)
    else if pageCount != 0 then pageCount
    else entries[i].start
  }

  function NextTitle(entries: seq<Entry>, i: nat): string
    requires i < |entries|
  {
    var later := Next(LevelsOf(entries), i);
    if later < |entries| && entries[later].start == entries[i].start then entries[later].title else ""
  }

  function NodeInfo(entries: seq<Entry>, pageCount: nat, i: nat): Info
    requires i < |entries|
  {
    var e := entries[i];
    Info(e.id, ParentId(entries, i), e.title, e.level, e.start, PageEnd(entries, pageCount, i), NextTitle(entries, i))
  }

  /** The trees whose roots head the consecutive subtrees of the interval. */
  function Forest(entries: seq<Entry>, pageCount: nat, lo: nat, hi: nat): seq<Section>
    requires hi <= |entries|
    decreases |entries| - lo
  {
    if lo >= hi then []
    else
      var next := Next(LevelsOf(entries), lo);
      [Section(NodeInfo(entries, pageCount, lo), Forest(entries, pageCount, lo + 1, next))]
      + Forest(entries, pageCount, next, hi)
  }

  /** The nodes are the entries' nodes at these positions. */
  ghost predicate AreAt(all: seq<SectionNode>, nodes: seq<SectionNode>, at: seq<nat>) {
    |nodes| == |at| && forall m :: 0 <= m < |at| ==> at[m] < |all| && nodes[m] == all[at[m]]
  }

  /** The nodes of the first entries, in document order. */
  ghost predicate InOrder(all: seq<SectionNode>, entries: seq<Entry>) {
    |all| <= |entries| && forall i :: 0 <= i < |all| ==> all[i].at == i && all[i].Reflects(entries[i])
  }

  ghost predicate Within(all: seq<SectionNode>, nodes: set<SectionNode>) {
    forall n :: n in all ==> n in nodes
  }

  /** The links of the nodes, as values. */
  datatype Links = Links(parentIds: seq<string>, lists: seq<seq<SectionNode>>)

  ghost predicate Holds(all: seq<SectionNode>, links: Links)
    reads all
  {
    && |links.parentIds| == |links.lists| == |all|
    && forall i :: 0 <= i < |all| ==> HasLinks(all[i], links, i)
  }

  ghost predicate HasLinks(node: SectionNode, links: Links, i: nat)
    requires i < |links.parentIds| && i < |links.lists|
    reads node
  {
    node.at == i && node.parentId == links.parentIds[i] && node.children == links.lists[i]
  }

  /** The links as the first pass leaves them after n entries: everyone's parent is
      the nearest earlier entry of smaller level, its children those that name it. */
  ghost predicate Linked(all: seq<SectionNode>, links: Links, entries: seq<Entry>) {
    && |all| == |links.parentIds| == |links.lists| <= |entries|
    && forall i :: 0 <= i < |all| ==> LinkedAt(all, links, entries, i)
  }

  ghost predicate LinkedAt(all: seq<SectionNode>, links: Links, entries: seq<Entry>, i: nat)
    requires |all| <= |entries| && i < |all| && i < |links.parentIds| && i < |links.lists|
  {
    links.parentIds[i] == ParentId(entries, i) && AreAt(all, links.lists[i], Kids(LevelsOf(entries), i, |all|))
  }

  /** What hanging one more node under position p, or as a root, does to the links. */
  function Hung(links: Links, p: int, parentId: string, node: SectionNode): Links
    requires p < |links.lists|
  {
    Links(links.parentIds + [parentId],
          (if p < 0 then links.lists else links.lists[p := links.lists[p] + [node]]) + [[]])
  }

  // ---------------------------------------------------------------- first pass

  lemma KidsStep(levels: seq<nat>, i: int, k: nat)
    requires k < |levels|
    ensures Kids(levels, i, k + 1) == if Parent(levels, k) == i then Kids(levels, i, k) + [k] else Kids(levels, i, k)
  {
  }

  lemma AreAtGrow(all: seq<SectionNode>, node: SectionNode, nodes: seq<SectionNode>, at: seq<nat>)
    requires AreAt(all, nodes, at)
    ensures AreAt(all + [node], nodes, at)
    ensures AreAt(all + [node], nodes + [node], at + [|all|])
  {
  }

  lemma AreAtEmpty(all: seq<SectionNode>, nodes: seq<SectionNode>, at: seq<nat>)
    requires AreAt(all, nodes, at)
    ensures nodes == [] <==> at == []
  {
  }

  lemma AreAtPop(all: seq<SectionNode>, nodes: seq<SectionNode>, at: seq<nat>)
    requires AreAt(all, nodes, at) && nodes != []
    ensures at != [] && AreAt(all, nodes[..|nodes| - 1], at[..|at| - 1])
    ensures Top(at) < |all| && nodes[|nodes| - 1] == all[Top(at)]
  {
  }

  /** A child list after one more entry: it gains the new node exactly when its owner
      is the new entry's parent. */
  lemma ListStep(all: seq<SectionNode>, added: SectionNode, entries: seq<Entry>, i: int, list: seq<SectionNode>)
    requires -1 <= i < |all| < |entries|
    requires AreAt(all, list, Kids(LevelsOf(entries), i, |all|))
    ensures AreAt(all + [added], if Parent(LevelsOf(entries), |all|) == i then list + [added] else list,
                  Kids(LevelsOf(entries), i, |all| + 1))
  {
    hide AreAt, Kids, Parent, LevelsOf;
    KidsStep(LevelsOf(entries), i, |all|);
    AreAtGrow(all, added, list, Kids(LevelsOf(entries), i, |all|));
  }

  lemma HungAt(links: Links, p: int, parentId: string, node: SectionNode, i: nat)
    requires p < |links.lists| && |links.parentIds| == |links.lists| && i <= |links.lists|
    ensures var hung := Hung(links, p, parentId, node);
            && |hung.parentIds| == |hung.lists| == |links.lists| + 1
            && hung.parentIds[i] == (if i < |links.lists| then links.parentIds[i] else parentId)
            && hung.lists[i] == if i == |links.lists| then []
                                else if i == p then links.lists[i] + [node]
                                else links.lists[i]
  {
  }

  lemma NothingAt(all: seq<SectionNode>)
    ensures AreAt(all, [], [])
  {
  }

  lemma LinkedIs(all: seq<SectionNode>, links: Links, entries: seq<Entry>)
    requires Linked(all, links, entries)
    ensures |all| == |links.parentIds| == |links.lists| <= |entries|
  {
  }

  lemma LinkedGives(all: seq<SectionNode>, links: Links, entries: seq<Entry>, i: nat)
    requires Linked(all, links, entries) && i < |all|
    ensures |all| == |links.parentIds| == |links.lists| <= |entries| && LinkedAt(all, links, entries, i)
  {
  }

  lemma LinkedStepAt(all: seq<SectionNode>, added: SectionNode, entries: seq<Entry>, links: Links, i: nat)
    requires |all| < |entries| && Linked(all, links, entries) && i <= |all|
    ensures var p := Parent(LevelsOf(entries), |all|);
            var hung := Hung(links, p, ParentId(entries, |all|), added);
            |hung.parentIds| == |hung.lists| == |all| + 1 && LinkedAt(all + [added], hung, entries, i)
  {
    var k, levels := |all|, LevelsOf(entries);
    hide AreAt, Kids, Parent, LevelsOf, ParentId, Hung, Linked;
    var p := Parent(levels, k);
    NoKidsYet(levels, k);
    NothingAt(all + [added]);
    LinkedIs(all, links, entries);
    HungAt(links, p, ParentId(entries, k), added, i);
    if i < k {
      LinkedGives(all, links, entries, i);
      ListStep(all, added, entries, i, links.lists[i]);
    }
  }

  lemma LinkedStep(all: seq<SectionNode>, added: SectionNode, entries: seq<Entry>, links: Links)
    requires |all| < |entries| && Linked(all, links, entries)
    ensures var p := Parent(LevelsOf(entries), |all|);
            Linked(all + [added], Hung(links, p, ParentId(entries, |all|), added), entries)
  {
    var hung := Hung(links, Parent(LevelsOf(entries), |all|), ParentId(entries, |all|), added);
    hide LinkedAt, Parent, LevelsOf, ParentId, Hung;
    LinkedStepAt(all, added, entries, links, |all|);
    forall i: nat | i < |all + [added]|
      ensures LinkedAt(all + [added], hung, entries, i)
    {
      LinkedStepAt(all, added, entries, links, i);
    }
  }

  lemma ParentIdIs(all: seq<SectionNode>, entries: seq<Entry>, parent: int)
    requires |all| < |entries| && InOrder(all, entries) && parent == Parent(LevelsOf(entries), |all|)
    ensures ParentId(entries, |all|) == if parent < 0 then "" else all[parent].nodeId
  {
  }

  /** The new node goes under the innermost open section, or becomes a root. */
  method Attach(node: SectionNode, stack: seq<SectionNode>, roots: seq<SectionNode>,
                ghost all: seq<SectionNode>, ghost nodes: set<SectionNode>, ghost links: Links, ghost p: int)
      returns (newRoots: seq<SectionNode>)
    requires Within(all, nodes) && Holds(all, links)
    requires node.at == |all| && node.parentId == "" && node.children == []
    requires if stack == [] then p == -1 else 0 <= p < |all| && stack[|stack| - 1] == all[p]
    modifies node, nodes
    ensures Holds(all + [node], Hung(links, p, if p < 0 then "" else all[p].nodeId, node))
    ensures newRoots == if p < 0 then roots + [node] else roots
  {
    ghost var hung := Hung(links, p, if p < 0 then "" else all[p].nodeId, node);
    assert p >= 0 ==> HasLinks(all[p], links, p);
    newRoots := roots;
    if stack != [] {
      var top := stack[|stack| - 1];
      node.parentId := top.nodeId;
      top.children := top.children + [node];
    } else {
      newRoots := roots + [node];
    }
    forall i: nat | i < |all|
      ensures HasLinks(all[i], hung, i)
    {
      assert old(HasLinks(all[i], links, i));
    }
    ghost var grown := all + [node];
    assert HasLinks(node, hung, |all|);
    hide HasLinks, Hung;
  }

  /** Pops every open section that is not of smaller level than the new entry. */
  method Unwind(stack: seq<SectionNode>, level: nat, ghost open: seq<nat>,
                ghost all: seq<SectionNode>, ghost entries: seq<Entry>)
      returns (rest: seq<SectionNode>, ghost restOpen: seq<nat>)
    requires |all| < |entries| && InOrder(all, entries) && level == entries[|all|].level
    requires AreAt(all, stack, open) && AncestorChain(LevelsOf(entries), open) && Top(open) == |all| - 1
    ensures AreAt(all, rest, restOpen) && AncestorChain(LevelsOf(entries), restOpen) && |rest| <= |stack|
    ensures Top(restOpen) == Parent(LevelsOf(entries), |all|)
    ensures if rest == [] then Top(restOpen) == -1
            else 0 <= Top(restOpen) < |all| && rest[|rest| - 1] == all[Top(restOpen)]
  {
    ghost var levels, k := LevelsOf(entries), |all|;
    rest, restOpen := stack, open;
    hide Parent, ParentFrom, AncestorChain, AreAt;
    assert Parent(levels, k) == ParentFrom(levels, level, k) by { ParentDef(levels, k); }
    while rest != [] && rest[|rest| - 1].level >= level
      invariant AreAt(all, rest, restOpen) && AncestorChain(levels, restOpen) && Top(restOpen) < k
      invariant Parent(levels, k) == ParentFrom(levels, level, Top(restOpen) + 1)
      invariant |rest| <= |stack|
      decreases |rest|
    {
      AreAtPop(all, rest, restOpen);
      PopChain(levels, restOpen);
      PopLeft(levels, level, Top(restOpen));
      rest, restOpen := rest[..|rest| - 1], restOpen[..|restOpen| - 1];
    }
    AreAtEmpty(all, rest, restOpen);
    if rest != [] { AreAtPop(all, rest, restOpen); }
    FoundParent(levels, level, restOpen);
  }

  /** The state between two entries: the nodes so far, the roots, and the open
      sections with their positions. */
  ghost predicate Between(all: seq<SectionNode>, nodes: set<SectionNode>, roots: seq<SectionNode>,
                          stack: seq<SectionNode>, open: seq<nat>, links: Links, entries: seq<Entry>)
    reads all
  {
    && |links.lists| == |all|
    && InOrder(all, entries) && Within(all, nodes) && Holds(all, links) && Linked(all, links, entries)
    && AreAt(all, roots, Kids(LevelsOf(entries), -1, |all|))
    && AreAt(all, stack, open) && AncestorChain(LevelsOf(entries), open) && Top(open) == |all| - 1
  }

  /** One entry of the loop. */
  method AddSection(entry: Entry, stack: seq<SectionNode>, roots: seq<SectionNode>, ghost open: seq<nat>,
                    ghost all: seq<SectionNode>, ghost nodes: set<SectionNode>, ghost links: Links,
                    ghost entries: seq<Entry>)
      returns (node: SectionNode, newStack: seq<SectionNode>, newRoots: seq<SectionNode>,
               ghost newOpen: seq<nat>, ghost newLinks: Links)
    requires |all| < |entries| && entry == entries[|all|] && Between(all, nodes, roots, stack, open, links, entries)
    modifies nodes
    ensures fresh(node) && 0 < |newStack| <= |stack| + 1
    ensures Between(all + [node], nodes + {node}, newRoots, newStack, newOpen, newLinks, entries)
  {
    hide InOrder, Within, AreAt, Kids, LevelsOf, AncestorChain, Parent, ParentId, Linked, Holds;
    ghost var k: nat := |all|;
    var rest;
    ghost var restOpen;
    rest, restOpen := Unwind(stack, entry.level, open, all, entries);
    node := new SectionNode(entry, k);
    ghost var p := Top(restOpen);
    ParentIdIs(all, entries, p);
    newRoots := Attach(node, rest, roots, all, nodes, links, p);
    newLinks := Hung(links, p, ParentId(entries, k), node);
    LinkedStep(all, node, entries, links);
    ListStep(all, node, entries, -1, roots);
    Opened(all, node, rest, restOpen, entries);
    WithinGrow(all, nodes, node);
    newStack, newOpen := rest + [node], restOpen + [k];
  }

  /** The left-to-right stack builds, for every entry, a node under the nearest
      earlier entry of smaller level; each entry is popped at most once. */
  method LinkSections(entries: seq<Entry>)
      returns (roots: seq<SectionNode>, all: seq<SectionNode>, ghost pops: nat,
               ghost nodes: set<SectionNode>, ghost links: Links)
    ensures |all| == |entries| && InOrder(all, entries) && Within(all, nodes) && fresh(nodes)
    ensures Holds(all, links) && Linked(all, links, entries)
    ensures AreAt(all, roots, Kids(LevelsOf(entries), -1, |entries|))
    ensures pops <= |entries|
  {
    roots, all, pops, nodes, links := [], [], 0, {}, Links([], []);
    var stack: seq<SectionNode> := [];
    ghost var open: seq<nat> := [];
    NothingOpen(entries);
    hide Between;
    for k: nat := 0 to |entries|
      invariant |all| == k && Between(all, nodes, roots, stack, open, links, entries) && fresh(nodes)
      invariant pops + |stack| == k
    {
      var node, newStack;
      node, newStack, roots, open, links := AddSection(entries[k], stack, roots, open, all, nodes, links, entries);
      pops, stack := pops + |stack| + 1 - |newStack|, newStack;
      nodes := nodes + {node};
      all := all + [node];
    }
    BetweenEnd(all, nodes, roots, stack, open, links, entries);
  }

  lemma BetweenEnd(all: seq<SectionNode>, nodes: set<SectionNode>, roots: seq<SectionNode>,
                   stack: seq<SectionNode>, open: seq<nat>, links: Links, entries: seq<Entry>)
    requires |all| == |entries| && Between(all, nodes, roots, stack, open, links, entries)
    ensures InOrder(all, entries) && Within(all, nodes) && Holds(all, links) && Linked(all, links, entries)
    ensures AreAt(all, roots, Kids(LevelsOf(entries), -1, |entries|))
  {
  }

  lemma Opened(all: seq<SectionNode>, node: SectionNode, stack: seq<SectionNode>, open: seq<nat>, entries: seq<Entry>)
    requires |all| < |entries| && InOrder(all, entries) && node.at == |all| && node.Reflects(entries[|all|])
    requires AreAt(all, stack, open) && AncestorChain(LevelsOf(entries), open)
    requires Top(open) == Parent(LevelsOf(entries), |all|)
    ensures InOrder(all + [node], entries)
    ensures AreAt(all + [node], stack + [node], open + [|all|])
    ensures AncestorChain(LevelsOf(entries), open + [|all|]) && Top(open + [|all|]) == |all|
  {
    AreAtGrow(all, node, stack, open);
    PushChain(LevelsOf(entries), open, |all|);
  }

  lemma WithinGrow(all: seq<SectionNode>, nodes: set<SectionNode>, added: SectionNode)
    requires Within(all, nodes)
    ensures Within(all + [added], nodes + {added})
  {
  }

  lemma NothingOpen(entries: seq<Entry>)
    ensures Between([], {}, [], [], [], Links([], []), entries)
  {
  }

  // ---------------------------------------------------------------- second pass

  /** Pops every later section of larger level. */
  method UnwindLater(stack: seq<nat>, level: nat, all: seq<SectionNode>, ghost levels: seq<nat>, ghost k: nat)
      returns (rest: seq<nat>)
    requires |all| == |levels| && forall i :: 0 <= i < |all| ==> all[i].level == levels[i]
    requires k < |levels| && level == levels[k] && SuccessorChain(levels, stack) && TopOrEnd(levels, stack) == k + 1
    requires forall m :: 0 <= m < |stack| ==> stack[m] < |all|
    ensures forall m :: 0 <= m < |rest| ==> rest[m] < |all|
    ensures SuccessorChain(levels, rest) && |rest| <= |stack| && TopOrEnd(levels, rest) == Next(levels, k)
    ensures rest != [] ==> rest[|rest| - 1] == Next(levels, k) < |levels|
    ensures rest == [] ==> Next(levels, k) == |levels|
  {
    rest := stack;
    NextDef(levels, k);
    hide SuccessorChain, Next, NextFrom;
    while rest != [] && all[rest[|rest| - 1]].level > level
      invariant SuccessorChain(levels, rest) && |rest| <= |stack|
      invariant forall m :: 0 <= m < |rest| ==> rest[m] < |all|
      invariant Next(levels, k) == NextFrom(levels, level, TopOrEnd(levels, rest))
      invariant k < TopOrEnd(levels, rest)
      decreases |rest|
    {
      PopSuccessor(levels, rest);
      PopRight(levels, level, rest[|rest| - 1]);
      rest := rest[..|rest| - 1];
    }
    FoundNext(levels, level, rest);
  }

  /** The right-to-left stack finds, for every node, the first later one of equal or
      smaller level; each node is popped at most once. */
  method NextSections(all: seq<SectionNode>, ghost levels: seq<nat>) returns (next: array<int>, ghost pops: nat)
    requires |all| == |levels| && forall i :: 0 <= i < |all| ==> all[i].level == levels[i]
    ensures fresh(next) && next.Length == |all| && pops <= |all|
    ensures forall i :: 0 <= i < |all| ==> next[i] == if Next(levels, i) < |all| then Next(levels, i) else -1
  {
    next := new int[|all|](_ => -1);
    var stack: seq<nat> := [];
    pops := 0;
    assert SuccessorChain(levels, stack);
    hide SuccessorChain, Next;
    for index: nat := |all| downto 0
      invariant SuccessorChain(levels, stack) && TopOrEnd(levels, stack) == index
      invariant forall i :: index <= i < |all| ==> next[i] == if Next(levels, i) < |all| then Next(levels, i) else -1
      invariant pops + |stack| == |all| - index && forall m :: 0 <= m < |stack| ==> stack[m] < |all|
    {
      var rest := UnwindLater(stack, all[index].level, all, levels, index);
      next[index] := if rest != [] then rest[|rest| - 1] else -1;
      PushSuccessor(levels, rest, index);
      pops, stack := pops + |stack| - |rest|, rest + [index];
    }
  }

  /** Page ends and shared-page titles follow from the successors. */
  method AssignPages(all: seq<SectionNode>, next: array<int>, pageCount: nat,
                     ghost entries: seq<Entry>, ghost nodes: set<SectionNode>, ghost links: Links)
    requires |all| == |entries| == next.Length && InOrder(all, entries) && Within(all, nodes) && Holds(all, links)
    requires forall i :: 0 <= i < |all| ==>
      next[i] == if Next(LevelsOf(entries), i) < |all| then Next(LevelsOf(entries), i) else -1
    modifies nodes`pageEnd, nodes`nextTitle
    ensures Holds(all, links)
    ensures forall i :: 0 <= i < |all| ==>
      all[i].pageEnd == PageEnd(entries, pageCount, i) && all[i].nextTitle == NextTitle(entries, i)
  {
    hide LevelsOf, Next;
    for index: nat := 0 to |all|
      invariant forall i :: 0 <= i < index ==>
        all[i].pageEnd == PageEnd(entries, pageCount, i) && all[i].nextTitle == NextTitle(entries, i)
    {
      var node := all[index];
      assert node in nodes && node.at == index && node.Reflects(entries[index]);
      node.pageEnd := if pageCount != 0 then pageCount else node.pageStart;
      node.nextTitle := "";
      var laterIndex := next[index];
      if laterIndex != -1 {
        var later := all[laterIndex];
        assert later.Reflects(entries[laterIndex]);
        node.pageEnd := Max(StartOr1(node.pageStart), StartOr1(later.pageStart) - 1);
        node.nextTitle := if later.pageStart == node.pageStart then later.title else "";
      }
      forall i | 0 <= i < index
        ensures all[i] != node
      {
        assert all[i].at == i;
      }
    }
    forall i: nat | i < |all|
      ensures HasLinks(all[i], links, i)
    {
      assert old(HasLinks(all[i], links, i));
    }
  }

  // ---------------------------------------------------------------- the forest as a value

  /** The node and everything below it, all among the owned nodes, stand for the tree. */
  ghost predicate Represents(node: SectionNode, tree: Section, owned: set<SectionNode>)
    reads owned
    decreases tree
  {
    && node in owned
    && node.Describe() == tree.info
    && |node.children| == |tree.children|
    && forall m :: 0 <= m < |tree.children| ==> Represents(node.children[m], tree.children[m], owned)
  }

  ghost predicate AllRepresent(nodes: seq<SectionNode>, trees: seq<Section>, owned: set<SectionNode>)
    reads owned
  {
    |nodes| == |trees| && forall m :: 0 <= m < |trees| ==> Represents(nodes[m], trees[m], owned)
  }

  /** All nodes carry the specified links, pages and titles. */
  ghost predicate Finished(all: seq<SectionNode>, links: Links, entries: seq<Entry>, pageCount: nat)
    reads all
  {
    && |all| == |entries| && Holds(all, links) && Linked(all, links, entries)
    && forall i :: 0 <= i < |all| ==> all[i].Describe() == NodeInfo(entries, pageCount, i)
  }

  lemma AreAtHead(all: seq<SectionNode>, nodes: seq<SectionNode>, lo: nat, rest: seq<nat>)
    requires AreAt(all, nodes, [lo] + rest)
    ensures nodes != [] && lo < |all| && nodes[0] == all[lo] && AreAt(all, nodes[1..], rest)
  {
    var at := [lo] + rest;
    assert at[0] == lo && forall m :: 0 <= m < |rest| ==> rest[m] == at[m + 1];
  }

  lemma ChildrenHeadBlock(all: seq<SectionNode>, links: Links, entries: seq<Entry>, pageCount: nat, i: nat)
    requires i < |all| && Finished(all, links, entries, pageCount)
    ensures AreAt(all, all[i].children, Siblings(LevelsOf(entries), i + 1, Next(LevelsOf(entries), i)))
    ensures HeadsBlock(LevelsOf(entries), i, i + 1) && |all| == |entries|
    ensures all[i].Describe() == NodeInfo(entries, pageCount, i)
  {
    hide AreAt, Siblings, Kids, LevelsOf, Next;
    assert HasLinks(all[i], links, i) && LinkedAt(all, links, entries, i);
    KidsAreSiblings(LevelsOf(entries), i);
    FirstHead(LevelsOf(entries), i);
  }

  lemma {:induction false} ForestRepresented(all: seq<SectionNode>, links: Links, entries: seq<Entry>, pageCount: nat,
                                             i: int, lo: nat, nodes: seq<SectionNode>, owned: set<SectionNode>)
    requires Within(all, owned)
    requires -1 <= i < |entries| && Finished(all, links, entries, pageCount)
    requires HeadsBlock(LevelsOf(entries), i, lo)
    requires AreAt(all, nodes, Siblings(LevelsOf(entries), lo, Next(LevelsOf(entries), i)))
    ensures AllRepresent(nodes, Forest(entries, pageCount, lo, Next(LevelsOf(entries), i)), owned)
    decreases |entries| - lo
  {
    hide Finished, LevelsOf, Next, HeadsBlock, NodeInfo;
    var levels := LevelsOf(entries);
    var hi := Next(levels, i);
    if lo < hi {
      var next := Next(levels, lo);
      assert Siblings(levels, lo, hi) == [lo] + Siblings(levels, next, hi);
      AreAtHead(all, nodes, lo, Siblings(levels, next, hi));
      NextHead(levels, i, lo);
      ForestRepresented(all, links, entries, pageCount, i, next, nodes[1..], owned);
      ChildrenHeadBlock(all, links, entries, pageCount, lo);
      ForestRepresented(all, links, entries, pageCount, lo, lo + 1, all[lo].children, owned);
      assert Represents(all[lo], Section(NodeInfo(entries, pageCount, lo), Forest(entries, pageCount, lo + 1, next)),
             owned);
    }
  }

  // ---------------------------------------------------------------- preorder

  /** The sections in document order: each before its children, children in turn. */
  function Preorder(forest: seq<Section>): seq<Info> {
    if forest == [] then []
    else [forest[0].info] + Preorder(forest[0].children) + Preorder(forest[1..])
  }

  function Infos(entries: seq<Entry>, pageCount: nat, lo: nat, hi: nat): seq<Info>
    requires hi <= |entries|
    decreases hi - lo
  {
    if lo >= hi then [] else [NodeInfo(entries, pageCount, lo)] + Infos(entries, pageCount, lo + 1, hi)
  }

  lemma {:induction false} InfosJoin(entries: seq<Entry>, pageCount: nat, lo: nat, mid: nat, hi: nat)
    requires lo <= mid <= hi <= |entries|
    ensures Infos(entries, pageCount, lo, hi) == Infos(entries, pageCount, lo, mid) + Infos(entries, pageCount, mid, hi)
    decreases mid - lo
  {
    hide NodeInfo;
    if lo < mid { InfosJoin(entries, pageCount, lo + 1, mid, hi); }
  }

  lemma {:induction false} PreorderIsInterval(entries: seq<Entry>, pageCount: nat, i: int, lo: nat)
    requires -1 <= i < |entries| && HeadsBlock(LevelsOf(entries), i, lo)
    ensures var hi := Next(LevelsOf(entries), i);
            Preorder(Forest(entries, pageCount, lo, hi)) == Infos(entries, pageCount, lo, hi)
    decreases |entries| - lo
  {
    hide LevelsOf, Next, NodeInfo, HeadsBlock;
    var levels := LevelsOf(entries);
    var hi := Next(levels, i);
    if lo < hi {
      var next := Next(levels, lo);
      NextHead(levels, i, lo);
      FirstHead(levels, lo);
      PreorderIsInterval(entries, pageCount, lo, lo + 1);
      PreorderIsInterval(entries, pageCount, i, next);
      InfosJoin(entries, pageCount, lo + 1, next, hi);
      var first := Section(NodeInfo(entries, pageCount, lo), Forest(entries, pageCount, lo + 1, next));
      var rest := Forest(entries, pageCount, next, hi);
      assert Forest(entries, pageCount, lo, hi) == [first] + rest;
      assert ([first] + rest)[1..] == rest;
    }
  }

  /** Listing the built forest in preorder gives back the outline, entry by entry. */
  lemma PreorderIsOutline(entries: seq<Entry>, pageCount: nat)
    ensures Preorder(Forest(entries, pageCount, 0, |entries|)) == Infos(entries, pageCount, 0, |entries|)
  {
    if entries != [] {
      FirstHead(LevelsOf(entries), -1);
      PreorderIsInterval(entries, pageCount, -1, 0);
    }
  }

  lemma {:induction false} PreorderJoin(a: seq<Section>, b: seq<Section>)
    ensures Preorder(a + b) == Preorder(a) + Preorder(b)
    decreases |a|
  {
    if a == [] {
      assert a + b == b;
    } else {
      assert (a + b)[1..] == a[1..] + b;
      PreorderJoin(a[1..], b);
    }
  }

  lemma PreorderLast(sections: seq<Section>)
    requires sections != []
    ensures var last := sections[|sections| - 1];
            Preorder(sections) == Preorder(sections[..|sections| - 1]) + [last.info] + Preorder(last.children)
  {
    var front, last := sections[..|sections| - 1], sections[|sections| - 1];
    assert sections == front + [last];
    assert [last][1..] == [];
    assert Preorder([last]) == [last.info] + Preorder(last.children);
    hide Preorder;
    PreorderJoin(front, [last]);
  }

  ghost predicate Described(nodes: seq<SectionNode>, infos: seq<Info>)
    reads nodes
  {
    |nodes| == |infos| && forall i :: 0 <= i < |nodes| ==> nodes[i].Describe() == infos[i]
  }

  lemma DescribedJoin(a: seq<SectionNode>, node: SectionNode, b: seq<SectionNode>,
                      x: seq<Info>, info: Info, y: seq<Info>)
    requires Described(a, x) && node.Describe() == info && Described(b, y)
    ensures Described(a + [node] + b, x + [info] + y)
  {
    hide SectionNode.Describe;
    var nodes, infos := a + [node] + b, x + [info] + y;
    forall i | 0 <= i < |nodes| ensures nodes[i].Describe() == infos[i] {
      if i < |a| { assert nodes[i] == a[i]; } else if i > |a| { assert nodes[i] == b[i - |a| - 1]; }
    }
  }

  lemma PreorderTo(trees: seq<Section>, k: nat)
    requires k < |trees|
    ensures Preorder(trees[..k + 1]) == Preorder(trees[..k]) + [trees[k].info] + Preorder(trees[k].children)
  {
    hide Preorder;
    assert trees[..k + 1][..k] == trees[..k] && trees[..k + 1][k] == trees[k];
    PreorderLast(trees[..k + 1]);
  }

  /** The nodes in document order: each before its children, children in turn. */
  method FlattenSections(sections: seq<SectionNode>, ghost trees: seq<Section>, ghost owned: set<SectionNode>)
      returns (flat: seq<SectionNode>)
    requires AllRepresent(sections, trees, owned)
    ensures Described(flat, Preorder(trees))
    decreases trees
  {
    flat := [];
    assert Preorder(trees[..0]) == [];
    for k: nat := 0 to |sections|
      invariant Described(flat, Preorder(trees[..k]))
    {
      assert Represents(sections[k], trees[k], owned);
      assert AllRepresent(sections[k].children, trees[k].children, owned) && sections[k].Describe() == trees[k].info;
      hide *;
      var below := FlattenSections(sections[k].children, trees[k].children, owned);
      PreorderTo(trees, k);
      DescribedJoin(flat, sections[k], below, Preorder(trees[..k]), trees[k].info, Preorder(trees[k].children));
      flat := flat + [sections[k]] + below;
    }
    assert trees[..|trees|] == trees;
  }
}
