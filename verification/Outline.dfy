/** The PDF outline as a forest of sections, and what its page ranges guarantee. */
module Outline {
  import opened Basics
  import opened Levels
  import opened SectionForest

  /** An outline as the PDF library hands it over: titles already cleaned, the
      zero-based page number absent where it could not be read. */
  datatype Item = Bookmark(title: string, page: PageNumber) | Nested(items: seq<Item>)

  datatype PageNumber = Unknown | Known(number: int)

  /** Page numbers are clamped to the document; an unreadable one counts as page 1. */
  function StartPage(page: PageNumber, pageCount: nat): int {
    var pageNo := if page.Known? then page.number + 1 else 1;
    Max(1, Min(pageNo, if pageCount == 0 then 1 else pageCount))
  }

  /** The outline flattened in document order; mint makes the id of the n-th entry. */
  function Flat(items: seq<Item>, level: nat, order: nat, pageCount: nat, mint: (nat, string) -> string): seq<Entry> {
    if items == [] then []
    else
      var before := Flat(items[..|items| - 1], level, order, pageCount, mint);
      before + FlatItem(items[|items| - 1], level, order + |before|, pageCount, mint)
  }

  function FlatItem(item: Item, level: nat, order: nat, pageCount: nat, mint: (nat, string) -> string): seq<Entry> {
    match item
    case Nested(inner) => Flat(inner, level + 1, order, pageCount, mint)
    case Bookmark(title, page) =>
      if title == "" then []
      else [Entry(mint(order + 1, title), title, level, StartPage(page, pageCount))]
  }

  lemma FlatStep(items: seq<Item>, k: nat, level: nat, order: nat, pageCount: nat, mint: (nat, string) -> string)
    requires k < |items|
    ensures var before := Flat(items[..k], level, order, pageCount, mint);
            Flat(items[..k + 1], level, order, pageCount, mint) ==
            before + FlatItem(items[k], level, order + |before|, pageCount, mint)
  {
    hide FlatItem;
    assert items[..k + 1][..k] == items[..k];
  }

  lemma FlatNone(level: nat, order: nat, pageCount: nat, mint: (nat, string) -> string)
    ensures Flat([], level, order, pageCount, mint) == []
  {
  }

  /** Every flattened entry carries the id minted for its place in the outline. */
  lemma {:induction false} FlatIds(items: seq<Item>, level: nat, order: nat, pageCount: nat,
                                   mint: (nat, string) -> string, i: nat)
    requires i < |Flat(items, level, order, pageCount, mint)|
    ensures var entry := Flat(items, level, order, pageCount, mint)[i];
            entry.id == mint(order + i + 1, entry.title)
    decreases items
  {
    hide StartPage;
    var last := items[|items| - 1];
    var before := Flat(items[..|items| - 1], level, order, pageCount, mint);
    if i < |before| {
      FlatIds(items[..|items| - 1], level, order, pageCount, mint, i);
    } else if last.Nested? {
      FlatIds(last.items, level + 1, order + |before|, pageCount, mint, i - |before|);
    }
  }

  method Walk(items: seq<Item>, level: nat, order: nat, pageCount: nat, mint: (nat, string) -> string)
      returns (flat: seq<Entry>)
    ensures flat == Flat(items, level, order, pageCount, mint)
    decreases items
  {
    flat := [];
    hide Flat, StartPage;
    assert Flat(items[..0], level, order, pageCount, mint) == [] by { FlatNone(level, order, pageCount, mint); }
    for k: nat := 0 to |items|
      invariant flat == Flat(items[..k], level, order, pageCount, mint)
    {
      FlatStep(items, k, level, order, pageCount, mint);
      match items[k] {
        case Nested(inner) =>
          var deeper := Walk(inner, level + 1, order + |flat|, pageCount, mint);
          flat := flat + deeper;
        case Bookmark(title, page) =>
          if title != "" {
            flat := flat + [Entry(mint(order + |flat| + 1, title), title, level, StartPage(page, pageCount))];
          }
      }
    }
    assert items[..|items|] == items;
  }

  /** The outline's sections stand for the forest of its entries. */
  method OutlineSections(items: seq<Item>, pageCount: nat, mint: (nat, string) -> string)
      returns (roots: seq<SectionNode>, ghost owned: set<SectionNode>)
    ensures var entries := Flat(items, 0, 0, pageCount, mint);
            AllRepresent(roots, Forest(entries, pageCount, 0, |entries|), owned)
    ensures fresh(owned)
  {
    var flat := Walk(items, 0, 0, pageCount, mint);
    if flat == [] { return [], {}; }
    var all;
    ghost var pops, links;
    roots, all, pops, owned, links := LinkSections(flat);
    hide *;
    ghost var levels := LevelsOf(flat);
    LevelsAgree(all, flat);
    var next;
    next, pops := NextSections(all, levels);
    AssignPages(all, next, pageCount, flat, owned, links);
    Represented(all, links, flat, pageCount, roots, owned);
  }

  lemma LevelsAgree(all: seq<SectionNode>, entries: seq<Entry>)
    requires |all| == |entries| && InOrder(all, entries)
    ensures forall i :: 0 <= i < |all| ==> all[i].level == LevelsOf(entries)[i]
  {
    hide LevelsOf;
  }

  lemma Represented(all: seq<SectionNode>, links: Links, entries: seq<Entry>, pageCount: nat, roots: seq<SectionNode>,
                    owned: set<SectionNode>)
    requires Within(all, owned)
    requires |all| == |entries| > 0 && InOrder(all, entries) && Holds(all, links) && Linked(all, links, entries)
    requires forall i :: 0 <= i < |all| ==>
      all[i].pageEnd == PageEnd(entries, pageCount, i) && all[i].nextTitle == NextTitle(entries, i)
    requires AreAt(all, roots, Kids(LevelsOf(entries), -1, |entries|))
    ensures AllRepresent(roots, Forest(entries, pageCount, 0, |entries|), owned)
  {
    var levels := LevelsOf(entries);
    assert Next(levels, -1) == |entries|;
    hide *;
    FinishedAll(all, links, entries, pageCount);
    KidsAreSiblings(levels, -1);
    FirstHead(levels, -1);
    ForestRepresented(all, links, entries, pageCount, -1, 0, roots, owned);
  }

  lemma FinishedAll(all: seq<SectionNode>, links: Links, entries: seq<Entry>, pageCount: nat)
    requires |all| == |entries| && InOrder(all, entries) && Holds(all, links) && Linked(all, links, entries)
    requires forall i :: 0 <= i < |all| ==>
      all[i].pageEnd == PageEnd(entries, pageCount, i) && all[i].nextTitle == NextTitle(entries, i)
    ensures Finished(all, links, entries, pageCount)
  {
    hide ParentId, PageEnd, NextTitle, LevelsOf, AreAt;
    forall i: nat | i < |all|
      ensures all[i].Describe() == NodeInfo(entries, pageCount, i)
    {
      assert HasLinks(all[i], links, i) && LinkedAt(all, links, entries, i) && all[i].Reflects(entries[i]);
    }
  }

  // ---------------------------------------------------------------- page ranges

  predicate Clamped(entries: seq<Entry>, pageCount: nat) {
    forall i :: 0 <= i < |entries| ==> 1 <= entries[i].start <= Max(1, pageCount)
  }

  predicate Nondecreasing(entries: seq<Entry>) {
    forall i, j :: 0 <= i <= j < |entries| ==> entries[i].start <= entries[j].start
  }

  /** Whatever the outline says, its entries start inside the document. */
  lemma {:induction false} FlatIsClamped(items: seq<Item>, level: nat, order: nat, pageCount: nat,
                                         mint: (nat, string) -> string)
    ensures Clamped(Flat(items, level, order, pageCount, mint), pageCount)
  {
    if items != [] {
      var n := |items| - 1;
      var before := Flat(items[..n], level, order, pageCount, mint);
      FlatIsClamped(items[..n], level, order, pageCount, mint);
      match items[n] {
        case Nested(inner) => FlatIsClamped(inner, level + 1, order + |before|, pageCount, mint);
        case Bookmark(_, _) =>
      }
    }
  }

  /** Every section's range is inside the document; with no pages at all the range
      is still page 1, so the upper bound holds exactly when there is a page. */
  lemma RangeInsideDocument(entries: seq<Entry>, pageCount: nat, i: nat)
    requires i < |entries| && Clamped(entries, pageCount)
    ensures 1 <= entries[i].start <= PageEnd(entries, pageCount, i) <= Max(1, pageCount)
    ensures PageEnd(entries, pageCount, i) <= pageCount <==> pageCount >= 1
  {
  }

  /** From the page of the first section on, every page is in some root's range. */
  lemma {:induction false} RootsCover(entries: seq<Entry>, pageCount: nat, page: int, r: nat) returns (root: nat)
    requires Clamped(entries, pageCount) && r < |entries| && Parent(LevelsOf(entries), r) == -1
    requires entries[r].start <= page <= pageCount
    ensures root < |entries| && Parent(LevelsOf(entries), root) == -1
    ensures entries[root].start <= page <= PageEnd(entries, pageCount, root)
    decreases |entries| - r
  {
    var levels := LevelsOf(entries);
    var later := Next(levels, r);
    if later < |entries| && entries[later].start <= page {
      NextHead(levels, -1, r);
      root := RootsCover(entries, pageCount, page, later);
    } else {
      root := r;
    }
  }

  ghost predicate InSomeRoot(entries: seq<Entry>, pageCount: nat, page: int) {
    exists root: nat :: root < |entries| && InRoot(entries, pageCount, page, root)
  }

  ghost predicate InRoot(entries: seq<Entry>, pageCount: nat, page: int, root: nat)
    requires root < |entries|
  {
    Parent(LevelsOf(entries), root) == -1 && entries[root].start <= page <= PageEnd(entries, pageCount, root)
  }

  lemma NoPageLost(entries: seq<Entry>, pageCount: nat, page: int)
    requires entries != [] && Clamped(entries, pageCount)
    requires entries[0].start <= page <= pageCount
    ensures InSomeRoot(entries, pageCount, page)
  {
    FirstHead(LevelsOf(entries), -1);
    var root := RootsCover(entries, pageCount, page, 0);
    assert InRoot(entries, pageCount, page, root);
  }

  /** With pages in order, a descendant ends at most one page past its ancestor; it
      ends inside it exactly when nothing follows the ancestor, or it starts before
      the page of what follows, or the ancestor itself starts on that page. */
  lemma DescendantRange(entries: seq<Entry>, pageCount: nat, a: nat, d: nat)
    requires Clamped(entries, pageCount) && Nondecreasing(entries)
    requires a < d < |entries| && d < Next(LevelsOf(entries), a)
    ensures var later := Next(LevelsOf(entries), a);
            var inner, outer := PageEnd(entries, pageCount, d), PageEnd(entries, pageCount, a);
            && entries[a].start <= entries[d].start && inner <= outer + 1
            && (inner <= outer <==>
                  later == |entries| || entries[d].start < entries[later].start
                  || entries[a].start == entries[later].start)
  {
    var levels := LevelsOf(entries);
    var later := Next(levels, a);
    NextFacts(levels, a);
    NextFacts(levels, d);
    var dLater := Next(levels, d);
    assert dLater <= later by {
      assert later < |levels| ==> levels[later] <= levels[a] < levels[d];
    }
    RangeInsideDocument(entries, pageCount, d);
    if later < |entries| {
      assert entries[d].start <= entries[later].start;
      assert entries[dLater].start <= entries[later].start;
    }
  }
}
