/** Which bookmarks an outline's entries are, and where they come from. */
module OutlinePaths {
  import opened Levels
  import opened SectionForest
  import opened Outline

  /** The way to a bookmark: its place in the outline, in a list there, and so on. */
  type Path = seq<nat>

  /** A path ends in a bookmark with a title. */
  predicate IsPath(items: seq<Item>, path: Path)
    decreases |path|
  {
    && path != [] && path[0] < |items|
    && if |path| == 1 then items[path[0]].Bookmark? && items[path[0]].title != ""
       else items[path[0]].Nested? && IsPath(items[path[0]].items, path[1..])
  }

  function BookmarkAt(items: seq<Item>, path: Path): (item: Item)
    requires IsPath(items, path)
    ensures item.Bookmark?
    decreases |path|
  {
    if |path| == 1 then items[path[0]] else BookmarkAt(items[path[0]].items, path[1..])
  }

  /** Lexicographic order. */
  predicate Precedes(p: Path, q: Path) {
    p != [] && q != [] && (p[0] < q[0] || (p[0] == q[0] && Precedes(p[1..], q[1..])))
  }

  /** The page a bookmark names if the document has it, else the nearest it has; the first
      one if no page can be read. */
  predicate StartsOn(start: int, page: PageNumber, pageCount: nat) {
    var last := if pageCount == 0 then 1 else pageCount;
    match page
    case Unknown => start == 1
    case Known(number) => start == if number + 1 < 1 then 1 else if number + 1 > last then last else number + 1
  }

  /** The entry is that of the bookmark, as deep as there are lists around it. */
  ghost predicate IsEntryOf(entry: Entry, items: seq<Item>, path: Path, level: nat, pageCount: nat) {
    && IsPath(items, path)
    && var bookmark := BookmarkAt(items, path);
       && entry.title == bookmark.title && entry.level == level + |path| - 1
       && StartsOn(entry.start, bookmark.page, pageCount)
  }

  /** The entries are those of all titled bookmarks, each once, in the outline's order. */
  ghost predicate Follows(entries: seq<Entry>, paths: seq<Path>, items: seq<Item>, level: nat, pageCount: nat) {
    && |paths| == |entries|
    && (forall n :: 0 <= n < |paths| ==> IsEntryOf(entries[n], items, paths[n], level, pageCount))
    && (forall m, n :: 0 <= m < n < |paths| ==> Precedes(paths[m], paths[n]))
    && (forall path :: IsPath(items, path) ==> path in paths)
  }

  lemma PathOfFront(items: seq<Item>, k: nat, path: Path)
    requires k <= |items|
    ensures IsPath(items[..k], path) <==> IsPath(items, path) && path[0] < k
    ensures IsPath(items[..k], path) ==> BookmarkAt(items[..k], path) == BookmarkAt(items, path)
  {
  }

  lemma Deeper(items: seq<Item>, k: nat, path: Path)
    requires k < |items| && items[k].Nested?
    ensures IsPath(items, [k] + path) <==> IsPath(items[k].items, path)
    ensures IsPath(items[k].items, path) ==> BookmarkAt(items, [k] + path) == BookmarkAt(items[k].items, path)
  {
    assert ([k] + path)[1..] == path;
  }

  /** The paths of a nested list. */
  function Under(k: nat, paths: seq<Path>): (under: seq<Path>)
    ensures |under| == |paths|
    ensures forall n :: 0 <= n < |paths| ==> under[n] == [k] + paths[n]
  {
    seq(|paths|, n requires 0 <= n < |paths| => [k] + paths[n])
  }

  lemma NestedFollows(items: seq<Item>, k: nat, entries: seq<Entry>, paths: seq<Path>, level: nat, pageCount: nat)
    requires k < |items| && items[k].Nested? && Follows(entries, paths, items[k].items, level + 1, pageCount)
    ensures var under := Under(k, paths);
            && (forall n :: 0 <= n < |under| ==> IsEntryOf(entries[n], items, under[n], level, pageCount))
            && (forall m, n :: 0 <= m < n < |under| ==> Precedes(under[m], under[n]))
            && (forall path :: IsPath(items, path) && path[0] == k ==> path in under)
  {
    var under := Under(k, paths);
    hide Under, StartsOn;
    forall n | 0 <= n < |under| ensures IsEntryOf(entries[n], items, under[n], level, pageCount) {
      assert IsEntryOf(entries[n], items[k].items, paths[n], level + 1, pageCount);
      Deeper(items, k, paths[n]);
    }
    forall m, n | 0 <= m < n < |under| ensures Precedes(under[m], under[n]) {
      assert under[m][1..] == paths[m] && under[n][1..] == paths[n];
    }
    forall path | IsPath(items, path) && path[0] == k ensures path in under {
      assert path == [k] + path[1..];
      assert path[1..] in paths;
      var n :| 0 <= n < |paths| && paths[n] == path[1..];
      assert under[n] == path;
    }
  }

  /** The entries of one item of the outline. */
  ghost predicate FollowsAt(entries: seq<Entry>, paths: seq<Path>, items: seq<Item>, k: nat, level: nat,
                            pageCount: nat) {
    && |paths| == |entries|
    && (forall n :: 0 <= n < |paths| ==> paths[n] != [] && paths[n][0] == k)
    && (forall n :: 0 <= n < |paths| ==> IsEntryOf(entries[n], items, paths[n], level, pageCount))
    && (forall m, n :: 0 <= m < n < |paths| ==> Precedes(paths[m], paths[n]))
    && (forall path :: IsPath(items, path) && path[0] == k ==> path in paths)
  }

  lemma EntryOfFront(entry: Entry, items: seq<Item>, k: nat, path: Path, level: nat, pageCount: nat)
    requires k <= |items| && IsEntryOf(entry, items[..k], path, level, pageCount)
    ensures IsEntryOf(entry, items, path, level, pageCount) && path[0] < k
  {
    PathOfFront(items, k, path);
  }

  /** One more item after those before it. */
  lemma FollowsPut(items: seq<Item>, a: seq<Entry>, p: seq<Path>, b: seq<Entry>, q: seq<Path>, level: nat,
                   pageCount: nat)
    requires items != []
    requires Follows(a, p, items[..|items| - 1], level, pageCount)
    requires FollowsAt(b, q, items, |items| - 1, level, pageCount)
    ensures Follows(a + b, p + q, items, level, pageCount)
  {
    var k, entries, paths := |items| - 1, a + b, p + q;
    hide IsEntryOf;
    forall n | 0 <= n < |paths|
      ensures IsEntryOf(entries[n], items, paths[n], level, pageCount)
      ensures n < |p| ==> paths[n] != [] && paths[n][0] < k
    {
      if n < |p| {
        assert IsEntryOf(a[n], items[..k], p[n], level, pageCount);
        EntryOfFront(a[n], items, k, p[n], level, pageCount);
        EntryHasPath(a[n], items, p[n], level, pageCount);
      } else {
        assert IsEntryOf(b[n - |p|], items, q[n - |p|], level, pageCount);
      }
    }
    forall m, n | 0 <= m < n < |paths| ensures Precedes(paths[m], paths[n]) {
      if n < |p| {
        assert Precedes(p[m], p[n]);
      } else if m >= |p| {
        assert Precedes(q[m - |p|], q[n - |p|]);
      }
    }
    forall path | IsPath(items, path) ensures path in paths {
      PathOfFront(items, k, path);
      assert path in p || path in q;
    }
  }

  lemma EntryHasPath(entry: Entry, items: seq<Item>, path: Path, level: nat, pageCount: nat)
    requires IsEntryOf(entry, items, path, level, pageCount)
    ensures path != []
  {
  }

  /** A titled bookmark gives its entry. */
  lemma BookmarkFollows(items: seq<Item>, k: nat, level: nat, order: nat, pageCount: nat, mint: (nat, string) -> string)
      returns (paths: seq<Path>)
    requires k < |items| && items[k].Bookmark?
    ensures FollowsAt(FlatItem(items[k], level, order, pageCount, mint), paths, items, k, level, pageCount)
  {
    if items[k].title == "" {
      paths := [];
    } else {
      paths := [[k]];
      var entries := FlatItem(items[k], level, order, pageCount, mint);
      assert IsEntryOf(entries[0], items, [k], level, pageCount);
      forall path | IsPath(items, path) && path[0] == k ensures path in paths { assert path == [k]; }
    }
  }

  /** A nested list gives its own entries, one level deeper. */
  lemma ListFollows(items: seq<Item>, k: nat, level: nat, pageCount: nat, entries: seq<Entry>, paths: seq<Path>)
    requires k < |items| && items[k].Nested? && Follows(entries, paths, items[k].items, level + 1, pageCount)
    ensures FollowsAt(entries, Under(k, paths), items, k, level, pageCount)
  {
    NestedFollows(items, k, entries, paths, level, pageCount);
    hide IsEntryOf, IsPath, Precedes;
  }

  lemma FlatLast(items: seq<Item>, level: nat, order: nat, pageCount: nat, mint: (nat, string) -> string)
    requires items != []
    ensures var k := |items| - 1;
            var front := Flat(items[..k], level, order, pageCount, mint);
            Flat(items, level, order, pageCount, mint) ==
            front + FlatItem(items[k], level, order + |front|, pageCount, mint)
  {
    hide FlatItem;
  }

  lemma FlatNested(inner: seq<Item>, level: nat, order: nat, pageCount: nat, mint: (nat, string) -> string)
    ensures FlatItem(Nested(inner), level, order, pageCount, mint) == Flat(inner, level + 1, order, pageCount, mint)
  {
    hide Flat;
  }

  lemma {:induction false} ItemFollows(items: seq<Item>, k: nat, level: nat, order: nat, pageCount: nat,
                                       mint: (nat, string) -> string)
      returns (paths: seq<Path>)
    requires k < |items|
    ensures FollowsAt(FlatItem(items[k], level, order, pageCount, mint), paths, items, k, level, pageCount)
    decreases items, 0
  {
    hide Flat, FlatItem, Follows, FollowsAt;
    match items[k] {
      case Nested(inner) =>
        var deeper := FlatFollows(inner, level + 1, order, pageCount, mint);
        ListFollows(items, k, level, pageCount, Flat(inner, level + 1, order, pageCount, mint), deeper);
        FlatNested(inner, level, order, pageCount, mint);
        paths := Under(k, deeper);
      case Bookmark(_, _) => paths := BookmarkFollows(items, k, level, order, pageCount, mint);
    }
  }

  /** The flattened outline: for every titled bookmark one entry, in the outline's order,
      with its title, a level equal to the number of lists around it and its page. */
  lemma {:induction false} FlatFollows(items: seq<Item>, level: nat, order: nat, pageCount: nat,
                                       mint: (nat, string) -> string)
      returns (paths: seq<Path>)
    ensures Follows(Flat(items, level, order, pageCount, mint), paths, items, level, pageCount)
    decreases items, 1
  {
    if items == [] { return []; }
    hide Flat, FlatItem, Follows, FollowsAt;
    var k := |items| - 1;
    var front := Flat(items[..k], level, order, pageCount, mint);
    var before := FlatFollows(items[..k], level, order, pageCount, mint);
    var own := ItemFollows(items, k, level, order + |front|, pageCount, mint);
    FlatLast(items, level, order, pageCount, mint);
    FollowsPut(items, front, before, FlatItem(items[k], level, order + |front|, pageCount, mint), own, level,
               pageCount);
    paths := before + own;
  }

  // ---------------------------------------------------------------- what the sections say

  /** No entry in between is at the level or above it. */
  predicate AllDeeper(entries: seq<Entry>, level: nat, from: nat, to: nat)
    requires to <= |entries|
  {
    forall m :: from <= m < to ==> entries[m].level > level
  }

  /** A section ends on the page before the next one that is not below it, but not before
      its own start; the last such section on the last page. It notes the title of the next
      one if that starts on the same page. */
  lemma SectionSays(entries: seq<Entry>, pageCount: nat, i: nat, next: nat)
    requires Clamped(entries, pageCount) && i < next <= |entries| && AllDeeper(entries, entries[i].level, i + 1, next)
    requires next < |entries| ==> entries[next].level <= entries[i].level
    ensures var info, start := NodeInfo(entries, pageCount, i), entries[i].start;
            && info.id == entries[i].id && info.title == entries[i].title && info.level == entries[i].level
            && info.pageStart == start
            && info.pageEnd == (if next == |entries| then if pageCount == 0 then start else pageCount
                                else if entries[next].start > start then entries[next].start - 1
                                else start)
            && info.nextTitle == if next < |entries| && entries[next].start == start then entries[next].title else ""
  {
    var levels := LevelsOf(entries);
    NextFromIs(levels, levels[i], i + 1, next);
    NextDef(levels, i);
  }

  /** A section's parent is the nearest earlier one of smaller level. */
  lemma ParentSays(entries: seq<Entry>, pageCount: nat, i: nat, parent: int)
    requires -1 <= parent < i < |entries|
    requires parent >= 0 ==> entries[parent].level < entries[i].level
    requires forall m :: parent < m < i ==> entries[m].level >= entries[i].level
    ensures NodeInfo(entries, pageCount, i).parentId == if parent < 0 then "" else entries[parent].id
  {
    ParentIs(LevelsOf(entries), i, parent);
  }

  /** The sections name the one they stand under as their parent, are of a larger level,
      and so on below. */
  ghost predicate HangUnder(sections: seq<Section>, parentId: string, level: int)
    decreases sections
  {
    forall m :: 0 <= m < |sections| ==> HangsUnder(sections[m], parentId, level)
  }

  ghost predicate HangsUnder(section: Section, parentId: string, level: int)
    decreases section
  {
    section.info.parentId == parentId && section.info.level > level
    && HangUnder(section.children, section.info.id, section.info.level)
  }

  lemma {:induction false} ForestHangs(entries: seq<Entry>, pageCount: nat, i: int, lo: nat)
    requires -1 <= i < |entries| && HeadsBlock(LevelsOf(entries), i, lo)
    ensures HangUnder(Forest(entries, pageCount, lo, Next(LevelsOf(entries), i)),
                      if i < 0 then "" else entries[i].id, if i < 0 then -1 else entries[i].level)
    decreases |entries| - lo
  {
    var levels := LevelsOf(entries);
    var hi := Next(levels, i);
    if lo < hi {
      var next := Next(levels, lo);
      ParentFacts(levels, lo);
      hide LevelsOf, Next, HeadsBlock, Parent;
      NextHead(levels, i, lo);
      FirstHead(levels, lo);
      ForestHangs(entries, pageCount, lo, lo + 1);
      ForestHangs(entries, pageCount, i, next);
      HeadIsChild(levels, i, lo);
      var first := Section(NodeInfo(entries, pageCount, lo), Forest(entries, pageCount, lo + 1, next));
      var rest := Forest(entries, pageCount, next, hi);
      assert Forest(entries, pageCount, lo, hi) == [first] + rest;
      hide Forest, HangsUnder;
    }
  }

  lemma HeadIsChild(levels: seq<nat>, i: int, lo: nat)
    requires -1 <= i < |levels| && HeadsBlock(levels, i, lo) && lo < Next(levels, i)
    ensures lo < |levels| && Parent(levels, lo) == i
  {
  }

  /** The tree of the outline: every section stands under the one it names as its parent,
      top sections under none. */
  lemma OutlineHangs(entries: seq<Entry>, pageCount: nat)
    ensures HangUnder(Forest(entries, pageCount, 0, |entries|), "", -1)
  {
    if entries != [] {
      FirstHead(LevelsOf(entries), -1);
      ForestHangs(entries, pageCount, -1, 0);
    }
  }
}
