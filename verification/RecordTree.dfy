/** Which section each record of a document comes from, what it holds, and the summary it
    hangs under, read off the tree of sections. */
module RecordTree {
  import opened SectionForest
  import opened SectionRecords
  import SplitText

  // ---------------------------------------------------------------- places in the tree

  /** The way to a section: its place at the top, among the children there, and so on. */
  type Path = seq<nat>

  predicate IsSection(sections: seq<Section>, path: Path)
    decreases |path|
  {
    && path != [] && path[0] < |sections|
    && (|path| == 1 || IsSection(sections[path[0]].children, path[1..]))
  }

  function SectionAt(sections: seq<Section>, path: Path): Section
    requires IsSection(sections, path)
    decreases |path|
  {
    if |path| == 1 then sections[path[0]] else SectionAt(sections[path[0]].children, path[1..])
  }

  /** No section on the way has a boilerplate heading. */
  predicate IsVisible(ctx: Context, sections: seq<Section>, path: Path)
    requires IsSection(sections, path)
    decreases |path|
  {
    && !ctx.isLowValue(sections[path[0]].info.title)
    && (|path| == 1 || IsVisible(ctx, sections[path[0]].children, path[1..]))
  }

  /** Sections of the first two levels have a summary, and those with children. */
  predicate HasSummary(section: Section) {
    section.info.level == 0 || section.info.level == 1 || |section.children| > 0
  }

  predicate HasSummaryAt(sections: seq<Section>, path: Path) {
    IsSection(sections, path) && HasSummary(SectionAt(sections, path))
  }

  lemma Deeper(sections: seq<Section>, k: nat, path: Path)
    requires k < |sections| && path != []
    ensures IsSection(sections, [k] + path) <==> IsSection(sections[k].children, path)
    ensures IsSection(sections[k].children, path) ==>
              SectionAt(sections, [k] + path) == SectionAt(sections[k].children, path)
    ensures HasSummaryAt(sections, [k] + path) <==> HasSummaryAt(sections[k].children, path)
  {
    assert ([k] + path)[1..] == path;
  }

  lemma DeeperVisible(ctx: Context, sections: seq<Section>, k: nat, path: Path)
    requires k < |sections| && IsSection(sections[k].children, path)
    ensures IsSection(sections, [k] + path)
    ensures IsVisible(ctx, sections, [k] + path) <==>
            !ctx.isLowValue(sections[k].info.title) && IsVisible(ctx, sections[k].children, path)
  {
    assert ([k] + path)[1..] == path;
  }

  lemma PathOfFront(ctx: Context, sections: seq<Section>, k: nat, path: Path)
    requires k <= |sections|
    ensures IsSection(sections[..k], path) <==> IsSection(sections, path) && path[0] < k
    ensures IsSection(sections[..k], path) ==>
              && SectionAt(sections[..k], path) == SectionAt(sections, path)
              && (IsVisible(ctx, sections[..k], path) <==> IsVisible(ctx, sections, path))
  {
  }

  // ---------------------------------------------------------------- what a record hangs under

  /** The id of a section's summary. */
  function SummaryId(ctx: Context, docId: string, section: Section): string {
    ctx.digest(docId + "\0summary\0" + section.info.id)
  }

  /** Of the sections on the first n steps of a path, the last with a summary is that of m
      steps; none has one if m is 0. */
  ghost predicate IsNearest(sections: seq<Section>, path: Path, n: nat, m: nat) {
    && m <= n <= |path|
    && (m > 0 ==> HasSummaryAt(sections, path[..m]))
    && forall k: nat :: m < k <= n ==> !HasSummaryAt(sections, path[..k])
  }

  /** The id of the summary of a section, or that of the root above the top sections. */
  function IdAt(ctx: Context, docId: string, root: string, sections: seq<Section>, path: Path): string {
    if IsSection(sections, path) then SummaryId(ctx, docId, SectionAt(sections, path)) else root
  }

  /** The parent is the summary of the nearest of the first n sections on the path that has
      one, else the root. */
  ghost predicate HangsUnder(parentId: string, ctx: Context, docId: string, root: string, sections: seq<Section>,
                             path: Path, n: nat) {
    exists m: nat :: IsNearest(sections, path, n, m) && parentId == IdAt(ctx, docId, root, sections, path[..m])
  }

  lemma HangsTop(ctx: Context, docId: string, root: string, sections: seq<Section>, k: nat)
    requires k < |sections|
    ensures HangsUnder(root, ctx, docId, root, sections, [k], 0)
    ensures HangsUnder(if HasSummary(sections[k]) then SummaryId(ctx, docId, sections[k]) else root,
                       ctx, docId, root, sections, [k], 1)
  {
    hide SummaryId, HasSummary;
    assert [k][..1] == [k] && [k][..0] == [];
    assert IsNearest(sections, [k], 0, 0);
    assert IsNearest(sections, [k], 1, if HasSummary(sections[k]) then 1 else 0);
  }

  lemma PrefixDeeper(sections: seq<Section>, k: nat, path: Path, m: nat)
    requires k < |sections| && m <= |path|
    ensures ([k] + path)[..m + 1] == [k] + path[..m]
    ensures HasSummaryAt(sections, ([k] + path)[..m + 1]) <==>
            if m == 0 then HasSummary(sections[k]) else HasSummaryAt(sections[k].children, path[..m])
  {
    hide HasSummary;
    assert ([k] + path)[..m + 1] == [k] + path[..m];
    if m > 0 { Deeper(sections, k, path[..m]); }
  }

  lemma NearestDeeper(sections: seq<Section>, k: nat, path: Path, n: nat, m: nat)
    requires k < |sections| && IsNearest(sections[k].children, path, n, m)
    ensures IsNearest(sections, [k] + path, n + 1, if m > 0 || HasSummary(sections[k]) then m + 1 else 0)
  {
    hide HasSummary, HasSummaryAt;
    PrefixDeeper(sections, k, path, m);
    var long, from := [k] + path, if m > 0 || HasSummary(sections[k]) then m + 1 else 0;
    forall i: nat | from < i <= n + 1 ensures !HasSummaryAt(sections, long[..i]) {
      PrefixDeeper(sections, k, path, i - 1);
      assert i - 1 > m || (i == 1 && m == 0);
    }
  }

  /** What hangs under a child's summaries, or else under what its parent hangs under. */
  lemma HangsDeeper(parentId: string, ctx: Context, docId: string, root: string, sections: seq<Section>, k: nat,
                    path: Path, n: nat)
    requires k < |sections|
    requires HangsUnder(parentId, ctx, docId,
                        if HasSummary(sections[k]) then SummaryId(ctx, docId, sections[k]) else root,
                        sections[k].children, path, n)
    ensures HangsUnder(parentId, ctx, docId, root, sections, [k] + path, n + 1)
  {
    hide SummaryId, HasSummary;
    var active := if HasSummary(sections[k]) then SummaryId(ctx, docId, sections[k]) else root;
    var m: nat :| IsNearest(sections[k].children, path, n, m)
                  && parentId == IdAt(ctx, docId, active, sections[k].children, path[..m]);
    NearestDeeper(sections, k, path, n, m);
    assert ([k] + path)[..m + 1] == [k] + path[..m];
    assert m == 0 ==> ([k] + path)[..0] == [] && path[..m] == [];
    hide IsNearest;
    if m > 0 { Deeper(sections, k, path[..m]); }
  }

  // ---------------------------------------------------------------- what a record holds

  /** Where a record comes from: a section's summary, or one of its chunks. */
  datatype Origin = SummaryOf(path: Path) | ChunkOf(path: Path, offset: nat)

  /** A leaf's chunks are cut from all of its text, a parent's from what stands before the
      heading of its first child. */
  function ChunksOf(ctx: Context, section: Section): seq<string> {
    var text := if |section.children| == 0 then ctx.contentOf(section.info)
                else ctx.introOf(section.info, section.children[0].info.title);
    SplitText.Chunks(text, ctx.maxChars, ctx.overlap)
  }

  /** The id of a section's chunk. */
  function ChunkId(ctx: Context, docId: string, section: Section, offset: nat): string {
    ctx.digest(docId + "\0chunk\0" + section.info.id + "\0"
               + (if |section.children| > 0 then "intro\0" else "") + Str(offset))
  }

  /** Every section on the way is kept, the summary is there, the chunk is there. */
  predicate IsOrigin(ctx: Context, sections: seq<Section>, origin: Origin) {
    && IsSection(sections, origin.path) && IsVisible(ctx, sections, origin.path)
    && match origin
       case SummaryOf(path) => HasSummary(SectionAt(sections, path))
       case ChunkOf(path, offset) => offset < |ChunksOf(ctx, SectionAt(sections, path))|
  }

  ghost predicate IsSummaryRecord(record: Record, ctx: Context, docId: string, section: Section) {
    && record.kind == SectionSummary && record.title == section.info.title
    && record.nodeId == SummaryId(ctx, docId, section)
  }

  ghost predicate IsChunkRecord(record: Record, ctx: Context, docId: string, section: Section, offset: nat) {
    && record.kind == Chunk && record.title == section.info.title
    && record.nodeId == ChunkId(ctx, docId, section, offset)
    && offset < |ChunksOf(ctx, section)| && record.content == ChunksOf(ctx, section)[offset]
  }

  /** The record of a section's summary hangs under the nearest section around it that has
      one, that of a chunk under its own section's if that has one. */
  ghost predicate IsRecordOf(record: Record, ctx: Context, docId: string, root: string, sections: seq<Section>,
                             origin: Origin) {
    && IsOrigin(ctx, sections, origin)
    && var section := SectionAt(sections, origin.path);
       match origin
       case SummaryOf(path) =>
         && IsSummaryRecord(record, ctx, docId, section)
         && HangsUnder(record.parentId, ctx, docId, root, sections, path, |path| - 1)
       case ChunkOf(path, offset) =>
         && IsChunkRecord(record, ctx, docId, section, offset)
         && HangsUnder(record.parentId, ctx, docId, root, sections, path, |path|)
  }

  /** A section comes before the sections below it and those after it. */
  predicate PathBefore(p: Path, q: Path) {
    q != [] && (p == [] || p[0] < q[0] || (p[0] == q[0] && PathBefore(p[1..], q[1..])))
  }

  /** A section's summary comes first, then its chunks. */
  predicate Before(a: Origin, b: Origin) {
    || PathBefore(a.path, b.path)
    || (a.path == b.path && b.ChunkOf? && (a.SummaryOf? || a.offset < b.offset))
  }

  /** The records are those of all origins, each once, in document order. */
  ghost predicate Accounts(records: seq<Record>, origins: seq<Origin>, ctx: Context, docId: string, root: string,
                           sections: seq<Section>) {
    && Describes(records, origins, ctx, docId, root, sections) && Ascends(origins)
    && forall origin :: IsOrigin(ctx, sections, origin) ==> origin in origins
  }

  ghost predicate Describes(records: seq<Record>, origins: seq<Origin>, ctx: Context, docId: string, root: string,
                            sections: seq<Section>) {
    && |origins| == |records|
    && forall n :: 0 <= n < |origins| ==> IsRecordOf(records[n], ctx, docId, root, sections, origins[n])
  }

  ghost predicate Ascends(origins: seq<Origin>) {
    forall m, n :: 0 <= m < n < |origins| ==> Before(origins[m], origins[n])
  }

  /** Those of the section at position k and below it. */
  ghost predicate AccountsAt(records: seq<Record>, origins: seq<Origin>, ctx: Context, docId: string, root: string,
                             sections: seq<Section>, k: nat) {
    && Describes(records, origins, ctx, docId, root, sections) && Ascends(origins)
    && (forall n :: 0 <= n < |origins| ==> StartsAt(origins[n].path, k))
    && forall origin :: IsOrigin(ctx, sections, origin) && StartsAt(origin.path, k) ==> origin in origins
  }

  predicate StartsAt(path: Path, k: nat) {
    path != [] && path[0] == k
  }

  // ---------------------------------------------------------------- putting records together

  lemma DescribesJoin(a: seq<Record>, p: seq<Origin>, b: seq<Record>, q: seq<Origin>, ctx: Context, docId: string,
                      root: string, sections: seq<Section>)
    requires Describes(a, p, ctx, docId, root, sections) && Describes(b, q, ctx, docId, root, sections)
    ensures Describes(a + b, p + q, ctx, docId, root, sections)
  {
    hide IsRecordOf;
  }

  lemma AscendsJoin(p: seq<Origin>, q: seq<Origin>)
    requires Ascends(p) && Ascends(q)
    requires forall m, n :: 0 <= m < |p| && 0 <= n < |q| ==> Before(p[m], q[n])
    ensures Ascends(p + q)
  {
    hide Before;
    var all := p + q;
    forall m, n | 0 <= m < n < |all| ensures Before(all[m], all[n]) {
      if n < |p| {
        assert Before(p[m], p[n]);
      } else if m < |p| {
        assert Before(p[m], q[n - |p|]);
      } else {
        assert Before(q[m - |p|], q[n - |p|]);
      }
    }
  }

  lemma HangsInFront(parentId: string, ctx: Context, docId: string, root: string, sections: seq<Section>, k: nat,
                     path: Path, n: nat)
    requires k <= |sections| && IsSection(sections[..k], path)
    requires HangsUnder(parentId, ctx, docId, root, sections[..k], path, n)
    ensures HangsUnder(parentId, ctx, docId, root, sections, path, n)
  {
    hide SummaryId, HasSummary;
    var m: nat :| IsNearest(sections[..k], path, n, m)
                  && parentId == IdAt(ctx, docId, root, sections[..k], path[..m]);
    assert path[0] < k;
    forall i: nat | i <= n ensures HasSummaryAt(sections[..k], path[..i]) <==> HasSummaryAt(sections, path[..i]) {
      PathOfFront(ctx, sections, k, path[..i]);
      assert i > 0 ==> path[..i][0] == path[0];
    }
    PathOfFront(ctx, sections, k, path[..m]);
    assert m > 0 ==> path[..m][0] == path[0];
    hide HasSummaryAt;
    assert IsNearest(sections, path, n, m);
  }

  lemma OriginInFront(ctx: Context, sections: seq<Section>, k: nat, origin: Origin)
    requires k <= |sections|
    ensures IsOrigin(ctx, sections[..k], origin) <==>
            IsOrigin(ctx, sections, origin) && origin.path != [] && origin.path[0] < k
    ensures IsSection(sections[..k], origin.path) ==>
              && IsSection(sections, origin.path)
              && SectionAt(sections[..k], origin.path) == SectionAt(sections, origin.path)
  {
    hide HasSummary, ChunksOf, SectionAt, IsVisible;
    PathOfFront(ctx, sections, k, origin.path);
    PathNotEmpty(sections, origin.path);
    PathNotEmpty(sections[..k], origin.path);
    hide IsSection;
  }

  lemma PathNotEmpty(sections: seq<Section>, path: Path)
    ensures IsSection(sections, path) ==> path != [] && path[0] < |sections|
  {
  }

  lemma RecordInFront(record: Record, ctx: Context, docId: string, root: string, sections: seq<Section>, k: nat,
                      origin: Origin)
    requires k <= |sections| && IsRecordOf(record, ctx, docId, root, sections[..k], origin)
    ensures IsRecordOf(record, ctx, docId, root, sections, origin) && origin.path != [] && origin.path[0] < k
  {
    OriginInFront(ctx, sections, k, origin);
    var n := if origin.SummaryOf? then |origin.path| - 1 else |origin.path|;
    OriginIsSection(ctx, sections[..k], origin);
    hide IsOrigin, HangsUnder, IsSummaryRecord, IsChunkRecord, SectionAt, IsSection;
    HangsInFront(record.parentId, ctx, docId, root, sections, k, origin.path, n);
  }

  lemma OriginIsSection(ctx: Context, sections: seq<Section>, origin: Origin)
    requires IsOrigin(ctx, sections, origin)
    ensures IsSection(sections, origin.path) && origin.path != []
  {
    PathNotEmpty(sections, origin.path);
  }

  /** One more section after those before it. */
  lemma AccountsPut(a: seq<Record>, p: seq<Origin>, b: seq<Record>, q: seq<Origin>, ctx: Context, docId: string,
                    root: string, sections: seq<Section>)
    requires sections != []
    requires Accounts(a, p, ctx, docId, root, sections[..|sections| - 1])
    requires AccountsAt(b, q, ctx, docId, root, sections, |sections| - 1)
    ensures Accounts(a + b, p + q, ctx, docId, root, sections)
  {
    var k := |sections| - 1;
    hide IsRecordOf, IsOrigin, Ascends;
    forall n | 0 <= n < |p|
      ensures IsRecordOf(a[n], ctx, docId, root, sections, p[n]) && p[n].path != [] && p[n].path[0] < k
    {
      assert IsRecordOf(a[n], ctx, docId, root, sections[..k], p[n]);
      RecordInFront(a[n], ctx, docId, root, sections, k, p[n]);
    }
    DescribesJoin(a, p, b, q, ctx, docId, root, sections);
    forall m, n | 0 <= m < |p| && 0 <= n < |q| ensures Before(p[m], q[n]) {
      assert StartsAt(q[n].path, k);
    }
    AscendsJoin(p, q);
    forall origin | IsOrigin(ctx, sections, origin) ensures origin in p + q {
      OriginInFront(ctx, sections, k, origin);
      OriginIsSection(ctx, sections, origin);
      PathNotEmpty(sections, origin.path);
      assert origin in p || origin in q;
    }
  }

  // ---------------------------------------------------------------- the section itself

  lemma {:induction false} ChunkRecordAt(ctx: Context, docId: string, section: Section, chunks: seq<string>, n: nat,
                                         parent: string, counter: nat, i: nat)
    requires i < n <= |chunks|
    ensures var records := ChunkRecords(ctx, docId, section, chunks, n, parent, counter);
            && |records| == n
            && records[i] == Record(Mint(ctx, docId, KeyOf(section, i)), parent, Chunk, section.info.title, chunks[i],
                                    counter + i)
  {
    hide Mint, KeyOf;
    if i < n - 1 {
      ChunkRecordAt(ctx, docId, section, chunks, n - 1, parent, counter, i);
    } else if n > 1 {
      ChunkRecordAt(ctx, docId, section, chunks, n - 1, parent, counter, 0);
    }
  }

  lemma NoChunkRecords(ctx: Context, docId: string, section: Section, chunks: seq<string>, parent: string, counter: nat)
    ensures ChunkRecords(ctx, docId, section, chunks, 0, parent, counter) == []
  {
  }

  lemma TwoJoined(a: string, b: string)
    ensures JoinNul([a, b]) == a + "\0" + b
  {
    assert [a, b][1..] == [b];
  }

  lemma JoinedFirst(a: string, rest: seq<string>)
    requires rest != []
    ensures JoinNul([a] + rest) == a + "\0" + JoinNul(rest)
  {
    assert ([a] + rest)[1..] == rest;
  }

  lemma ThreeJoined(a: string, b: string, c: string)
    ensures JoinNul([a, b, c]) == a + "\0" + b + "\0" + c
  {
    TwoJoined(b, c);
    JoinedFirst(a, [b, c]);
    assert [a] + [b, c] == [a, b, c];
    hide JoinNul;
  }

  lemma FourJoined(a: string, b: string, c: string, d: string)
    ensures JoinNul([a, b, c, d]) == a + "\0" + b + "\0" + c + "\0" + d
  {
    ThreeJoined(b, c, d);
    JoinedFirst(a, [b, c, d]);
    assert [a] + [b, c, d] == [a, b, c, d];
    hide JoinNul;
  }

  lemma SummaryMint(ctx: Context, docId: string, section: Section)
    ensures Mint(ctx, docId, SummaryKey(section.info.id)) == SummaryId(ctx, docId, section)
  {
    ThreeJoined(docId, "summary", section.info.id);
    hide JoinNul;
    assert docId + "\0" + "summary" + "\0" + section.info.id == docId + "\0summary\0" + section.info.id;
  }

  lemma ChunkMint(ctx: Context, docId: string, section: Section, offset: nat)
    ensures Mint(ctx, docId, KeyOf(section, offset)) == ChunkId(ctx, docId, section, offset)
  {
    var id, place := section.info.id, Str(offset);
    if section.children != [] {
      FourJoined("chunk", id, "intro", place);
      JoinedFirst(docId, ["chunk", id, "intro", place]);
      assert [docId] + ["chunk", id, "intro", place] == [docId, "chunk", id, "intro", place];
      hide JoinNul, Str;
      assert docId + "\0" + ("chunk" + "\0" + id + "\0" + "intro" + "\0" + place) ==
             docId + "\0chunk\0" + id + "\0" + ("intro\0" + place);
      assert docId + "\0chunk\0" + id + "\0" + "intro\0" + place ==
             docId + "\0chunk\0" + id + "\0" + ("intro\0" + place);
    } else {
      FourJoined(docId, "chunk", id, place);
      hide JoinNul, Str;
      assert docId + "\0" + "chunk" + "\0" + id + "\0" + place == docId + "\0chunk\0" + id + "\0" + "" + place;
    }
  }

  lemma ActiveIs(ctx: Context, docId: string, section: Section, parent: string)
    ensures ActiveParent(ctx, docId, section, parent) ==
            if HasSummary(section) then SummaryId(ctx, docId, section) else parent
  {
    SummaryMint(ctx, docId, section);
    hide Mint;
  }

  lemma ChunksAre(ctx: Context, section: Section)
    ensures OwnChunks(ctx, section) == ChunksOf(ctx, section)
  {
    hide SplitText.Chunks;
  }

  function ChunkOrigins(k: nat, n: nat): (origins: seq<Origin>)
    ensures |origins| == n
    ensures forall i :: 0 <= i < n ==> origins[i] == ChunkOf([k], i)
  {
    seq(n, i requires 0 <= i < n => ChunkOf([k], i))
  }

  lemma PlaceOf(ctx: Context, sections: seq<Section>, k: nat)
    requires k < |sections|
    ensures IsSection(sections, [k]) && SectionAt(sections, [k]) == sections[k]
    ensures IsVisible(ctx, sections, [k]) <==> !ctx.isLowValue(sections[k].info.title)
  {
  }

  lemma ChunkDescribed(record: Record, ctx: Context, docId: string, root: string, sections: seq<Section>, k: nat,
                       i: nat)
    requires k < |sections| && !ctx.isLowValue(sections[k].info.title) && i < |ChunksOf(ctx, sections[k])|
    requires record.nodeId == Mint(ctx, docId, KeyOf(sections[k], i)) && record.kind == Chunk
    requires record.title == sections[k].info.title && record.content == ChunksOf(ctx, sections[k])[i]
    requires record.parentId == ActiveParent(ctx, docId, sections[k], root)
    ensures IsRecordOf(record, ctx, docId, root, sections, ChunkOf([k], i))
  {
    ActiveIs(ctx, docId, sections[k], root);
    HangsTop(ctx, docId, root, sections, k);
    ChunkMint(ctx, docId, sections[k], i);
    PlaceOf(ctx, sections, k);
    hide ActiveParent, Mint, KeyOf, HangsUnder, ChunksOf, ChunkId, SummaryId, HasSummary, IsSection, IsVisible,
         SectionAt;
  }

  lemma ChunksDescribed(ctx: Context, docId: string, root: string, sections: seq<Section>, k: nat, counter: nat)
    requires k < |sections| && !ctx.isLowValue(sections[k].info.title)
    ensures var section := sections[k];
            var chunks := ChunksOf(ctx, section);
            var parent := ActiveParent(ctx, docId, section, root);
            Describes(ChunkRecords(ctx, docId, section, chunks, |chunks|, parent, counter),
                      ChunkOrigins(k, |chunks|), ctx, docId, root, sections)
  {
    var section := sections[k];
    var chunks, parent := ChunksOf(ctx, section), ActiveParent(ctx, docId, section, root);
    var records := ChunkRecords(ctx, docId, section, chunks, |chunks|, parent, counter);
    hide ChunkRecords, ActiveParent, Mint, KeyOf, ChunksOf, ChunkOrigins, IsRecordOf;
    if |chunks| == 0 {
      NoChunkRecords(ctx, docId, section, chunks, parent, counter);
    } else {
      ChunkRecordAt(ctx, docId, section, chunks, |chunks|, parent, counter, 0);
    }
    forall i: nat | i < |chunks| ensures IsRecordOf(records[i], ctx, docId, root, sections, ChunkOf([k], i)) {
      ChunkRecordAt(ctx, docId, section, chunks, |chunks|, parent, counter, i);
      ChunkDescribed(records[i], ctx, docId, root, sections, k, i);
    }
  }

  lemma SummaryDescribed(ctx: Context, docId: string, root: string, sections: seq<Section>, k: nat)
    requires k < |sections| && !ctx.isLowValue(sections[k].info.title)
    ensures Describes(OwnSummary(ctx, docId, sections[k], root), SummaryOrigin(sections, k), ctx, docId, root, sections)
  {
    SummaryMint(ctx, docId, sections[k]);
    HangsTop(ctx, docId, root, sections, k);
    PlaceOf(ctx, sections, k);
    hide Mint, HangsUnder, SummaryId, IsSection, IsVisible, SectionAt;
  }

  function SummaryOrigin(sections: seq<Section>, k: nat): seq<Origin>
    requires k < |sections|
  {
    if HasSummary(sections[k]) then [SummaryOf([k])] else []
  }

  /** Where the records of the section at position k itself come from. */
  function OwnOrigins(ctx: Context, sections: seq<Section>, k: nat): seq<Origin>
    requires k < |sections|
  {
    SummaryOrigin(sections, k) + ChunkOrigins(k, |ChunksOf(ctx, sections[k])|)
  }

  lemma OwnDescribed(ctx: Context, docId: string, root: string, sections: seq<Section>, k: nat, counter: nat)
    requires k < |sections| && !ctx.isLowValue(sections[k].info.title)
    ensures Describes(OwnRecords(ctx, docId, sections[k], root, counter), OwnOrigins(ctx, sections, k),
                      ctx, docId, root, sections)
  {
    var section := sections[k];
    ChunksAre(ctx, section);
    SummaryDescribed(ctx, docId, root, sections, k);
    ChunksDescribed(ctx, docId, root, sections, k, counter);
    var chunks, parent := ChunksOf(ctx, section), ActiveParent(ctx, docId, section, root);
    hide Describes, ChunkRecords, ActiveParent, OwnSummary, SummaryOrigin, ChunkOrigins, OwnChunks, ChunksOf;
    DescribesJoin(OwnSummary(ctx, docId, section, root), SummaryOrigin(sections, k),
                  ChunkRecords(ctx, docId, section, chunks, |chunks|, parent, counter), ChunkOrigins(k, |chunks|),
                  ctx, docId, root, sections);
  }

  lemma OwnAscends(ctx: Context, sections: seq<Section>, k: nat)
    requires k < |sections|
    ensures Ascends(OwnOrigins(ctx, sections, k))
    ensures forall n :: 0 <= n < |OwnOrigins(ctx, sections, k)| ==> OwnOrigins(ctx, sections, k)[n].path == [k]
  {
    hide ChunksOf, ChunkOrigins, HasSummary;
  }

  lemma OwnComplete(ctx: Context, sections: seq<Section>, k: nat, origin: Origin)
    requires k < |sections| && IsOrigin(ctx, sections, origin) && origin.path == [k]
    ensures origin in OwnOrigins(ctx, sections, k)
  {
    hide ChunksOf, ChunkOrigins, HasSummary;
    if origin.ChunkOf? {
      var all, from := OwnOrigins(ctx, sections, k), |SummaryOrigin(sections, k)|;
      assert all[from + origin.offset] == origin;
    }
  }

  // ---------------------------------------------------------------- the sections below it

  function Lower(k: nat, origin: Origin): Origin {
    origin.(path := [k] + origin.path)
  }

  function Lowered(k: nat, origins: seq<Origin>): (lowered: seq<Origin>)
    ensures |lowered| == |origins|
    ensures forall n :: 0 <= n < |origins| ==> lowered[n] == Lower(k, origins[n])
  {
    seq(|origins|, n requires 0 <= n < |origins| => Lower(k, origins[n]))
  }

  lemma OriginDeeper(ctx: Context, sections: seq<Section>, k: nat, origin: Origin)
    requires k < |sections| && origin.path != []
    ensures IsOrigin(ctx, sections, Lower(k, origin)) <==>
            !ctx.isLowValue(sections[k].info.title) && IsOrigin(ctx, sections[k].children, origin)
  {
    Deeper(sections, k, origin.path);
    if IsSection(sections[k].children, origin.path) { DeeperVisible(ctx, sections, k, origin.path); }
    hide IsSection, IsVisible, SectionAt, ChunksOf, HasSummary;
  }

  lemma RecordDeeper(record: Record, ctx: Context, docId: string, root: string, sections: seq<Section>, k: nat,
                     origin: Origin)
    requires k < |sections| && !ctx.isLowValue(sections[k].info.title)
    requires IsRecordOf(record, ctx, docId, ActiveParent(ctx, docId, sections[k], root), sections[k].children, origin)
    ensures origin.path != [] && IsRecordOf(record, ctx, docId, root, sections, Lower(k, origin))
  {
    OriginIsSection(ctx, sections[k].children, origin);
    ActiveIs(ctx, docId, sections[k], root);
    OriginDeeper(ctx, sections, k, origin);
    Deeper(sections, k, origin.path);
    hide ActiveParent, IsOrigin, HangsUnder, IsSummaryRecord, IsChunkRecord, IsSection, SectionAt, HasSummary,
         SummaryId;
    var n := if origin.SummaryOf? then |origin.path| - 1 else |origin.path|;
    HangsDeeper(record.parentId, ctx, docId, root, sections, k, origin.path, n);
    assert Lower(k, origin).path == [k] + origin.path;
  }

  lemma BeforeDeeper(k: nat, a: Origin, b: Origin)
    requires Before(a, b)
    ensures Before(Lower(k, a), Lower(k, b))
  {
    assert ([k] + a.path)[1..] == a.path && ([k] + b.path)[1..] == b.path;
  }

  lemma BelowDescribed(records: seq<Record>, origins: seq<Origin>, ctx: Context, docId: string, root: string,
                       sections: seq<Section>, k: nat)
    requires k < |sections| && !ctx.isLowValue(sections[k].info.title)
    requires Accounts(records, origins, ctx, docId, ActiveParent(ctx, docId, sections[k], root), sections[k].children)
    ensures Describes(records, Lowered(k, origins), ctx, docId, root, sections) && Ascends(Lowered(k, origins))
    ensures forall n :: 0 <= n < |origins| ==> origins[n].path != []
  {
    hide IsRecordOf, Before, ActiveParent, Lowered, Lower, IsOrigin;
    var lowered := Lowered(k, origins);
    forall n | 0 <= n < |origins|
      ensures origins[n].path != [] && IsRecordOf(records[n], ctx, docId, root, sections, lowered[n])
    {
      RecordDeeper(records[n], ctx, docId, root, sections, k, origins[n]);
    }
    forall m, n | 0 <= m < n < |lowered| ensures Before(lowered[m], lowered[n]) {
      BeforeDeeper(k, origins[m], origins[n]);
    }
  }

  lemma OwnBeforeBelow(k: nat, own: Origin, below: Origin)
    requires own.path == [k] && below.path != []
    ensures Before(own, Lower(k, below))
  {
    assert ([k] + below.path)[1..] == below.path && [k][1..] == [];
  }

  lemma BelowComplete(origins: seq<Origin>, ctx: Context, sections: seq<Section>, k: nat, origin: Origin)
    requires k < |sections| && |origin.path| > 1 && origin.path[0] == k && IsOrigin(ctx, sections, origin)
    requires forall other :: IsOrigin(ctx, sections[k].children, other) ==> other in origins
    ensures origin in Lowered(k, origins)
  {
    hide IsOrigin, Lowered;
    var inner := origin.(path := origin.path[1..]);
    assert origin.path == [k] + inner.path;
    OriginDeeper(ctx, sections, k, inner);
    var n :| 0 <= n < |origins| && origins[n] == inner;
    assert Lowered(k, origins)[n] == origin;
  }

  /** The origins under a section are its own and those below it. */
  lemma SectionCovers(origins: seq<Origin>, ctx: Context, sections: seq<Section>, k: nat, origin: Origin)
    requires k < |sections| && IsOrigin(ctx, sections, origin) && StartsAt(origin.path, k)
    requires forall other :: IsOrigin(ctx, sections[k].children, other) ==> other in origins
    ensures origin in OwnOrigins(ctx, sections, k) + Lowered(k, origins)
  {
    hide OwnOrigins, Lowered, IsOrigin;
    if |origin.path| == 1 {
      assert origin.path == [k];
      OwnComplete(ctx, sections, k, origin);
    } else {
      BelowComplete(origins, ctx, sections, k, origin);
    }
  }

  lemma SectionAscends(origins: seq<Origin>, ctx: Context, sections: seq<Section>, k: nat)
    requires k < |sections| && Ascends(Lowered(k, origins))
    requires forall n :: 0 <= n < |origins| ==> origins[n].path != []
    ensures var all := OwnOrigins(ctx, sections, k) + Lowered(k, origins);
            Ascends(all) && forall n :: 0 <= n < |all| ==> StartsAt(all[n].path, k)
  {
    var mine, lowered := OwnOrigins(ctx, sections, k), Lowered(k, origins);
    OwnAscends(ctx, sections, k);
    hide OwnOrigins, Lowered, Ascends, Before;
    forall m, n | 0 <= m < |mine| && 0 <= n < |lowered| ensures Before(mine[m], lowered[n]) {
      OwnBeforeBelow(k, mine[m], origins[n]);
    }
    AscendsJoin(mine, lowered);
  }

  lemma AccountsComplete(records: seq<Record>, origins: seq<Origin>, ctx: Context, docId: string, root: string,
                         sections: seq<Section>, origin: Origin)
    requires Accounts(records, origins, ctx, docId, root, sections) && IsOrigin(ctx, sections, origin)
    ensures origin in origins
  {
  }

  /** A section's own records and those below it. */
  lemma SectionAccounts(own: seq<Record>, below: seq<Record>, origins: seq<Origin>, ctx: Context, docId: string,
                        root: string, sections: seq<Section>, k: nat, counter: nat)
    requires k < |sections| && !ctx.isLowValue(sections[k].info.title)
    requires own == OwnRecords(ctx, docId, sections[k], root, counter)
    requires Accounts(below, origins, ctx, docId, ActiveParent(ctx, docId, sections[k], root), sections[k].children)
    ensures AccountsAt(own + below, OwnOrigins(ctx, sections, k) + Lowered(k, origins), ctx, docId, root, sections, k)
  {
    var mine, lowered := OwnOrigins(ctx, sections, k), Lowered(k, origins);
    hide OwnRecords, ActiveParent, OwnOrigins, Lowered, Describes, Ascends, Accounts, IsOrigin, StartsAt;
    OwnDescribed(ctx, docId, root, sections, k, counter);
    BelowDescribed(below, origins, ctx, docId, root, sections, k);
    DescribesJoin(own, mine, below, lowered, ctx, docId, root, sections);
    SectionAscends(origins, ctx, sections, k);
    forall origin | IsOrigin(ctx, sections, origin) && StartsAt(origin.path, k) ensures origin in mine + lowered {
      forall other | IsOrigin(ctx, sections[k].children, other) ensures other in origins {
        AccountsComplete(below, origins, ctx, docId, ActiveParent(ctx, docId, sections[k], root),
                         sections[k].children, other);
      }
      SectionCovers(origins, ctx, sections, k, origin);
    }
  }

  lemma HiddenAccounts(ctx: Context, docId: string, root: string, sections: seq<Section>, k: nat)
    requires k < |sections| && ctx.isLowValue(sections[k].info.title)
    ensures AccountsAt([], [], ctx, docId, root, sections, k)
  {
  }

  lemma NoneAccounts(ctx: Context, docId: string, root: string)
    ensures Accounts([], [], ctx, docId, root, [])
  {
  }

  // ---------------------------------------------------------------- whole documents

  lemma SubtreeSplits(ctx: Context, docId: string, section: Section, root: string, counter: nat)
    ensures SubtreeRecords(ctx, docId, section, root, counter) ==
            if ctx.isLowValue(section.info.title) then []
            else
              OwnRecords(ctx, docId, section, root, counter)
              + Records(ctx, docId, section.children, ActiveParent(ctx, docId, section, root),
                        counter + |OwnChunks(ctx, section)|)
  {
    hide OwnRecords, Records, ActiveParent, OwnChunks;
  }

  lemma SubtreeHidden(ctx: Context, docId: string, root: string, sections: seq<Section>, k: nat, counter: nat)
    requires k < |sections| && ctx.isLowValue(sections[k].info.title)
    ensures AccountsAt(SubtreeRecords(ctx, docId, sections[k], root, counter), [], ctx, docId, root, sections, k)
  {
    SubtreeSplits(ctx, docId, sections[k], root, counter);
    HiddenAccounts(ctx, docId, root, sections, k);
    hide *;
  }

  lemma SubtreeShown(ctx: Context, docId: string, root: string, sections: seq<Section>, k: nat, counter: nat,
                     active: string, below: seq<Record>, origins: seq<Origin>)
    requires k < |sections| && !ctx.isLowValue(sections[k].info.title)
    requires active == ActiveParent(ctx, docId, sections[k], root)
    requires below == Records(ctx, docId, sections[k].children, active, counter + |OwnChunks(ctx, sections[k])|)
    requires Accounts(below, origins, ctx, docId, active, sections[k].children)
    ensures AccountsAt(SubtreeRecords(ctx, docId, sections[k], root, counter),
                       OwnOrigins(ctx, sections, k) + Lowered(k, origins), ctx, docId, root, sections, k)
  {
    hide *;
    SubtreeSplits(ctx, docId, sections[k], root, counter);
    SectionAccounts(OwnRecords(ctx, docId, sections[k], root, counter), below, origins, ctx, docId, root, sections, k,
                    counter);
  }

  lemma {:induction false} SubtreeAccounts(ctx: Context, docId: string, root: string, sections: seq<Section>, k: nat,
                                           counter: nat)
      returns (origins: seq<Origin>)
    requires k < |sections|
    ensures AccountsAt(SubtreeRecords(ctx, docId, sections[k], root, counter), origins, ctx, docId, root, sections, k)
    decreases sections, 0
  {
    hide *;
    if ctx.isLowValue(sections[k].info.title) {
      SubtreeHidden(ctx, docId, root, sections, k, counter);
      origins := [];
    } else {
      var active := ActiveParent(ctx, docId, sections[k], root);
      var from := counter + |OwnChunks(ctx, sections[k])|;
      var below := RecordsAccounts(ctx, docId, active, sections[k].children, from);
      SubtreeShown(ctx, docId, root, sections, k, counter, active,
                   Records(ctx, docId, sections[k].children, active, from), below);
      origins := OwnOrigins(ctx, sections, k) + Lowered(k, below);
    }
  }

  /** The records of a forest: one for every summary and every chunk of a section no
      boilerplate heading hides, in document order, each with its text, its id and its
      nearest summary as parent. */
  lemma {:induction false} RecordsAccounts(ctx: Context, docId: string, root: string, sections: seq<Section>,
                                           counter: nat)
      returns (origins: seq<Origin>)
    ensures Accounts(Records(ctx, docId, sections, root, counter), origins, ctx, docId, root, sections)
    decreases sections, 1
  {
    hide SubtreeRecords, ChunkCount, Accounts, AccountsAt;
    if sections == [] {
      NoneAccounts(ctx, docId, root);
      origins := [];
    } else {
      var k := |sections| - 1;
      var before := Records(ctx, docId, sections[..k], root, counter);
      var front := RecordsAccounts(ctx, docId, root, sections[..k], counter);
      var own := SubtreeAccounts(ctx, docId, root, sections, k, counter + ChunkCount(before));
      AccountsPut(before, front, SubtreeRecords(ctx, docId, sections[k], root, counter + ChunkCount(before)), own,
                  ctx, docId, root, sections);
      origins := front + own;
    }
  }

  /** A document's records: its own first, then those of its sections, the topmost of
      which hang under it. */
  lemma DocumentAccounts(ctx: Context, stem: string, forest: seq<Section>) returns (origins: seq<Origin>)
    ensures var records, docId := Document(ctx, stem, forest), ctx.digest("doc\0" + stem);
            && records != [] && records[0].kind == DocumentSummary && records[0].nodeId == docId
            && records[0].parentId == "" && records[0].title == stem
            && Accounts(records[1..], origins, ctx, docId, docId, forest)
  {
    hide Records, Accounts;
    TwoJoined("doc", stem);
    hide JoinNul;
    assert "doc" + "\0" + stem == "doc\0" + stem;
    var docId := DocId(ctx, stem);
    origins := RecordsAccounts(ctx, docId, docId, forest, 0);
  }

  // ---------------------------------------------------------------- numbers

  /** The places of the chunk records. */
  function ChunkPlaces(records: seq<Record>): set<nat> {
    set i: nat | i < |records| && records[i].kind == Chunk
  }

  lemma {:induction false} CountIs(records: seq<Record>)
    ensures ChunkCount(records) == |ChunkPlaces(records)|
  {
    if records == [] {
      assert ChunkPlaces(records) == {};
    } else {
      var n := |records| - 1;
      var front := ChunkPlaces(records[..n]);
      CountIs(records[..n]);
      if records[n].kind == Chunk {
        assert ChunkPlaces(records) == front + {n} && n !in front;
      } else {
        assert ChunkPlaces(records) == front;
      }
    }
  }

  /** A chunk's index is the number of chunks before it in the document. */
  lemma NumberIs(ctx: Context, stem: string, forest: seq<Section>, i: nat)
    requires i < |Document(ctx, stem, forest)|
    ensures var records := Document(ctx, stem, forest);
            records[i].chunkIndex == if records[i].kind == Chunk then |ChunkPlaces(records[..i])| else -1
  {
    hide Document, ChunkCount, ChunkPlaces;
    DocumentNumbered(ctx, stem, forest, i);
    CountIs(Document(ctx, stem, forest)[..i]);
  }

  predicate IsDigit(c: char) {
    '0' <= c <= '9'
  }

  /** What a string of digits stands for. */
  function Value(digits: string): int {
    if digits == "" then 0
    else Value(digits[..|digits| - 1]) * 10 + (digits[|digits| - 1] as int - '0' as int)
  }

  /** Decimal notation: digits, no leading zero but in zero itself, and the right value. */
  lemma {:induction false} StrIs(n: nat)
    ensures Value(Str(n)) == n && Str(n) != "" && (Str(n)[0] == '0' ==> Str(n) == "0")
    ensures forall i :: 0 <= i < |Str(n)| ==> IsDigit(Str(n)[i])
  {
    if n < 10 {
      assert Str(n)[..0] == "";
    } else {
      StrIs(n / 10);
      var front := Str(n / 10);
      assert Str(n)[..|front|] == front;
      assert front[0] == '0' ==> Value(front) == 0 by { assert Value("0") == 0 by { assert "0"[..0] == ""; } }
    }
  }
}
