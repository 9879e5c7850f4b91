/** Flattening a forest of sections into summary and chunk records. */
module SectionRecords {
  import opened SectionForest
  import SplitText

  datatype Kind = DocumentSummary | SectionSummary | Chunk

  datatype Record = Record(
    nodeId: string, parentId: string, kind: Kind, title: string, content: string, chunkIndex: int)

  /** What building records depends on besides the sections: the digest, the test for
      boilerplate headings, the text of a leaf, the intro of a parent up to its first
      child's heading, and the chunk sizes. */
  datatype Context = Context(
    digest: string -> string,
    isLowValue: string -> bool,
    contentOf: Info -> string,
    introOf: (Info, string) -> string,
    maxChars: nat,
    overlap: nat)

  function Digit(d: nat): char
    requires d < 10
  {
    ('0' as int + d) as char
  }

  /** Decimal notation. */
  function Str(n: nat): string {
    if n < 10 then [Digit(n)] else Str(n / 10) + [Digit(n % 10)]
  }

  // ---------------------------------------------------------------- record ids

  /** What an id is minted from. */
  datatype Key =
    | SummaryKey(section: string)
    | IntroKey(section: string, offset: nat)
    | ChunkKey(section: string, offset: nat)

  function Parts(docId: string, key: Key): seq<string> {
    match key
    case SummaryKey(section) => [docId, "summary", section]
    case IntroKey(section, offset) => [docId, "chunk", section, "intro", Str(offset)]
    case ChunkKey(section, offset) => [docId, "chunk", section, Str(offset)]
  }

  /** The parts of an id, a NUL between them. */
  function JoinNul(parts: seq<string>): string {
    if parts == [] then "" else if |parts| == 1 then parts[0] else parts[0] + ['\0'] + JoinNul(parts[1..])
  }

  function StableId(ctx: Context, parts: seq<string>): string {
    ctx.digest(JoinNul(parts))
  }

  function Mint(ctx: Context, docId: string, key: Key): string {
    StableId(ctx, Parts(docId, key))
  }

  // ---------------------------------------------------------------- specification

  function CreatesSummary(info: Info, children: bool): bool {
    info.level <= 1 || children
  }

  function KeyOf(section: Section, offset: nat): Key {
    if section.children != [] then IntroKey(section.info.id, offset) else ChunkKey(section.info.id, offset)
  }

  function OwnText(ctx: Context, section: Section): string {
    if section.children != [] then ctx.introOf(section.info, section.children[0].info.title)
    else ctx.contentOf(section.info)
  }

  function OwnChunks(ctx: Context, section: Section): seq<string> {
    SplitText.Chunks(OwnText(ctx, section), ctx.maxChars, ctx.overlap)
  }

  /** The first n chunk records of a section. */
  function ChunkRecords(ctx: Context, docId: string, section: Section, chunks: seq<string>, n: nat,
                        parent: string, counter: nat): seq<Record>
    requires n <= |chunks|
  {
    if n == 0 then [] else
      ChunkRecords(ctx, docId, section, chunks, n - 1, parent, counter) +
      [Record(Mint(ctx, docId, KeyOf(section, n - 1)), parent, Chunk, section.info.title, chunks[n - 1],
              counter + n - 1)]
  }

  function ChunkCount(records: seq<Record>): nat {
    if records == [] then 0
    else ChunkCount(records[..|records| - 1]) + if records[|records| - 1].kind == Chunk then 1 else 0
  }

  function SummaryRecord(ctx: Context, docId: string, info: Info, parent: string): Record {
    Record(Mint(ctx, docId, SummaryKey(info.id)), parent, SectionSummary, info.title, "", -1)
  }

  /** The summary parent of what a section contains. */
  function ActiveParent(ctx: Context, docId: string, section: Section, parent: string): string {
    if CreatesSummary(section.info, section.children != []) then Mint(ctx, docId, SummaryKey(section.info.id))
    else parent
  }

  function OwnSummary(ctx: Context, docId: string, section: Section, parent: string): seq<Record> {
    if CreatesSummary(section.info, section.children != []) then [SummaryRecord(ctx, docId, section.info, parent)]
    else []
  }

  /** The records of a section itself, without those below it. */
  function OwnRecords(ctx: Context, docId: string, section: Section, parent: string, counter: nat): seq<Record> {
    var chunks := OwnChunks(ctx, section);
    OwnSummary(ctx, docId, section, parent)
    + ChunkRecords(ctx, docId, section, chunks, |chunks|, ActiveParent(ctx, docId, section, parent), counter)
  }

  /** The records of consecutive sections under one parent, chunks numbered on. */
  function Records(ctx: Context, docId: string, sections: seq<Section>, parent: string, counter: nat): seq<Record>
    decreases sections, 1
  {
    if sections == [] then []
    else
      var before := Records(ctx, docId, sections[..|sections| - 1], parent, counter);
      before + SubtreeRecords(ctx, docId, sections[|sections| - 1], parent, counter + ChunkCount(before))
  }

  function SubtreeRecords(ctx: Context, docId: string, section: Section, parent: string, counter: nat): seq<Record>
    decreases section, 0
  {
    if ctx.isLowValue(section.info.title) then []
    else
      OwnRecords(ctx, docId, section, parent, counter) +
      Records(ctx, docId, section.children, ActiveParent(ctx, docId, section, parent),
              counter + |OwnChunks(ctx, section)|)
  }

  function DocId(ctx: Context, stem: string): string {
    StableId(ctx, ["doc", stem])
  }

  function Document(ctx: Context, stem: string, forest: seq<Section>): seq<Record> {
    [Record(DocId(ctx, stem), "", DocumentSummary, stem, "", -1)]
    + Records(ctx, DocId(ctx, stem), forest, DocId(ctx, stem), 0)
  }

  // ---------------------------------------------------------------- the program

  method AppendChunks(ctx: Context, docId: string, info: Info, intro: bool, ghost section: Section,
                      chunks: seq<string>, parent: string, counter: nat) returns (records: seq<Record>)
    requires info == section.info && intro == (section.children != [])
    ensures records == ChunkRecords(ctx, docId, section, chunks, |chunks|, parent, counter)
  {
    records := [];
    for offset: nat := 0 to |chunks|
      invariant records == ChunkRecords(ctx, docId, section, chunks, offset, parent, counter)
    {
      hide Mint;
      var key := if intro then IntroKey(info.id, offset) else ChunkKey(info.id, offset);
      records := records + [Record(Mint(ctx, docId, key), parent, Chunk, info.title, chunks[offset], counter + offset)];
    }
  }

  method CountChunks(records: seq<Record>) returns (n: nat)
    ensures n == ChunkCount(records)
  {
    n := 0;
    for i: nat := 0 to |records|
      invariant n == ChunkCount(records[..i])
    {
      assert records[..i + 1][..i] == records[..i];
      if records[i].kind == Chunk { n := n + 1; }
    }
    assert records[..|records|] == records;
  }

  lemma {:induction false} CountJoin(a: seq<Record>, b: seq<Record>)
    ensures ChunkCount(a + b) == ChunkCount(a) + ChunkCount(b)
    decreases |b|
  {
    if b == [] {
      assert a + b == a;
    } else {
      assert (a + b)[..|a + b| - 1] == a + b[..|b| - 1];
      CountJoin(a, b[..|b| - 1]);
    }
  }

  lemma RecordsStep(ctx: Context, docId: string, sections: seq<Section>, k: nat, parent: string, counter: nat,
                    records: seq<Record>, chunkCounter: nat, sub: seq<Record>)
    requires k < |sections|
    requires records == Records(ctx, docId, sections[..k], parent, counter)
    requires chunkCounter == counter + ChunkCount(records)
    requires sub == SubtreeRecords(ctx, docId, sections[k], parent, chunkCounter)
    ensures records + sub == Records(ctx, docId, sections[..k + 1], parent, counter)
    ensures chunkCounter + ChunkCount(sub) == counter + ChunkCount(records + sub)
  {
    hide SubtreeRecords, ChunkCount;
    assert sections[..k + 1][..k] == sections[..k];
    CountJoin(records, sub);
  }

  lemma SectionParts(ctx: Context, docId: string, tree: Section, parent: string, counter: nat,
                     summary: seq<Record>, active: string, chunks: seq<string>, own: seq<Record>, below: seq<Record>)
    requires !ctx.isLowValue(tree.info.title)
    requires summary == OwnSummary(ctx, docId, tree, parent) && active == ActiveParent(ctx, docId, tree, parent)
    requires chunks == OwnChunks(ctx, tree) && own == ChunkRecords(ctx, docId, tree, chunks, |chunks|, active, counter)
    requires below == Records(ctx, docId, tree.children, active, counter + |chunks|)
    ensures summary + own + below == SubtreeRecords(ctx, docId, tree, parent, counter)
  {
    hide Records, ChunkRecords, OwnChunks, OwnSummary, ActiveParent;
  }

  method OwnSummaryOf(ctx: Context, docId: string, node: SectionNode, ghost tree: Section,
                      ghost owned: set<SectionNode>, parent: string) returns (records: seq<Record>, active: string)
    requires Represents(node, tree, owned)
    ensures records == OwnSummary(ctx, docId, tree, parent) && active == ActiveParent(ctx, docId, tree, parent)
  {
    hide Mint;
    records, active := [], parent;
    if node.level <= 1 || node.children != [] {
      records := [SummaryRecord(ctx, docId, node.Describe(), parent)];
      active := Mint(ctx, docId, SummaryKey(node.nodeId));
    }
  }

  method OwnTextOf(ctx: Context, node: SectionNode, ghost tree: Section, ghost owned: set<SectionNode>)
      returns (text: string)
    requires Represents(node, tree, owned)
    ensures text == OwnText(ctx, tree)
  {
    if node.children != [] {
      assert Represents(node.children[0], tree.children[0], owned);
      text := ctx.introOf(node.Describe(), node.children[0].title);
    } else {
      text := ctx.contentOf(node.Describe());
    }
  }

  /** The records of one node's subtree. */
  method RecordsForSection(ctx: Context, docId: string, node: SectionNode, ghost tree: Section,
                           ghost owned: set<SectionNode>, parent: string, counter: nat)
      returns (records: seq<Record>)
    requires Represents(node, tree, owned)
    ensures records == SubtreeRecords(ctx, docId, tree, parent, counter)
    decreases tree, 0
  {
    if ctx.isLowValue(node.title) { return []; }
    ghost var summary, own, below;
    var active, text;
    records, active := OwnSummaryOf(ctx, docId, node, tree, owned, parent);
    summary := records;
    text := OwnTextOf(ctx, node, tree, owned);
    var chunks := SplitText.Split(text, ctx.maxChars, ctx.overlap);
    assert AllRepresent(node.children, tree.children, owned) && node.Describe() == tree.info;
    assert (node.children != []) == (tree.children != []) && chunks == OwnChunks(ctx, tree);
    hide *;
    var more := AppendChunks(ctx, docId, node.Describe(), node.children != [], tree, chunks, active, counter);
    records, own := records + more, more;
    more := RecordsForSections(ctx, docId, node.children, tree.children, owned, active, counter + |chunks|);
    records, below := records + more, more;
    assert !ctx.isLowValue(tree.info.title);
    SectionParts(ctx, docId, tree, parent, counter, summary, active, chunks, own, below);
  }

  /** The loop over sections that threads the chunk counter. */
  method RecordsForSections(ctx: Context, docId: string, nodes: seq<SectionNode>, ghost trees: seq<Section>,
                            ghost owned: set<SectionNode>, parent: string, counter: nat) returns (records: seq<Record>)
    requires AllRepresent(nodes, trees, owned)
    ensures records == Records(ctx, docId, trees, parent, counter)
    decreases trees, 1
  {
    records := [];
    var chunkCounter: nat := counter;
    assert |nodes| == |trees|;
    hide SubtreeRecords, Represents, Records, ChunkCount;
    NoRecords(ctx, docId, trees[..0], parent, counter);
    for k: nat := 0 to |nodes|
      invariant records == Records(ctx, docId, trees[..k], parent, counter)
      invariant chunkCounter == counter + ChunkCount(records)
    {
      var sub := RecordsForSection(ctx, docId, nodes[k], trees[k], owned, parent, chunkCounter);
      RecordsStep(ctx, docId, trees, k, parent, counter, records, chunkCounter, sub);
      records := records + sub;
      var n := CountChunks(sub);
      chunkCounter := chunkCounter + n;
    }
    assert trees[..|trees|] == trees;
  }

  lemma NoRecords(ctx: Context, docId: string, none: seq<Section>, parent: string, counter: nat)
    requires none == []
    ensures Records(ctx, docId, none, parent, counter) == [] && ChunkCount([]) == 0
  {
  }

  method BuildSectionRecords(ctx: Context, stem: string, sections: seq<SectionNode>, ghost forest: seq<Section>,
                             ghost owned: set<SectionNode>)
      returns (records: seq<Record>)
    requires AllRepresent(sections, forest, owned)
    ensures records == Document(ctx, stem, forest)
  {
    var docId := DocId(ctx, stem);
    var below := RecordsForSections(ctx, docId, sections, forest, owned, docId, 0);
    records := [Record(docId, "", DocumentSummary, stem, "", -1)] + below;
  }

  // ---------------------------------------------------------------- chunk numbering

  /** Chunks are numbered on from counter in list order; summaries carry -1. */
  ghost predicate Numbered(records: seq<Record>, counter: nat) {
    forall i :: 0 <= i < |records| ==> NumberedAt(records, counter, i)
  }

  ghost predicate NumberedAt(records: seq<Record>, counter: nat, i: nat)
    requires i < |records|
  {
    records[i].chunkIndex == if records[i].kind == Chunk then counter + ChunkCount(records[..i]) else -1
  }

  lemma NumberedJoin(a: seq<Record>, b: seq<Record>, counter: nat)
    requires Numbered(a, counter) && Numbered(b, counter + ChunkCount(a))
    ensures Numbered(a + b, counter) && ChunkCount(a + b) == ChunkCount(a) + ChunkCount(b)
  {
    hide ChunkCount;
    CountJoin(a, b);
    forall i | 0 <= i < |a + b| ensures NumberedAt(a + b, counter, i) {
      if i < |a| {
        assert (a + b)[..i] == a[..i] && NumberedAt(a, counter, i);
      } else {
        assert (a + b)[..i] == a + b[..i - |a|] && NumberedAt(b, counter + ChunkCount(a), i - |a|);
        CountJoin(a, b[..i - |a|]);
      }
    }
  }

  lemma NumberedOne(record: Record, counter: nat)
    requires record.chunkIndex == if record.kind == Chunk then counter else -1
    ensures Numbered([record], counter) && ChunkCount([record]) == if record.kind == Chunk then 1 else 0
  {
    assert [record][..0] == [];
    assert [record][..|[record]| - 1] == [];
  }

  lemma NumberedPut(records: seq<Record>, record: Record, counter: nat)
    requires Numbered(records, counter) && ChunkCount(records) == |records|
    requires record.kind == Chunk && record.chunkIndex == counter + |records|
    ensures Numbered(records + [record], counter) && ChunkCount(records + [record]) == |records + [record]|
  {
    hide Numbered, ChunkCount;
    NumberedOne(record, counter + |records|);
    NumberedJoin(records, [record], counter);
  }

  lemma {:induction false} ChunksNumbered(ctx: Context, docId: string, section: Section, chunks: seq<string>, n: nat,
                                          parent: string, counter: nat)
    requires n <= |chunks|
    ensures var own := ChunkRecords(ctx, docId, section, chunks, n, parent, counter);
            Numbered(own, counter) && ChunkCount(own) == n == |own|
  {
    if n > 0 {
      hide Numbered, ChunkCount, Mint;
      ChunksNumbered(ctx, docId, section, chunks, n - 1, parent, counter);
      var before := ChunkRecords(ctx, docId, section, chunks, n - 1, parent, counter);
      var last := Record(Mint(ctx, docId, KeyOf(section, n - 1)), parent, Chunk, section.info.title, chunks[n - 1],
                         counter + n - 1);
      NumberedPut(before, last, counter);
    }
  }

  lemma OwnNumbered(ctx: Context, docId: string, section: Section, parent: string, counter: nat)
    ensures var own := OwnRecords(ctx, docId, section, parent, counter);
            Numbered(own, counter) && ChunkCount(own) == |OwnChunks(ctx, section)|
  {
    hide Mint, Numbered, ChunkRecords, OwnChunks, ChunkCount, ActiveParent;
    var chunks := OwnChunks(ctx, section);
    var active := ActiveParent(ctx, docId, section, parent);
    var summary := OwnSummary(ctx, docId, section, parent);
    var own := ChunkRecords(ctx, docId, section, chunks, |chunks|, active, counter);
    if CreatesSummary(section.info, section.children != []) {
      NumberedOne(SummaryRecord(ctx, docId, section.info, parent), counter);
    } else {
      NumberedNone(counter);
    }
    ChunksNumbered(ctx, docId, section, chunks, |chunks|, active, counter);
    NumberedJoin(summary, own, counter);
  }

  lemma NumberedNone(counter: nat)
    ensures Numbered([], counter) && ChunkCount([]) == 0
  {
  }

  lemma {:induction false} SectionNumbered(ctx: Context, docId: string, section: Section, parent: string, counter: nat)
    ensures Numbered(SubtreeRecords(ctx, docId, section, parent, counter), counter)
    decreases section, 0
  {
    hide OwnRecords, Records, Numbered, ActiveParent, OwnChunks;
    if ctx.isLowValue(section.info.title) {
      NumberedNone(counter);
    } else {
      OwnNumbered(ctx, docId, section, parent, counter);
      var active := ActiveParent(ctx, docId, section, parent);
      var from := counter + |OwnChunks(ctx, section)|;
      RecordsNumbered(ctx, docId, section.children, active, from);
      NumberedJoin(OwnRecords(ctx, docId, section, parent, counter),
        Records(ctx, docId, section.children, active, from), counter);
    }
  }

  /** Whatever the forest, its chunks are numbered consecutively in record order. */
  lemma {:induction false} RecordsNumbered(ctx: Context, docId: string, sections: seq<Section>, parent: string,
                                           counter: nat)
    ensures Numbered(Records(ctx, docId, sections, parent, counter), counter)
    decreases sections, 1
  {
    hide SubtreeRecords, Numbered, ChunkCount;
    if sections == [] {
      NumberedNone(counter);
    } else {
      var before := Records(ctx, docId, sections[..|sections| - 1], parent, counter);
      var last := sections[|sections| - 1];
      RecordsNumbered(ctx, docId, sections[..|sections| - 1], parent, counter);
      SectionNumbered(ctx, docId, last, parent, counter + ChunkCount(before));
      NumberedJoin(before, SubtreeRecords(ctx, docId, last, parent, counter + ChunkCount(before)), counter);
    }
  }

  lemma NumberedDocument(ctx: Context, stem: string, forest: seq<Section>)
    ensures Numbered(Document(ctx, stem, forest), 0)
  {
    var docId := DocId(ctx, stem);
    var first := Record(docId, "", DocumentSummary, stem, "", -1);
    var below := Records(ctx, docId, forest, docId, 0);
    assert Document(ctx, stem, forest) == [first] + below;
    hide *;
    NumberedOne(first, 0);
    RecordsNumbered(ctx, docId, forest, docId, 0);
    NumberedJoin([first], below, 0);
  }

  /** In a document chunk_index is the number of chunks before the record. */
  lemma DocumentNumbered(ctx: Context, stem: string, forest: seq<Section>, i: nat)
    requires i < |Document(ctx, stem, forest)|
    ensures var records := Document(ctx, stem, forest);
            records[i].chunkIndex == if records[i].kind == Chunk then ChunkCount(records[..i]) else -1
  {
    hide Document, ChunkCount;
    NumberedDocument(ctx, stem, forest);
    assert NumberedAt(Document(ctx, stem, forest), 0, i);
  }

  // ---------------------------------------------------------------- parents

  /** Every record names as its parent the given summary or a summary before it. */
  ghost predicate Parented(records: seq<Record>, parent: string) {
    forall i :: 0 <= i < |records| ==> ParentedAt(records, parent, i)
  }

  ghost predicate ParentedAt(records: seq<Record>, parent: string, i: nat)
    requires i < |records|
  {
    records[i].parentId == parent || NamesSummary(records[..i], records[i].parentId)
  }

  ghost predicate NamesSummary(records: seq<Record>, id: string) {
    exists j :: 0 <= j < |records| && records[j].kind != Chunk && records[j].nodeId == id
  }

  lemma ParentedJoin(a: seq<Record>, b: seq<Record>, parent: string, active: string)
    requires Parented(a, parent) && Parented(b, active)
    requires active == parent || NamesSummary(a, active)
    ensures Parented(a + b, parent)
  {
    forall i | 0 <= i < |a + b| ensures ParentedAt(a + b, parent, i) {
      if i < |a| {
        assert (a + b)[..i] == a[..i] && ParentedAt(a, parent, i);
      } else {
        assert (a + b)[..i] == a + b[..i - |a|] && ParentedAt(b, active, i - |a|);
        NamesLonger(a, b[..i - |a|], active);
        NamesLonger(a, b[..i - |a|], b[i - |a|].parentId);
      }
    }
  }

  lemma NamesLonger(a: seq<Record>, b: seq<Record>, id: string)
    ensures NamesSummary(a, id) || NamesSummary(b, id) ==> NamesSummary(a + b, id)
  {
    if j :| 0 <= j < |a| && a[j].kind != Chunk && a[j].nodeId == id {
      assert (a + b)[j] == a[j];
    } else if j :| 0 <= j < |b| && b[j].kind != Chunk && b[j].nodeId == id {
      assert (a + b)[|a| + j] == b[j];
    }
  }

  lemma {:induction false} ChunksParented(ctx: Context, docId: string, section: Section, chunks: seq<string>, n: nat,
                                          parent: string, counter: nat)
    requires n <= |chunks|
    ensures Parented(ChunkRecords(ctx, docId, section, chunks, n, parent, counter), parent)
  {
    if n > 0 {
      hide NamesSummary, Mint;
      ChunksParented(ctx, docId, section, chunks, n - 1, parent, counter);
      var before := ChunkRecords(ctx, docId, section, chunks, n - 1, parent, counter);
      var last :=
        [Record(Mint(ctx, docId, KeyOf(section, n - 1)), parent, Chunk, section.info.title, chunks[n - 1],
              counter + n - 1)];
      SameParent(last, parent);
      ParentedJoin(before, last, parent, parent);
      assert ChunkRecords(ctx, docId, section, chunks, n, parent, counter) == before + last;
    }
  }

  lemma OwnParented(ctx: Context, docId: string, section: Section, parent: string, counter: nat)
    ensures var own := OwnRecords(ctx, docId, section, parent, counter);
            var active := ActiveParent(ctx, docId, section, parent);
            Parented(own, parent) && (active == parent || NamesSummary(own, active))
  {
    hide Mint, Parented, ChunkRecords, OwnChunks;
    var chunks := OwnChunks(ctx, section);
    var active := ActiveParent(ctx, docId, section, parent);
    var summary := OwnSummary(ctx, docId, section, parent);
    var own := ChunkRecords(ctx, docId, section, chunks, |chunks|, active, counter);
    if CreatesSummary(section.info, section.children != []) {
      assert summary[0].kind != Chunk && summary[0].nodeId == active;
    }
    SameParent(summary, parent);
    ChunksParented(ctx, docId, section, chunks, |chunks|, active, counter);
    ParentedJoin(summary, own, parent, active);
    NamesLonger(summary, own, active);
  }

  lemma SameParent(summary: seq<Record>, parent: string)
    requires forall i :: 0 <= i < |summary| ==> summary[i].parentId == parent
    ensures Parented(summary, parent)
  {
  }

  lemma {:induction false} SectionParented(ctx: Context, docId: string, section: Section, parent: string, counter: nat)
    ensures Parented(SubtreeRecords(ctx, docId, section, parent, counter), parent)
    decreases section, 0
  {
    hide OwnRecords, Records, Parented, ActiveParent, OwnChunks, NamesSummary;
    if ctx.isLowValue(section.info.title) {
      SameParent([], parent);
    } else {
      OwnParented(ctx, docId, section, parent, counter);
      var active := ActiveParent(ctx, docId, section, parent);
      var from := counter + |OwnChunks(ctx, section)|;
      RecordsParented(ctx, docId, section.children, active, from);
      ParentedJoin(OwnRecords(ctx, docId, section, parent, counter),
                   Records(ctx, docId, section.children, active, from),
                   parent, active);
    }
  }

  lemma {:induction false} RecordsParented(ctx: Context, docId: string, sections: seq<Section>, parent: string,
                                           counter: nat)
    ensures Parented(Records(ctx, docId, sections, parent, counter), parent)
    decreases sections, 1
  {
    hide SubtreeRecords, Parented, ChunkCount, NamesSummary;
    if sections == [] {
      SameParent([], parent);
    } else {
      var before := Records(ctx, docId, sections[..|sections| - 1], parent, counter);
      var last := sections[|sections| - 1];
      RecordsParented(ctx, docId, sections[..|sections| - 1], parent, counter);
      SectionParented(ctx, docId, last, parent, counter + ChunkCount(before));
      ParentedJoin(before, SubtreeRecords(ctx, docId, last, parent, counter + ChunkCount(before)), parent, parent);
    }
  }

  /** Every record of a document after the first has a summary record before it as parent. */
  lemma EarlierParent(ctx: Context, stem: string, forest: seq<Section>, i: nat) returns (j: nat)
    requires 0 < i < |Document(ctx, stem, forest)|
    ensures var records := Document(ctx, stem, forest);
            j < i && records[j].kind != Chunk && records[i].parentId == records[j].nodeId
  {
    hide Records;
    var docId := DocId(ctx, stem);
    var below := Records(ctx, docId, forest, docId, 0);
    RecordsParented(ctx, docId, forest, docId, 0);
    assert ParentedAt(below, docId, i - 1);
    if below[i - 1].parentId == docId {
      j := 0;
    } else {
      var k :| 0 <= k < i - 1 && below[k].kind != Chunk && below[k].nodeId == below[i - 1].parentId;
      j := k + 1;
    }
  }
}
