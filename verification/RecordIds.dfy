/** Which sections give records, and that no two records of a document share an id. */
module RecordIds {
  import opened SectionForest
  import Levels
  import Outline
  import opened SectionRecords

  // ---------------------------------------------------------------- visible sections

  /** The sections in document order, whole subtrees under a boilerplate heading left out. */
  function Visible(ctx: Context, sections: seq<Section>): seq<Section>
    decreases sections, 1
  {
    if sections == [] then []
    else Visible(ctx, sections[..|sections| - 1]) + VisibleOf(ctx, sections[|sections| - 1])
  }

  function VisibleOf(ctx: Context, section: Section): seq<Section>
    decreases section, 0
  {
    if ctx.isLowValue(section.info.title) then [] else [section] + Visible(ctx, section.children)
  }

  /** A record without its place in the document. */
  function Bare(record: Record): Record {
    record.(parentId := "", chunkIndex := 0)
  }

  function BareAll(records: seq<Record>): seq<Record> {
    if records == [] then [] else BareAll(records[..|records| - 1]) + [Bare(records[|records| - 1])]
  }

  /** What each section gives by itself, section after section. */
  function Pieces(ctx: Context, docId: string, sections: seq<Section>): seq<Record> {
    if sections == [] then []
    else Pieces(ctx, docId, sections[..|sections| - 1]) + Own(ctx, docId, sections[|sections| - 1])
  }

  function Own(ctx: Context, docId: string, section: Section): seq<Record> {
    BareAll(OwnRecords(ctx, docId, section, "", 0))
  }

  lemma {:induction false} BareJoin(a: seq<Record>, b: seq<Record>)
    ensures BareAll(a + b) == BareAll(a) + BareAll(b)
    decreases |b|
  {
    if b == [] {
      assert a + b == a;
    } else {
      assert (a + b)[..|a + b| - 1] == a + b[..|b| - 1];
      BareJoin(a, b[..|b| - 1]);
    }
  }

  lemma {:induction false} BareAt(records: seq<Record>)
    ensures |BareAll(records)| == |records|
    ensures forall i :: 0 <= i < |records| ==> BareAll(records)[i] == Bare(records[i])
  {
    if records != [] {
      BareAt(records[..|records| - 1]);
    }
  }

  lemma {:induction false} PiecesJoin(ctx: Context, docId: string, a: seq<Section>, b: seq<Section>)
    ensures Pieces(ctx, docId, a + b) == Pieces(ctx, docId, a) + Pieces(ctx, docId, b)
    decreases |b|
  {
    hide Own;
    if b == [] {
      assert a + b == a;
    } else {
      assert (a + b)[..|a + b| - 1] == a + b[..|b| - 1];
      PiecesJoin(ctx, docId, a, b[..|b| - 1]);
    }
  }

  lemma PiecesOne(ctx: Context, docId: string, section: Section)
    ensures Pieces(ctx, docId, [section]) == Own(ctx, docId, section)
  {
    hide Own;
    assert [section][..|[section]| - 1] == [];
  }

  lemma {:induction false} ChunksPlaceless(ctx: Context, docId: string, section: Section, chunks: seq<string>, n: nat,
                                           parent: string, counter: nat)
    requires n <= |chunks|
    ensures BareAll(ChunkRecords(ctx, docId, section, chunks, n, parent, counter)) ==
            BareAll(ChunkRecords(ctx, docId, section, chunks, n, "", 0))
  {
    if n > 0 {
      hide Mint, BareAll;
      ChunksPlaceless(ctx, docId, section, chunks, n - 1, parent, counter);
      var id := Mint(ctx, docId, KeyOf(section, n - 1));
      var there := Record(id, parent, Chunk, section.info.title, chunks[n - 1], counter + n - 1);
      var here := Record(id, "", Chunk, section.info.title, chunks[n - 1], n - 1);
      BareOne(there);
      BareOne(here);
      BareJoin(ChunkRecords(ctx, docId, section, chunks, n - 1, parent, counter), [there]);
      BareJoin(ChunkRecords(ctx, docId, section, chunks, n - 1, "", 0), [here]);
    }
  }

  lemma BareOne(record: Record)
    ensures BareAll([record]) == [Bare(record)]
  {
    assert [record][..|[record]| - 1] == [];
  }

  lemma OwnPlaceless(ctx: Context, docId: string, section: Section, parent: string, counter: nat)
    ensures BareAll(OwnRecords(ctx, docId, section, parent, counter)) == Own(ctx, docId, section)
  {
    hide Mint, BareAll, ChunkRecords, OwnChunks, ActiveParent;
    var chunks := OwnChunks(ctx, section);
    var active, none := ActiveParent(ctx, docId, section, parent), ActiveParent(ctx, docId, section, "");
    if CreatesSummary(section.info, section.children != []) {
      BareOne(SummaryRecord(ctx, docId, section.info, parent));
      BareOne(SummaryRecord(ctx, docId, section.info, ""));
    }
    ChunksPlaceless(ctx, docId, section, chunks, |chunks|, active, counter);
    ChunksPlaceless(ctx, docId, section, chunks, |chunks|, none, 0);
    BareJoin(OwnSummary(ctx, docId, section, parent),
      ChunkRecords(ctx, docId, section, chunks, |chunks|, active, counter));
    BareJoin(OwnSummary(ctx, docId, section, ""), ChunkRecords(ctx, docId, section, chunks, |chunks|, none, 0));
  }

  lemma {:induction false} SectionPieces(ctx: Context, docId: string, section: Section, parent: string, counter: nat)
    ensures BareAll(SubtreeRecords(ctx, docId, section, parent, counter)) == Pieces(ctx, docId, VisibleOf(ctx, section))
    decreases section, 0
  {
    hide OwnRecords, Records, Pieces, Visible, ActiveParent, OwnChunks, BareAll, Own;
    if ctx.isLowValue(section.info.title) {
      NoPieces(ctx, docId);
    } else {
      var active := ActiveParent(ctx, docId, section, parent);
      var from := counter + |OwnChunks(ctx, section)|;
      OwnPlaceless(ctx, docId, section, parent, counter);
      RecordsPieces(ctx, docId, section.children, active, from);
      BareJoin(OwnRecords(ctx, docId, section, parent, counter), Records(ctx, docId, section.children, active, from));
      PiecesJoin(ctx, docId, [section], Visible(ctx, section.children));
      PiecesOne(ctx, docId, section);
    }
  }

  lemma NoPieces(ctx: Context, docId: string)
    ensures BareAll([]) == Pieces(ctx, docId, [])
  {
  }

  /** The records are what the visible sections give, in document order: nothing of a
      boilerplate subtree, all of every other section. */
  lemma {:induction false} RecordsPieces(ctx: Context, docId: string, sections: seq<Section>, parent: string,
                                         counter: nat)
    ensures BareAll(Records(ctx, docId, sections, parent, counter)) == Pieces(ctx, docId, Visible(ctx, sections))
    decreases sections, 1
  {
    hide SubtreeRecords, Pieces, BareAll, VisibleOf, ChunkCount;
    if sections == [] {
      NoPieces(ctx, docId);
    } else {
      var before := Records(ctx, docId, sections[..|sections| - 1], parent, counter);
      var last := sections[|sections| - 1];
      RecordsPieces(ctx, docId, sections[..|sections| - 1], parent, counter);
      SectionPieces(ctx, docId, last, parent, counter + ChunkCount(before));
      BareJoin(before, SubtreeRecords(ctx, docId, last, parent, counter + ChunkCount(before)));
      PiecesJoin(ctx, docId, Visible(ctx, sections[..|sections| - 1]), VisibleOf(ctx, last));
    }
  }

  // ---------------------------------------------------------------- ids of parts

  predicate NulFree(s: string) {
    '\0' !in s
  }

  predicate AllNulFree(parts: seq<string>) {
    forall i :: 0 <= i < |parts| ==> NulFree(parts[i])
  }

  /** The text up to the first NUL is determined by the whole. */
  lemma FirstPart(x: string, r: string, y: string, s: string)
    requires NulFree(x) && NulFree(y) && x + ['\0'] + r == y + ['\0'] + s
    ensures x == y && r == s
  {
    var whole := x + ['\0'] + r;
    assert whole[|x|] == '\0' && whole[|y|] == '\0';
    assert forall i :: 0 <= i < |x| ==> whole[i] == x[i];
    assert forall i :: 0 <= i < |y| ==> whole[i] == y[i];
    assert |x| == |y|;
    assert x == whole[..|x|] == y;
    assert r == whole[|x| + 1..] == s;
  }

  lemma JoinNulMarks(parts: seq<string>)
    ensures |parts| > 1 ==> !NulFree(JoinNul(parts))
    ensures |parts| == 1 ==> JoinNul(parts) == parts[0]
  {
    if |parts| > 1 { assert JoinNul(parts)[|parts[0]|] == '\0'; }
  }

  /** Joining with NUL keeps apart any two lists of NUL-free parts. */
  lemma {:induction false} JoinNulInjective(a: seq<string>, b: seq<string>)
    requires a != [] && b != [] && AllNulFree(a) && AllNulFree(b) && JoinNul(a) == JoinNul(b)
    ensures a == b
  {
    assert NulFree(a[0]) && NulFree(b[0]);
    if |a| > 1 && |b| > 1 {
      FirstPart(a[0], JoinNul(a[1..]), b[0], JoinNul(b[1..]));
      JoinNulInjective(a[1..], b[1..]);
      assert a == [a[0]] + a[1..] && b == [b[0]] + b[1..];
    } else {
      JoinNulMarks(a);
      JoinNulMarks(b);
    }
  }

  lemma StrParts(n: nat)
    ensures |Str(n)| >= 1 && Str(n)[|Str(n)| - 1] == Digit(n % 10) && (|Str(n)| == 1 <==> n < 10)
    ensures n >= 10 ==> Str(n)[..|Str(n)| - 1] == Str(n / 10)
  {
    hide Digit;
    if n >= 10 { StrNonEmpty(n / 10); }
  }

  lemma StrNonEmpty(n: nat)
    ensures |Str(n)| >= 1
  {
  }

  lemma {:induction false} StrInjective(m: nat, n: nat)
    requires Str(m) == Str(n)
    ensures m == n
  {
    hide Str, Digit;
    StrParts(m);
    StrParts(n);
    DigitInjective(m % 10, n % 10);
    if m >= 10 { StrInjective(m / 10, n / 10); }
  }

  lemma DigitInjective(a: nat, b: nat)
    requires a < 10 && b < 10
    ensures Digit(a) == Digit(b) ==> a == b
    ensures Digit(a) != '\0'
  {
    assert Digit(a) as int == '0' as int + a && Digit(b) as int == '0' as int + b;
  }

  lemma {:induction false} StrNulFree(n: nat)
    ensures NulFree(Str(n))
  {
    DigitInjective(n % 10, n % 10);
    if n >= 10 { StrNulFree(n / 10); }
  }

  /** The digest never maps two texts to one value, and its values hold no NUL. */
  ghost predicate Collisionless(ctx: Context) {
    && (forall a, b :: ctx.digest(a) == ctx.digest(b) ==> a == b)
    && (forall a :: NulFree(ctx.digest(a)))
  }

  lemma PartsNulFree(docId: string, key: Key)
    requires NulFree(docId) && NulFree(key.section)
    ensures AllNulFree(Parts(docId, key)) && |Parts(docId, key)| >= 3
  {
    match key {
      case SummaryKey(section) =>
      case IntroKey(section, offset) => StrNulFree(offset);
      case ChunkKey(section, offset) => StrNulFree(offset);
    }
  }

  /** Equal ids come from one section and the same place in it. */
  lemma MintInjective(ctx: Context, docId: string, a: Key, b: Key)
    requires Collisionless(ctx) && NulFree(docId) && NulFree(a.section) && NulFree(b.section)
    requires Mint(ctx, docId, a) == Mint(ctx, docId, b)
    ensures a == b
  {
    PartsNulFree(docId, a);
    PartsNulFree(docId, b);
    assert JoinNul(Parts(docId, a)) == JoinNul(Parts(docId, b));
    JoinNulInjective(Parts(docId, a), Parts(docId, b));
    PartsInjective(docId, a, b);
  }

  lemma PartsInjective(docId: string, a: Key, b: Key)
    requires Parts(docId, a) == Parts(docId, b)
    ensures a == b
  {
    var parts := Parts(docId, a);
    assert parts[2] == a.section && Parts(docId, b)[2] == b.section;
    assert |parts| == if a.SummaryKey? then 3 else if a.ChunkKey? then 4 else 5;
    assert |Parts(docId, b)| == if b.SummaryKey? then 3 else if b.ChunkKey? then 4 else 5;
    if a.ChunkKey? {
      assert parts[3] == Str(a.offset) && Parts(docId, b)[3] == Str(b.offset);
      StrInjective(a.offset, b.offset);
    } else if a.IntroKey? {
      assert parts[4] == Str(a.offset) && Parts(docId, b)[4] == Str(b.offset);
      StrInjective(a.offset, b.offset);
    }
  }

  // ---------------------------------------------------------------- distinct ids

  /** What the i-th record of a section is minted from. */
  function OwnKey(section: Section, i: nat): Key {
    if !CreatesSummary(section.info, section.children != []) then KeyOf(section, i)
    else if i == 0 then SummaryKey(section.info.id)
    else KeyOf(section, i - 1)
  }

  lemma {:induction false} ChunkIds(ctx: Context, docId: string, section: Section, chunks: seq<string>, n: nat,
                                    parent: string, counter: nat, i: nat)
    requires i < n <= |chunks|
    ensures var own := ChunkRecords(ctx, docId, section, chunks, n, parent, counter);
            |own| == n && own[i].nodeId == Mint(ctx, docId, KeyOf(section, i))
  {
    hide Mint;
    if i < n - 1 {
      ChunkIds(ctx, docId, section, chunks, n - 1, parent, counter, i);
    } else if n > 1 {
      ChunkIds(ctx, docId, section, chunks, n - 1, parent, counter, 0);
    }
  }

  lemma OwnIds(ctx: Context, docId: string, section: Section, i: nat)
    requires i < |Own(ctx, docId, section)|
    ensures Own(ctx, docId, section)[i].nodeId == Mint(ctx, docId, OwnKey(section, i))
  {
    hide Mint, ChunkRecords, OwnChunks, BareAll, ActiveParent;
    var records := OwnRecords(ctx, docId, section, "", 0);
    var chunks := OwnChunks(ctx, section);
    BareAt(records);
    var active := ActiveParent(ctx, docId, section, "");
    var from := |OwnSummary(ctx, docId, section, "")|;
    ChunkRecordsLength(ctx, docId, section, chunks, |chunks|, active, 0);
    if i >= from {
      ChunkIds(ctx, docId, section, chunks, |chunks|, active, 0, i - from);
    }
  }

  lemma {:induction false} ChunkRecordsLength(ctx: Context, docId: string, section: Section, chunks: seq<string>,
                                              n: nat, parent: string, counter: nat)
    requires n <= |chunks|
    ensures |ChunkRecords(ctx, docId, section, chunks, n, parent, counter)| == n
  {
    hide Mint;
    if n > 0 { ChunkRecordsLength(ctx, docId, section, chunks, n - 1, parent, counter); }
  }

  /** Each piece comes from one of the sections, at one of its places. */
  lemma {:induction false} Origin(ctx: Context, docId: string, sections: seq<Section>, i: nat) returns (k: nat, at: nat)
    requires i < |Pieces(ctx, docId, sections)|
    ensures k < |sections| && Pieces(ctx, docId, sections)[i].nodeId == Mint(ctx, docId, OwnKey(sections[k], at))
  {
    hide Own, Mint, OwnKey;
    var before := Pieces(ctx, docId, sections[..|sections| - 1]);
    if i < |before| {
      k, at := Origin(ctx, docId, sections[..|sections| - 1], i);
    } else {
      k, at := |sections| - 1, i - |before|;
      OwnIds(ctx, docId, sections[k], at);
    }
  }

  ghost predicate DistinctIds(records: seq<Record>) {
    forall i, j :: 0 <= i < j < |records| ==> records[i].nodeId != records[j].nodeId
  }

  ghost predicate DistinctSections(sections: seq<Section>) {
    && (forall i :: 0 <= i < |sections| ==> NulFree(sections[i].info.id))
    && (forall i, j :: 0 <= i < j < |sections| ==> sections[i].info.id != sections[j].info.id)
  }

  lemma OwnKeyFacts(section: Section, i: nat, j: nat)
    ensures OwnKey(section, i).section == section.info.id
    ensures i != j ==> OwnKey(section, i) != OwnKey(section, j)
  {
  }

  lemma {:induction false} PiecesDistinct(ctx: Context, docId: string, sections: seq<Section>)
    requires Collisionless(ctx) && NulFree(docId) && DistinctSections(sections)
    ensures DistinctIds(Pieces(ctx, docId, sections))
  {
    hide Own, Mint, OwnKey, Collisionless;
    if sections != [] {
      var front, last := sections[..|sections| - 1], sections[|sections| - 1];
      PiecesDistinct(ctx, docId, front);
      var before, own := Pieces(ctx, docId, front), Own(ctx, docId, last);
      var all := Pieces(ctx, docId, sections);
      assert all == before + own;
      forall i, j | 0 <= i < j < |all| ensures all[i].nodeId != all[j].nodeId {
        if j >= |before| {
          OwnIds(ctx, docId, last, j - |before|);
          var there := OwnKey(last, j - |before|);
          OwnKeyFacts(last, j - |before|, 0);
          var here;
          if i < |before| {
            var k, at := Origin(ctx, docId, front, i);
            here := OwnKey(front[k], at);
            OwnKeyFacts(front[k], at, at);
          } else {
            OwnIds(ctx, docId, last, i - |before|);
            OwnKeyFacts(last, i - |before|, j - |before|);
            here := OwnKey(last, i - |before|);
          }
          if all[i].nodeId == all[j].nodeId { MintInjective(ctx, docId, here, there); }
        }
      }
    }
  }

  // ---------------------------------------------------------------- whole documents

  function InfoIds(infos: seq<Info>): seq<string> {
    if infos == [] then [] else InfoIds(infos[..|infos| - 1]) + [infos[|infos| - 1].id]
  }

  lemma {:induction false} InfoIdsJoin(a: seq<Info>, b: seq<Info>)
    ensures InfoIds(a + b) == InfoIds(a) + InfoIds(b)
    decreases |b|
  {
    if b == [] {
      assert a + b == a;
    } else {
      assert (a + b)[..|a + b| - 1] == a + b[..|b| - 1];
      InfoIdsJoin(a, b[..|b| - 1]);
    }
  }

  lemma {:induction false} InfoIdsAt(infos: seq<Info>)
    ensures |InfoIds(infos)| == |infos| && forall i :: 0 <= i < |infos| ==> InfoIds(infos)[i] == infos[i].id
  {
    if infos != [] { InfoIdsAt(infos[..|infos| - 1]); }
  }

  predicate AllDistinct(ids: seq<string>) {
    forall i, j :: 0 <= i < j < |ids| ==> ids[i] != ids[j]
  }

  /** The sections' ids are among those given, and differ. */
  ghost predicate DrawnFrom(sections: seq<Section>, ids: seq<string>) {
    && (forall i :: 0 <= i < |sections| ==> sections[i].info.id in ids)
    && (forall i, j :: 0 <= i < j < |sections| ==> sections[i].info.id != sections[j].info.id)
  }

  lemma DrawnJoin(a: seq<Section>, b: seq<Section>, x: seq<string>, y: seq<string>)
    requires AllDistinct(x + y)
    requires AllDistinct(x) ==> DrawnFrom(a, x)
    requires AllDistinct(y) ==> DrawnFrom(b, y)
    ensures DrawnFrom(a + b, x + y)
  {
    DistinctParts(x, y);
    assert DrawnFrom(a, x) && DrawnFrom(b, y);
    forall i, j | 0 <= i < |a| && 0 <= j < |b| ensures a[i].info.id != b[j].info.id {
      assert a[i].info.id in x && b[j].info.id in y;
      var p :| 0 <= p < |x| && x[p] == a[i].info.id;
      var q :| 0 <= q < |y| && y[q] == b[j].info.id;
      assert (x + y)[p] == x[p] && (x + y)[|x| + q] == y[q];
    }
  }

  lemma DistinctParts(x: seq<string>, y: seq<string>)
    requires AllDistinct(x + y)
    ensures AllDistinct(x) && AllDistinct(y)
  {
    var all := x + y;
    forall i, j | 0 <= i < j < |x| ensures x[i] != x[j] { assert all[i] == x[i] && all[j] == x[j]; }
    forall i, j | 0 <= i < j < |y| ensures y[i] != y[j] { assert all[|x| + i] == y[i] && all[|x| + j] == y[j]; }
  }

  lemma {:induction false} VisibleOfDrawn(ctx: Context, section: Section)
    requires AllDistinct(InfoIds([section.info] + Preorder(section.children)))
    ensures DrawnFrom(VisibleOf(ctx, section), InfoIds([section.info] + Preorder(section.children)))
    decreases section, 0
  {
    var below := InfoIds(Preorder(section.children));
    InfoIdsJoin([section.info], Preorder(section.children));
    InfoIdsAt([section.info]);
    hide Preorder, Visible, InfoIds;
    if !ctx.isLowValue(section.info.title) {
      assert InfoIds([section.info]) == [section.info.id];
      assert DrawnFrom([section], [section.info.id]);
      DistinctParts([section.info.id], below);
      VisibleDrawn(ctx, section.children);
      DrawnJoin([section], Visible(ctx, section.children), [section.info.id], below);
    }
  }

  /** Leaving out subtrees leaves distinct ids distinct. */
  lemma {:induction false} VisibleDrawn(ctx: Context, sections: seq<Section>)
    requires AllDistinct(InfoIds(Preorder(sections)))
    ensures DrawnFrom(Visible(ctx, sections), InfoIds(Preorder(sections)))
    decreases sections, 1
  {
    hide Preorder, VisibleOf, InfoIds, DrawnFrom;
    if sections == [] {
      NoneDrawn(InfoIds(Preorder(sections)));
    } else {
      var front, last := sections[..|sections| - 1], sections[|sections| - 1];
      PreorderLast(sections);
      var before, below := Preorder(front), [last.info] + Preorder(last.children);
      assert Preorder(sections) == before + below;
      InfoIdsJoin(before, below);
      DistinctParts(InfoIds(before), InfoIds(below));
      VisibleDrawn(ctx, front);
      VisibleOfDrawn(ctx, last);
      DrawnJoin(Visible(ctx, front), VisibleOf(ctx, last), InfoIds(before), InfoIds(below));
    }
  }

  lemma NoneDrawn(ids: seq<string>)
    ensures DrawnFrom([], ids)
  {
  }

  ghost predicate GoodIds(ids: seq<string>) {
    AllDistinct(ids) && AllNulFree(ids)
  }

  lemma DrawnAreDistinct(sections: seq<Section>, ids: seq<string>)
    requires DrawnFrom(sections, ids) && GoodIds(ids)
    ensures DistinctSections(sections)
  {
  }

  lemma BareDistinct(records: seq<Record>)
    requires DistinctIds(BareAll(records))
    ensures DistinctIds(records)
  {
    hide BareAll;
    BareAt(records);
  }

  /** Given distinct section ids and no digest collision, no two records below the
      document's own share an id. */
  lemma RecordsDistinct(ctx: Context, docId: string, forest: seq<Section>, parent: string, counter: nat)
    requires Collisionless(ctx) && NulFree(docId) && GoodIds(InfoIds(Preorder(forest)))
    ensures DistinctIds(Records(ctx, docId, forest, parent, counter))
  {
    hide Collisionless, Records, Preorder, InfoIds, Visible, Pieces, DrawnFrom, DistinctSections, DistinctIds;
    VisibleDrawn(ctx, forest);
    DrawnAreDistinct(Visible(ctx, forest), InfoIds(Preorder(forest)));
    PiecesDistinct(ctx, docId, Visible(ctx, forest));
    RecordsPieces(ctx, docId, forest, parent, counter);
    BareDistinct(Records(ctx, docId, forest, parent, counter));
  }

  /** The id of the document differs from every id minted below it. */
  lemma DocumentIdApart(ctx: Context, stem: string, key: Key)
    requires Collisionless(ctx) && NulFree(stem) && NulFree(key.section)
    ensures DocId(ctx, stem) != Mint(ctx, DocId(ctx, stem), key)
  {
    var docId := DocId(ctx, stem);
    assert NulFree(docId);
    PartsNulFree(docId, key);
    assert AllNulFree(["doc", stem]);
    if docId == Mint(ctx, docId, key) { JoinNulInjective(["doc", stem], Parts(docId, key)); }
  }

  lemma {:induction false} VisibleIdNulFree(ctx: Context, forest: seq<Section>, k: nat)
    requires GoodIds(InfoIds(Preorder(forest))) && k < |Visible(ctx, forest)|
    ensures NulFree(Visible(ctx, forest)[k].info.id)
  {
    hide Preorder, InfoIds, Visible;
    VisibleDrawn(ctx, forest);
  }

  /** No two records of a document share an id. */
  lemma DocumentDistinct(ctx: Context, stem: string, forest: seq<Section>)
    requires Collisionless(ctx) && NulFree(stem) && GoodIds(InfoIds(Preorder(forest)))
    ensures DistinctIds(Document(ctx, stem, forest))
  {
    hide Records, Preorder, InfoIds, GoodIds, Visible, Pieces, DocId, Mint, OwnKey, BareAll;
    var docId := DocId(ctx, stem);
    DocIdNulFree(ctx, stem);
    var below := Records(ctx, docId, forest, docId, 0);
    RecordsDistinct(ctx, docId, forest, docId, 0);
    RecordsPieces(ctx, docId, forest, docId, 0);
    BareAt(below);
    forall i | 0 <= i < |below| ensures below[i].nodeId != docId {
      var k, at := Origin(ctx, docId, Visible(ctx, forest), i);
      VisibleIdNulFree(ctx, forest, k);
      OwnKeyFacts(Visible(ctx, forest)[k], at, at);
      DocumentIdApart(ctx, stem, OwnKey(Visible(ctx, forest)[k], at));
    }
  }

  lemma DocIdNulFree(ctx: Context, stem: string)
    requires Collisionless(ctx)
    ensures NulFree(DocId(ctx, stem))
  {
  }

  /** How outline_sections mints the id of its n-th entry. */
  ghost predicate MintsOutline(ctx: Context, mint: (nat, string) -> string) {
    forall order, title :: mint(order, title) == StableId(ctx, ["section", Str(order), title])
  }

  lemma ThreeParts(a: string, b: string, c: string)
    ensures JoinNul([a, b, c]) == a + ['\0'] + (b + ['\0'] + c)
  {
    assert [a, b, c][1..] == [b, c] && [b, c][1..] == [c];
    assert JoinNul([b, c]) == b + ['\0'] + c;
  }

  lemma OutlineKey(m: nat, x: string, n: nat, y: string)
    requires JoinNul(["section", Str(m), x]) == JoinNul(["section", Str(n), y])
    ensures m == n
  {
    ThreeParts("section", Str(m), x);
    ThreeParts("section", Str(n), y);
    StrNulFree(m);
    StrNulFree(n);
    hide JoinNul, Str;
    FirstPart("section", Str(m) + ['\0'] + x, "section", Str(n) + ['\0'] + y);
    FirstPart(Str(m), x, Str(n), y);
    StrInjective(m, n);
  }

  lemma EntryId(ctx: Context, items: seq<Outline.Item>, pageCount: nat, mint: (nat, string) -> string, i: nat)
    requires MintsOutline(ctx, mint) && i < |Outline.Flat(items, 0, 0, pageCount, mint)|
    ensures var entry := Outline.Flat(items, 0, 0, pageCount, mint)[i];
            entry.id == StableId(ctx, ["section", Str(i + 1), entry.title])
  {
    hide Outline.Flat, StableId, Str;
    Outline.FlatIds(items, 0, 0, pageCount, mint, i);
  }

  lemma OutlineIdsDiffer(ctx: Context, m: nat, x: string, n: nat, y: string)
    requires Collisionless(ctx) && StableId(ctx, ["section", Str(m), x]) == StableId(ctx, ["section", Str(n), y])
    ensures m == n
  {
    hide JoinNul, Str;
    OutlineKey(m, x, n, y);
  }

  lemma StableIdNulFree(ctx: Context, parts: seq<string>)
    requires Collisionless(ctx)
    ensures NulFree(StableId(ctx, parts))
  {
  }

  lemma IdAt(ctx: Context, items: seq<Outline.Item>, pageCount: nat, mint: (nat, string) -> string, i: nat)
    requires MintsOutline(ctx, mint) && i < |Outline.Flat(items, 0, 0, pageCount, mint)|
    ensures var entries := Outline.Flat(items, 0, 0, pageCount, mint);
            var ids := InfoIds(Infos(entries, pageCount, 0, |entries|));
            |ids| == |entries| && ids[i] == StableId(ctx, ["section", Str(i + 1), entries[i].title])
  {
    EntryId(ctx, items, pageCount, mint, i);
    hide *;
    var entries := Outline.Flat(items, 0, 0, pageCount, mint);
    InfoAt(entries, pageCount, 0, i);
    InfoIdsAt(Infos(entries, pageCount, 0, |entries|));
  }

  function OutlineIdList(items: seq<Outline.Item>, pageCount: nat, mint: (nat, string) -> string): seq<string> {
    var entries := Outline.Flat(items, 0, 0, pageCount, mint);
    InfoIds(Infos(entries, pageCount, 0, |entries|))
  }

  lemma OutlineIdClean(ctx: Context, items: seq<Outline.Item>, pageCount: nat, mint: (nat, string) -> string, i: nat)
    requires Collisionless(ctx) && MintsOutline(ctx, mint) && i < |OutlineIdList(items, pageCount, mint)|
    ensures NulFree(OutlineIdList(items, pageCount, mint)[i])
  {
    hide Outline.Flat, Infos, InfoIds, Str, StableId, Collisionless, MintsOutline, NulFree;
    var entries := Outline.Flat(items, 0, 0, pageCount, mint);
    InfosLength(entries, pageCount, 0);
    InfoIdsLength(Infos(entries, pageCount, 0, |entries|));
    IdAt(ctx, items, pageCount, mint, i);
    StableIdNulFree(ctx, ["section", Str(i + 1), entries[i].title]);
  }

  lemma OutlineIdsApart(ctx: Context, items: seq<Outline.Item>, pageCount: nat, mint: (nat, string) -> string, i: nat,
                        j: nat)
    requires Collisionless(ctx) && MintsOutline(ctx, mint) && i < j < |OutlineIdList(items, pageCount, mint)|
    ensures OutlineIdList(items, pageCount, mint)[i] != OutlineIdList(items, pageCount, mint)[j]
  {
    hide Outline.Flat, Infos, InfoIds, Str, StableId, Collisionless, MintsOutline;
    var entries := Outline.Flat(items, 0, 0, pageCount, mint);
    InfosLength(entries, pageCount, 0);
    InfoIdsLength(Infos(entries, pageCount, 0, |entries|));
    IdAt(ctx, items, pageCount, mint, i);
    IdAt(ctx, items, pageCount, mint, j);
    if OutlineIdList(items, pageCount, mint)[i] == OutlineIdList(items, pageCount, mint)[j] {
      OutlineIdsDiffer(ctx, i + 1, entries[i].title, j + 1, entries[j].title);
    }
  }

  lemma InfoIdsLength(infos: seq<Info>)
    ensures |InfoIds(infos)| == |infos|
  {
    InfoIdsAt(infos);
  }

  /** The ids of an outline's entries differ, whatever their titles. */
  lemma OutlineIds(ctx: Context, items: seq<Outline.Item>, pageCount: nat, mint: (nat, string) -> string)
    requires Collisionless(ctx) && MintsOutline(ctx, mint)
    ensures GoodIds(OutlineIdList(items, pageCount, mint))
  {
    hide OutlineIdList, Collisionless, MintsOutline, NulFree;
    var ids := OutlineIdList(items, pageCount, mint);
    forall i: nat | i < |ids| ensures NulFree(ids[i]) {
      OutlineIdClean(ctx, items, pageCount, mint, i);
    }
    forall i: nat, j: nat | i < j < |ids| ensures ids[i] != ids[j] {
      OutlineIdsApart(ctx, items, pageCount, mint, i, j);
    }
  }

  lemma NodeInfoId(entries: seq<Entry>, pageCount: nat, i: nat)
    requires i < |entries|
    ensures NodeInfo(entries, pageCount, i).id == entries[i].id
  {
    hide Levels.Next, Levels.Parent, LevelsOf;
  }

  lemma {:induction false} InfoAt(entries: seq<Entry>, pageCount: nat, lo: nat, i: nat)
    requires lo + i < |entries|
    ensures var infos := Infos(entries, pageCount, lo, |entries|);
            |infos| == |entries| - lo && infos[i].id == entries[lo + i].id
    decreases |entries| - lo
  {
    hide NodeInfo;
    NodeInfoId(entries, pageCount, lo);
    if i > 0 {
      InfoAt(entries, pageCount, lo + 1, i - 1);
    } else {
      InfosLength(entries, pageCount, lo);
    }
  }

  lemma {:induction false} InfosLength(entries: seq<Entry>, pageCount: nat, lo: nat)
    requires lo <= |entries|
    ensures |Infos(entries, pageCount, lo, |entries|)| == |entries| - lo
    decreases |entries| - lo
  {
    hide NodeInfo;
    if lo < |entries| { InfosLength(entries, pageCount, lo + 1); }
  }

  /** A document cut along its PDF outline: no two of its records share an id. */
  lemma OutlineDocumentDistinct(ctx: Context, stem: string, items: seq<Outline.Item>, pageCount: nat,
                                mint: (nat, string) -> string)
    requires Collisionless(ctx) && MintsOutline(ctx, mint) && NulFree(stem)
    ensures var entries := Outline.Flat(items, 0, 0, pageCount, mint);
            DistinctIds(Document(ctx, stem, Forest(entries, pageCount, 0, |entries|)))
  {
    hide Collisionless, Document, Outline.Flat, InfoIds, GoodIds, MintsOutline;
    var entries := Outline.Flat(items, 0, 0, pageCount, mint);
    OutlineIds(ctx, items, pageCount, mint);
    PreorderIsOutline(entries, pageCount);
    DocumentDistinct(ctx, stem, Forest(entries, pageCount, 0, |entries|));
  }
}
