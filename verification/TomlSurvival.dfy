/** The lines the editor must keep: unchanged, and in order. */
module TomlSurvival {
  import opened Options
  import opened TomlEditor
  import opened TomlReading

  /** The section the editor takes a line to be in. */
  function SectionFrom(start: Option<string>, lines: seq<Line>): Option<string> {
    if lines == [] then start
    else if lines[|lines| - 1].Header? then Some(lines[|lines| - 1].name)
    else SectionFrom(start, lines[..|lines| - 1])
  }

  /** Whether the line is neither blank nor the line of an updated key. */
  predicate IsKept(section: Option<string>, line: Line, updates: seq<Update>) {
    line != Blank
    && !(line.Key? && section.Some? && ValuesFor(updates, section.value).Some?
         && ValueOf(ValuesFor(updates, section.value).value, line.key).Some?)
  }

  /** The lines an update has no business with. */
  function KeptFrom(start: Option<string>, lines: seq<Line>, updates: seq<Update>): seq<Line> {
    if lines == [] then []
    else
      var front, last := lines[..|lines| - 1], lines[|lines| - 1];
      KeptFrom(start, front, updates) + if IsKept(SectionFrom(start, front), last, updates) then [last] else []
  }

  lemma {:induction false} SectionJoin(start: Option<string>, a: seq<Line>, b: seq<Line>)
    ensures SectionFrom(start, a + b) == SectionFrom(SectionFrom(start, a), b)
    decreases |b|
  {
    if b == [] {
      assert a + b == a;
    } else {
      assert (a + b)[..|a + b| - 1] == a + b[..|b| - 1];
      SectionJoin(start, a, b[..|b| - 1]);
    }
  }

  lemma {:induction false} KeptJoin(start: Option<string>, a: seq<Line>, b: seq<Line>, updates: seq<Update>)
    ensures KeptFrom(start, a + b, updates) == KeptFrom(start, a, updates) + KeptFrom(SectionFrom(start, a), b, updates)
    decreases |b|
  {
    hide IsKept;
    if b == [] {
      assert a + b == a;
    } else {
      assert (a + b)[..|a + b| - 1] == a + b[..|b| - 1];
      KeptJoin(start, a, b[..|b| - 1], updates);
      SectionJoin(start, a, b[..|b| - 1]);
    }
  }

  lemma KeptOne(start: Option<string>, line: Line, updates: seq<Update>)
    ensures KeptFrom(start, [line], updates) == if IsKept(start, line, updates) then [line] else []
    ensures SectionFrom(start, [line]) == if line.Header? then Some(line.name) else start
  {
    assert [line][..|[line]| - 1] == [];
  }

  function KeptBlock(block: Block, updates: seq<Update>): seq<Line> {
    [Header(block.name)] + KeptFrom(Some(block.name), block.body, updates)
  }

  function KeptBlocks(blocks: seq<Block>, updates: seq<Update>): seq<Line> {
    if blocks == [] then [] else KeptBlocks(blocks[..|blocks| - 1], updates) + KeptBlock(blocks[|blocks| - 1], updates)
  }

  lemma KeptOfBlock(start: Option<string>, block: Block, updates: seq<Update>)
    ensures KeptFrom(start, LinesOf(block), updates) == KeptBlock(block, updates)
  {
    var header, gap := [Header(block.name)], if block.gap then [Blank] else [];
    KeptOne(start, Header(block.name), updates);
    KeptOne(SectionFrom(start, header + block.body), Blank, updates);
    assert KeptFrom(SectionFrom(start, header + block.body), gap, updates) == [];
    hide KeptFrom, SectionFrom;
    KeptJoin(start, header + block.body, gap, updates);
    KeptJoin(start, header, block.body, updates);
  }

  lemma {:induction false} KeptOfJoined(start: Option<string>, blocks: seq<Block>, updates: seq<Update>)
    ensures KeptFrom(start, Joined(blocks), updates) == KeptBlocks(blocks, updates)
  {
    hide LinesOf, KeptBlock, SectionFrom, IsKept;
    if blocks != [] {
      var front, last := blocks[..|blocks| - 1], blocks[|blocks| - 1];
      KeptOfJoined(start, front, updates);
      KeptJoin(start, Joined(front), LinesOf(last), updates);
      KeptOfBlock(SectionFrom(start, Joined(front)), last, updates);
    }
  }

  lemma KeptOfDoc(doc: Doc, updates: seq<Update>)
    ensures KeptFrom(None, Flatten(doc), updates) ==
            KeptFrom(None, doc.preamble, updates) + KeptBlocks(doc.blocks, updates)
  {
    hide KeptFrom, SectionFrom, Joined, KeptBlocks;
    KeptJoin(None, doc.preamble, Joined(doc.blocks), updates);
    KeptOfJoined(SectionFrom(None, doc.preamble), doc.blocks, updates);
  }

  lemma {:induction false} KeptBlocksJoin(a: seq<Block>, b: seq<Block>, updates: seq<Update>)
    ensures KeptBlocks(a + b, updates) == KeptBlocks(a, updates) + KeptBlocks(b, updates)
    decreases |b|
  {
    hide KeptBlock;
    if b == [] {
      assert a + b == a;
    } else {
      assert (a + b)[..|a + b| - 1] == a + b[..|b| - 1];
      KeptBlocksJoin(a, b[..|b| - 1], updates);
    }
  }

  lemma {:induction false} KeptBlocksAlike(a: seq<Block>, b: seq<Block>, updates: seq<Update>)
    requires |a| == |b| && forall i :: 0 <= i < |a| ==> KeptBlock(a[i], updates) == KeptBlock(b[i], updates)
    ensures KeptBlocks(a, updates) == KeptBlocks(b, updates)
  {
    hide KeptBlock;
    if a != [] { KeptBlocksAlike(a[..|a| - 1], b[..|b| - 1], updates); }
  }

  // ---------------------------------------------------------------- edits

  /** Lines that stand for the same, as far as keeping goes. */
  ghost predicate SameKept(name: string, a: seq<Line>, b: seq<Line>, updates: seq<Update>) {
    KeptFrom(Some(name), a, updates) == KeptFrom(Some(name), b, updates)
  }

  predicate Asked(updates: seq<Update>, name: string, key: string) {
    ValuesFor(updates, name).Some? && ValueOf(ValuesFor(updates, name).value, key).Some?
  }

  lemma {:induction false} PlainSection(start: Option<string>, lines: seq<Line>)
    requires Plain(lines)
    ensures SectionFrom(start, lines) == start
  {
    if lines != [] { PlainSection(start, lines[..|lines| - 1]); }
  }

  lemma AskedNotKept(name: string, line: Line, updates: seq<Update>)
    requires line.Key? && Asked(updates, name, line.key)
    ensures KeptFrom(Some(name), [line], updates) == []
  {
    KeptOne(Some(name), line, updates);
  }

  lemma AroundKept(name: string, left: seq<Line>, line: Line, right: seq<Line>, updates: seq<Update>)
    requires Plain(left) && line.Key? && Asked(updates, name, line.key)
    ensures KeptFrom(Some(name), left + [line] + right, updates) ==
            KeptFrom(Some(name), left, updates) + KeptFrom(Some(name), right, updates)
  {
    PlainSection(Some(name), left);
    KeptOne(Some(name), line, updates);
    AskedNotKept(name, line, updates);
    hide *;
    KeptJoin(Some(name), left + [line], right, updates);
    KeptJoin(Some(name), left, [line], updates);
    SectionJoin(Some(name), left, [line]);
  }

  lemma PlainPart(lines: seq<Line>, at: nat)
    requires Plain(lines) && at <= |lines|
    ensures Plain(lines[..at])
  {
  }

  lemma SetKeyKept(name: string, body: seq<Line>, now: seq<Line>, key: string, value: string, updates: seq<Update>)
    requires Plain(now) && Shape(body, now) && Asked(updates, name, key)
    ensures SameKept(name, now, SetKey(body, now, key, value), updates)
  {
    var line := Key(key, value);
    LastKeyInside(body, key);
    hide LastKey, KeptFrom, SectionFrom, Plain, Asked;
    match LastKey(body, key) {
      case Some(at) =>
        assert ShapeAt(body, now, at);
        PlainPart(now, at);
        assert now == now[..at] + [now[at]] + now[at + 1..] && now[at := line] == now[..at] + [line] + now[at + 1..];
        hide Shape;
        AroundKept(name, now[..at], now[at], now[at + 1..], updates);
        AroundKept(name, now[..at], line, now[at + 1..], updates);
      case None =>
        AroundKept(name, now, line, [], updates);
        KeptNone(name, updates);
        assert now + [line] + [] == now + [line];
    }
  }

  lemma KeptNone(name: string, updates: seq<Update>)
    ensures KeptFrom(Some(name), [], updates) == []
  {
  }

  /** All keys of some values are asked for the section. */
  ghost predicate AllAsked(updates: seq<Update>, name: string, values: Values) {
    forall i :: 0 <= i < |values| ==> Asked(updates, name, values[i].0)
  }

  lemma {:induction false} EditKept(name: string, body: seq<Line>, values: Values, updates: seq<Update>)
    requires Plain(body) && AllAsked(updates, name, values)
    ensures SameKept(name, body, EditBody(body, values), updates)
  {
    hide Asked, SetKey, Plain, KeptFrom;
    if values != [] {
      var front, last := values[..|values| - 1], values[|values| - 1];
      EditKept(name, body, front, updates);
      EditShape(body, front);
      EditPlain(body, front);
      SetKeyKept(name, body, EditBody(body, front), last.0, last.1, updates);
    }
  }

  lemma {:induction false} FreshKept(name: string, values: Values, updates: seq<Update>)
    requires AllAsked(updates, name, values)
    ensures KeptFrom(Some(name), KeyLines(values), updates) == []
  {
    if values != [] {
      var front, last := values[..|values| - 1], Key(values[|values| - 1].0, values[|values| - 1].1);
      FreshKept(name, front, updates);
      assert Asked(updates, name, last.key);
      FreshRead(name, front, "");
      PlainSection(Some(name), KeyLines(front));
      KeptOne(Some(name), last, updates);
      hide KeptFrom, SectionFrom, Asked;
      KeptJoin(Some(name), KeyLines(front), [last], updates);
    }
  }

  lemma {:induction false} ValuesAsked(values: Values, i: nat)
    requires i < |values|
    ensures ValueOf(values, values[i].0).Some?
  {
    if i < |values| - 1 { ValuesAsked(values[..|values| - 1], i); }
  }

  lemma {:induction false} UpdateFound(updates: seq<Update>, i: nat)
    requires i < |updates| && DistinctSections(updates)
    ensures ValuesFor(updates, updates[i].section) == Some(updates[i].values)
  {
    if i < |updates| - 1 {
      assert updates[i].section != updates[|updates| - 1].section;
      UpdateFound(updates[..|updates| - 1], i);
    }
  }

  lemma UpdateAsked(updates: seq<Update>, i: nat)
    requires i < |updates| && DistinctSections(updates)
    ensures AllAsked(updates, updates[i].section, updates[i].values)
  {
    hide ValueOf, ValuesFor;
    UpdateFound(updates, i);
    forall j | 0 <= j < |updates[i].values| ensures Asked(updates, updates[i].section, updates[i].values[j].0) {
      ValuesAsked(updates[i].values, j);
    }
  }

  function KeptDoc(doc: Doc, updates: seq<Update>): seq<Line> {
    KeptFrom(None, doc.preamble, updates) + KeptBlocks(doc.blocks, updates)
  }

  lemma SeparatedKept(doc: Doc, updates: seq<Update>)
    ensures KeptDoc(Separated(doc), updates) == KeptDoc(doc, updates)
  {
    KeptOne(SectionFrom(None, doc.preamble), Blank, updates);
    hide Flatten, KeptFrom, SectionFrom, KeptBlocks;
    KeptJoin(None, doc.preamble, [Blank], updates);
    KeptBlocksAlike(Separated(doc).blocks, doc.blocks, updates);
  }

  /** The headers of the sections an update adds. */
  function NewHeader(doc: Doc, update: Update): seq<Line> {
    if BodyAt(doc, update.section).None? then [Header(update.section)] else []
  }

  /** One section's update keeps every other line, and adds at most its header. */
  lemma EditSectionKept(doc: Doc, update: Update, updates: seq<Update>)
    requires PlainDoc(doc) && AllAsked(updates, update.section, update.values)
    ensures KeptDoc(EditSection(doc, update), updates) == KeptDoc(doc, updates) + NewHeader(doc, update)
  {
    var at := BlockOf(doc.blocks, update.section);
    BlockOfFacts(doc.blocks, update.section);
    BodyByIndex(doc.blocks, update.section);
    hide BlockOf, BlocksBody, EditBody, KeyLines, Separated, AllAsked, KeptFrom, KeptBlocks;
    if at < |doc.blocks| {
      var block := doc.blocks[at];
      var edited := doc.blocks[at := block.(body := EditBody(block.body, update.values))];
      assert Plain(block.body);
      EditKept(block.name, block.body, update.values, updates);
      KeptBlocksAlike(edited, doc.blocks, updates);
    } else {
      var block := Block(update.section, KeyLines(update.values), false);
      SeparatedKept(doc, updates);
      FreshKept(update.section, update.values, updates);
      KeptBlocksJoin(Separated(doc).blocks, [block], updates);
      KeptBlocksOne(block, updates);
    }
  }

  lemma KeptBlocksOne(block: Block, updates: seq<Update>)
    ensures KeptBlocks([block], updates) == KeptBlock(block, updates)
  {
    hide KeptBlock;
    assert [block][..|[block]| - 1] == [];
  }

  /** The headers added by the first updates, in order. */
  function NewHeaders(doc: Doc, updates: seq<Update>): seq<Line> {
    if updates == [] then []
    else NewHeaders(doc, updates[..|updates| - 1]) + NewHeader(doc, updates[|updates| - 1])
  }

  lemma {:induction false} EditAllKept(doc: Doc, some: seq<Update>, updates: seq<Update>)
    requires PlainDoc(doc) && DistinctSections(updates) && some <= updates
    ensures KeptDoc(EditAll(doc, some), updates) == KeptDoc(doc, updates) + NewHeaders(doc, some)
  {
    hide PlainDoc, KeptDoc, EditSection, AllAsked, BodyAt;
    if some != [] {
      var front, last := some[..|some| - 1], some[|some| - 1];
      EditAllKept(doc, front, updates);
      EditAllPlain(doc, front);
      UpdateAsked(updates, |front|);
      EditSectionKept(EditAll(doc, front), last, updates);
      StillNew(doc, front, updates);
    }
  }

  lemma StillNew(doc: Doc, front: seq<Update>, updates: seq<Update>)
    requires DistinctSections(updates) && front < updates
    ensures NewHeader(EditAll(doc, front), updates[|front|]) == NewHeader(doc, updates[|front|])
  {
    hide EditAll, BodyAt, ValuesFor;
    forall i, j | 0 <= i < j < |front| ensures front[i].section != front[j].section {
      assert updates[i].section != updates[j].section;
    }
    forall i | 0 <= i < |front| ensures front[i].section != updates[|front|].section {
      assert updates[i].section != updates[|front|].section;
    }
    NotFor(front, updates[|front|].section);
    EditAllBody(doc, front, updates[|front|].section);
  }

  lemma {:induction false} StripKept(lines: seq<Line>, updates: seq<Update>)
    ensures KeptFrom(None, StripBlank(lines), updates) == KeptFrom(None, lines, updates)
  {
    if lines != [] && lines[|lines| - 1] == Blank {
      StripKept(lines[..|lines| - 1], updates);
      assert KeptFrom(None, lines[..|lines| - 1], updates) + [] == KeptFrom(None, lines[..|lines| - 1], updates);
    }
  }

  /** Every line but blank ones and those of updated keys survives, unchanged and in
      order; all the file gains among them is the headers of sections it did not have. */
  lemma OtherLinesSurvive(lines: seq<Line>, updates: seq<Update>)
    requires DistinctSections(updates)
    ensures KeptFrom(None, Edited(lines, updates), updates) ==
            KeptFrom(None, lines, updates) + NewHeaders(Parse(lines), updates)
  {
    hide Parse, EditAll, Flatten, KeptFrom, KeptBlocks, StripBlank, PlainDoc, NewHeaders;
    ParseFlattens(lines);
    ParsePlain(lines);
    EditAllKept(Parse(lines), updates, updates);
    KeptOfDoc(Parse(lines), updates);
    KeptOfDoc(EditAll(Parse(lines), updates), updates);
    StripKept(Flatten(EditAll(Parse(lines), updates)), updates);
  }

  // ---------------------------------------------------------------- blank lines and updated keys too

  /** A line stands for an original one: itself, or an updated key's line with the new value. */
  ghost predicate StandsFor(section: Option<string>, line: Line, now: Line, updates: seq<Update>) {
    now == line
    || (line.Key? && section.Some? && Asked(updates, section.value, line.key)
        && now == Key(line.key, ValueOf(ValuesFor(updates, section.value).value, line.key).value))
  }

  /** Lines standing for all of a's lines are found in b, in order. */
  ghost predicate Embeds(start: Option<string>, a: seq<Line>, b: seq<Line>, updates: seq<Update>)
    decreases |b|
  {
    if a == [] then true
    else if b == [] then false
    else
      var front, rest := a[..|a| - 1], b[..|b| - 1];
      || (StandsFor(SectionFrom(start, front), a[|a| - 1], b[|b| - 1], updates) && Embeds(start, front, rest, updates))
      || Embeds(start, a, rest, updates)
  }

  lemma {:induction false} EmbedMore(start: Option<string>, a: seq<Line>, b: seq<Line>, more: seq<Line>,
                                     updates: seq<Update>)
    requires Embeds(start, a, b, updates)
    ensures Embeds(start, a, b + more, updates)
    decreases |more|
  {
    hide StandsFor, SectionFrom;
    if more == [] {
      assert b + more == b;
    } else {
      EmbedMore(start, a, b, more[..|more| - 1], updates);
      assert (b + more)[..|b + more| - 1] == b + more[..|more| - 1];
    }
  }

  lemma {:induction false} EmbedJoin(start: Option<string>, a: seq<Line>, b: seq<Line>, c: seq<Line>, d: seq<Line>,
                                     updates: seq<Update>)
    requires Embeds(start, a, b, updates) && Embeds(SectionFrom(start, a), c, d, updates)
    ensures Embeds(start, a + c, b + d, updates)
    decreases |d|
  {
    if c == [] {
      assert a + c == a;
      EmbedMore(start, a, b, d, updates);
    } else {
      var front, rest := c[..|c| - 1], d[..|d| - 1];
      assert (a + c)[..|a + c| - 1] == a + front && (b + d)[..|b + d| - 1] == b + rest;
      hide StandsFor, SectionFrom;
      if Embeds(SectionFrom(start, a), c, rest, updates) {
        EmbedJoin(start, a, b, c, rest, updates);
      } else {
        EmbedJoin(start, a, b, front, rest, updates);
        SectionJoin(start, a, front);
      }
    }
  }

  /** A body with new values in the last lines of some keys, and lines added at its end. */
  ghost predicate Grown(body: seq<Line>, now: seq<Line>, values: Values) {
    |now| >= |body| && forall i :: 0 <= i < |body| ==> GrownAt(body, now, values, i)
  }

  ghost predicate GrownAt(body: seq<Line>, now: seq<Line>, values: Values, i: nat)
    requires i < |body| <= |now|
  {
    now[i] == body[i]
    || (body[i].Key? && LastKey(body, body[i].key) == Some(i) && ValueOf(values, body[i].key).Some?
        && now[i] == Key(body[i].key, ValueOf(values, body[i].key).value))
  }

  lemma {:induction false} EditGrown(body: seq<Line>, values: Values)
    ensures Grown(body, EditBody(body, values), values)
  {
    if values != [] {
      var front, last := values[..|values| - 1], values[|values| - 1];
      EditGrown(body, front);
      LastKeyInside(body, last.0);
      var now, after := EditBody(body, front), EditBody(body, values);
      hide LastKey, EditBody;
      forall i | 0 <= i < |body| ensures GrownAt(body, after, values, i) { assert GrownAt(body, now, front, i); }
    }
  }

  lemma {:induction false} GrownEmbeds(name: string, body: seq<Line>, now: seq<Line>, values: Values, n: nat,
                                       updates: seq<Update>)
    requires Plain(body) && Grown(body, now, values) && ValuesFor(updates, name) == Some(values) && n <= |body|
    ensures Embeds(Some(name), body[..n], now[..n], updates)
  {
    hide LastKey, ValueOf, ValuesFor;
    if n > 0 {
      GrownEmbeds(name, body, now, values, n - 1, updates);
      assert body[..n][..n - 1] == body[..n - 1] && now[..n][..n - 1] == now[..n - 1];
      PlainSection(Some(name), body[..n - 1]);
      assert GrownAt(body, now, values, n - 1);
    }
  }

  lemma {:induction false} SameEmbeds(start: Option<string>, lines: seq<Line>, updates: seq<Update>)
    ensures Embeds(start, lines, lines, updates)
  {
    if lines != [] { SameEmbeds(start, lines[..|lines| - 1], updates); }
  }

  /** What became of a section. */
  ghost predicate BlockGrown(block: Block, now: Block, values: Option<Values>) {
    now.name == block.name && if values.Some? then Grown(block.body, now.body, values.value) else now.body == block.body
  }

  ghost predicate BlocksGrown(blocks: seq<Block>, now: seq<Block>, updates: seq<Update>) {
    |now| >= |blocks| && forall i :: 0 <= i < |blocks| ==>
      BlockGrown(blocks[i], now[i], ValuesFor(updates, blocks[i].name))
  }

  lemma BlockEmbeds(start: Option<string>, block: Block, now: Block, updates: seq<Update>)
    requires Plain(block.body) && !block.gap && BlockGrown(block, now, ValuesFor(updates, block.name))
    ensures Embeds(start, LinesOf(block), LinesOf(now), updates)
  {
    var name, header := block.name, [Header(block.name)];
    hide Plain, Grown, LastKey, ValueOf, ValuesFor, Embeds, SectionFrom;
    match ValuesFor(updates, name) {
      case Some(values) =>
        var n := |block.body|;
        GrownEmbeds(name, block.body, now.body, values, n, updates);
        GrownLonger(block.body, now.body, values);
        assert block.body[..n] == block.body && now.body[..n] + now.body[n..] == now.body;
        EmbedMore(Some(name), block.body, now.body[..n], now.body[n..], updates);
      case None => SameEmbeds(Some(name), block.body, updates);
    }
    SameEmbeds(start, header, updates);
    KeptOne(start, Header(name), updates);
    EmbedJoin(start, header, header, block.body, now.body, updates);
    EmbedMore(start, header + block.body, header + now.body, if now.gap then [Blank] else [], updates);
    assert LinesOf(block) == header + block.body;
  }

  lemma GrownLonger(body: seq<Line>, now: seq<Line>, values: Values)
    requires Grown(body, now, values)
    ensures |now| >= |body|
  {
  }

  lemma {:induction false} JoinedEmbeds(start: Option<string>, blocks: seq<Block>, now: seq<Block>,
                                        updates: seq<Update>)
    requires BlocksGrown(blocks, now, updates)
    requires forall i :: 0 <= i < |blocks| ==> Plain(blocks[i].body) && !blocks[i].gap
    ensures Embeds(start, Joined(blocks), Joined(now), updates)
    decreases |now|
  {
    hide Plain, LinesOf, ValuesFor, BlockGrown, SectionFrom;
    if |now| > |blocks| {
      var front := now[..|now| - 1];
      JoinedEmbeds(start, blocks, front, updates);
      hide Embeds;
      EmbedMore(start, Joined(blocks), Joined(front), LinesOf(now[|now| - 1]), updates);
    } else if blocks != [] {
      var n := |blocks| - 1;
      JoinedEmbeds(start, blocks[..n], now[..n], updates);
      BlockEmbeds(SectionFrom(start, Joined(blocks[..n])), blocks[n], now[n], updates);
      hide Embeds;
      EmbedJoin(start, Joined(blocks[..n]), Joined(now[..n]), LinesOf(blocks[n]), LinesOf(now[n]), updates);
    }
  }

  ghost predicate DocGrown(doc: Doc, now: Doc, updates: seq<Update>) {
    doc.preamble <= now.preamble && BlocksGrown(doc.blocks, now.blocks, updates)
  }

  lemma GrownDocEmbeds(doc: Doc, now: Doc, updates: seq<Update>)
    requires PlainDoc(doc) && NoGaps(doc) && DocGrown(doc, now, updates)
    ensures Embeds(None, Flatten(doc), Flatten(now), updates)
  {
    hide Embeds, SectionFrom, Joined, BlocksGrown, Plain;
    var p := |doc.preamble|;
    SameEmbeds(None, doc.preamble, updates);
    EmbedMore(None, doc.preamble, doc.preamble, now.preamble[p..], updates);
    assert doc.preamble + now.preamble[p..] == now.preamble;
    JoinedEmbeds(SectionFrom(None, doc.preamble), doc.blocks, now.blocks, updates);
    EmbedJoin(None, doc.preamble, now.preamble, Joined(doc.blocks), Joined(now.blocks), updates);
  }

  lemma SeparatedGrown(doc: Doc)
    ensures doc.preamble <= Separated(doc).preamble && |Separated(doc).blocks| == |doc.blocks|
    ensures forall i :: 0 <= i < |doc.blocks| ==>
      Separated(doc).blocks[i].name == doc.blocks[i].name && Separated(doc).blocks[i].body == doc.blocks[i].body
  {
    hide Flatten;
  }

  lemma {:induction false} EditAllGrown(doc: Doc, updates: seq<Update>)
    requires DistinctSections(updates)
    ensures DocGrown(doc, EditAll(doc, updates), updates)
  {
    if updates == [] {
      assert EditAll(doc, updates) == doc;
    } else {
      var front, last := updates[..|updates| - 1], updates[|updates| - 1];
      EditAllGrown(doc, front);
      forall i | 0 <= i < |front| ensures front[i].section != last.section {
        assert updates[i].section != updates[|front|].section;
      }
      NotFor(front, last.section);
      EditGrows(doc, EditAll(doc, front), front, last);
      assert updates == front + [last];
    }
  }

  lemma EditGrows(doc: Doc, now: Doc, front: seq<Update>, last: Update)
    requires DocGrown(doc, now, front) && ValuesFor(front, last.section).None?
    ensures DocGrown(doc, EditSection(now, last), front + [last])
  {
    var after, updates, at := EditSection(now, last), front + [last], BlockOf(now.blocks, last.section);
    assert updates[..|updates| - 1] == front;
    BlockOfFacts(now.blocks, last.section);
    SeparatedGrown(now);
    hide BlockOf, Separated, EditBody, Grown, KeyLines;
    forall i | 0 <= i < |doc.blocks|
      ensures BlockGrown(doc.blocks[i], after.blocks[i], ValuesFor(updates, doc.blocks[i].name))
    {
      assert BlockGrown(doc.blocks[i], now.blocks[i], ValuesFor(front, doc.blocks[i].name));
      EditGrown(doc.blocks[i].body, last.values);
      UneditedGrown(doc.blocks[i].body, last.values);
    }
  }

  lemma UneditedGrown(body: seq<Line>, values: Values)
    ensures Grown(body, body, values)
  {
    hide LastKey, ValueOf;
  }

  lemma {:induction false} EmbedPrefix(start: Option<string>, a: seq<Line>, b: seq<Line>, n: nat, updates: seq<Update>)
    requires Embeds(start, a, b, updates) && n <= |a|
    ensures Embeds(start, a[..n], b, updates)
    decreases |b|
  {
    hide StandsFor, SectionFrom;
    if n == |a| {
      assert a[..n] == a;
    } else if b != [] {
      var front, rest := a[..|a| - 1], b[..|b| - 1];
      if Embeds(start, a, rest, updates) {
        EmbedPrefix(start, a, rest, n, updates);
      } else {
        assert front[..n] == a[..n];
        EmbedPrefix(start, front, rest, n, updates);
      }
      assert rest + [b[|b| - 1]] == b;
      EmbedMore(start, a[..n], rest, [b[|b| - 1]], updates);
    }
  }

  lemma {:induction false} EmbedStripped(start: Option<string>, a: seq<Line>, b: seq<Line>, updates: seq<Update>)
    requires Embeds(start, a, b, updates) && (a != [] ==> a[|a| - 1] != Blank)
    ensures Embeds(start, a, StripBlank(b), updates)
  {
    hide Asked;
    if b != [] && b[|b| - 1] == Blank { EmbedStripped(start, a, b[..|b| - 1], updates); }
  }

  lemma {:induction false} StripBlankFacts(lines: seq<Line>)
    ensures StripBlank(lines) <= lines
    ensures StripBlank(lines) != [] ==> StripBlank(lines)[|StripBlank(lines)| - 1] != Blank
  {
    if lines != [] && lines[|lines| - 1] == Blank { StripBlankFacts(lines[..|lines| - 1]); }
  }

  /** Up to the blank lines at its end every line of the file survives in order, blank lines
      too: as it was or, if it is an updated key's, with the new value. */
  lemma EveryLineSurvives(lines: seq<Line>, updates: seq<Update>)
    requires DistinctSections(updates)
    ensures Embeds(None, StripBlank(lines), Edited(lines, updates), updates)
  {
    hide Parse, EditAll, Flatten, Embeds, StripBlank, PlainDoc, NoGaps, DocGrown;
    ParseFlattens(lines);
    ParsePlain(lines);
    var now := EditAll(Parse(lines), updates);
    EditAllGrown(Parse(lines), updates);
    GrownDocEmbeds(Parse(lines), now, updates);
    StripBlankFacts(lines);
    EmbedPrefix(None, lines, Flatten(now), |StripBlank(lines)|, updates);
    assert lines[..|StripBlank(lines)|] == StripBlank(lines);
    EmbedStripped(None, StripBlank(lines), Flatten(now), updates);
  }

  // ---------------------------------------------------------------- the root table

  lemma {:induction false} RootEnds(start: Table, lines: seq<Line>, key: string)
    requires start != Root
    ensures TableFrom(start, lines) != Root && ReadFrom(start, lines, Root, key).None?
  {
    if lines != [] { RootEnds(start, lines[..|lines| - 1], key); }
  }

  lemma {:induction false} NoRootInBlocks(blocks: seq<Block>, key: string)
    ensures BlocksRead(blocks, Root, key).None?
  {
    hide ReadFrom;
    if blocks != [] {
      NoRootInBlocks(blocks[..|blocks| - 1], key);
      RootEnds(Std(blocks[|blocks| - 1].name), blocks[|blocks| - 1].body, key);
    }
  }

  lemma EditPreamble(doc: Doc, update: Update)
    ensures EditSection(doc, update).preamble in [doc.preamble, doc.preamble + [Blank]]
  {
    hide Flatten, BlockOf, EditBody, KeyLines;
    assert Separated(doc).preamble in [doc.preamble, doc.preamble + [Blank]];
  }

  lemma BlankRead(lines: seq<Line>, table: Table, key: string)
    ensures ReadFrom(Root, lines + [Blank], table, key) == ReadFrom(Root, lines, table, key)
  {
    ReadOne(TableFrom(Root, lines), Blank, table, key);
    hide ReadFrom, TableFrom;
    ReadJoin(Root, lines, [Blank], table, key);
  }

  lemma {:induction false} EditAllPreamble(doc: Doc, updates: seq<Update>, table: Table, key: string)
    ensures ReadFrom(Root, EditAll(doc, updates).preamble, table, key) == ReadFrom(Root, doc.preamble, table, key)
  {
    hide EditSection, ReadFrom;
    if updates != [] {
      var now := EditAll(doc, updates[..|updates| - 1]);
      EditAllPreamble(doc, updates[..|updates| - 1], table, key);
      EditPreamble(now, updates[|updates| - 1]);
      BlankRead(now.preamble, table, key);
    }
  }

  /** Keys before the first section read as before. */
  lemma RootReadsAsBefore(lines: seq<Line>, updates: seq<Update>, key: string)
    ensures Read(Edited(lines, updates), Root, key) == Read(lines, Root, key)
  {
    var doc, now := Parse(lines), EditAll(Parse(lines), updates);
    hide Parse, EditAll, Flatten, Read, ReadFrom, StripBlank, BlocksRead;
    ParseFlattens(lines);
    DocRead(doc, Root, key);
    DocRead(now, Root, key);
    NoRootInBlocks(doc.blocks, key);
    NoRootInBlocks(now.blocks, key);
    EditAllPreamble(doc, updates, Root, key);
    StripRead(Flatten(now), Root, key);
  }

  // ---------------------------------------------------------------- new sections

  /** The lines that set some values, in their order. */
  function Settings(values: Values): (settings: seq<Line>)
    ensures |settings| == |values|
    ensures forall i :: 0 <= i < |values| ==> settings[i] == Key(values[i].0, values[i].1)
  {
    seq(|values|, i requires 0 <= i < |values| => Key(values[i].0, values[i].1))
  }

  lemma {:induction false} KeyLinesAre(values: Values)
    ensures KeyLines(values) == Settings(values)
  {
    if values != [] {
      var front, last := values[..|values| - 1], values[|values| - 1];
      KeyLinesAre(front);
      assert Settings(values) == Settings(front) + [Key(last.0, last.1)];
    }
  }

  /** A blank line to keep a new section apart, unless the file is empty or ends with one. */
  function Gap(lines: seq<Line>): seq<Line> {
    if lines == [] || lines[|lines| - 1].Blank? then [] else [Blank]
  }

  lemma SeparatedLines(doc: Doc)
    requires doc.blocks == [] || !doc.blocks[|doc.blocks| - 1].gap
    ensures Flatten(Separated(doc)) == Flatten(doc) + Gap(Flatten(doc))
  {
    hide Joined;
    if doc.blocks == [] {
      JoinedNone();
    } else {
      var front, last := doc.blocks[..|doc.blocks| - 1], doc.blocks[|doc.blocks| - 1];
      assert doc.blocks == front + [last];
      JoinedPut(front, last);
      JoinedPut(front, last.(gap := true));
      assert LinesOf(last.(gap := true)) == LinesOf(last) + [Blank];
    }
  }

  lemma BlockAdded(doc: Doc, block: Block)
    ensures Flatten(doc.(blocks := doc.blocks + [block])) == Flatten(doc) + LinesOf(block)
  {
    JoinedPut(doc.blocks, block);
    hide Joined, LinesOf;
    assert doc.preamble + (Joined(doc.blocks) + LinesOf(block)) == doc.preamble + Joined(doc.blocks) + LinesOf(block);
  }

  lemma NewSectionAdded(doc: Doc, update: Update)
    requires forall i :: 0 <= i < |doc.blocks| ==> doc.blocks[i].name != update.section
    ensures var separated := Separated(doc);
            EditSection(doc, update) ==
            separated.(blocks := separated.blocks + [Block(update.section, KeyLines(update.values), false)])
  {
    BlockOfFacts(doc.blocks, update.section);
    hide BlockOf, Separated, KeyLines;
  }

  /** A section the file does not have comes last: after a blank line its header and its
      values, in their order. */
  lemma NewSectionLines(doc: Doc, update: Update)
    requires doc.blocks == [] || !doc.blocks[|doc.blocks| - 1].gap
    requires forall i :: 0 <= i < |doc.blocks| ==> doc.blocks[i].name != update.section
    ensures var lines := Flatten(doc);
            Flatten(EditSection(doc, update)) ==
            lines + Gap(lines) + ([Header(update.section)] + Settings(update.values))
  {
    var added := Block(update.section, KeyLines(update.values), false);
    NewSectionAdded(doc, update);
    SeparatedLines(doc);
    KeyLinesAre(update.values);
    BlockAdded(Separated(doc), added);
    assert LinesOf(added) == [Header(update.section)] + KeyLines(update.values) + [] ==
           [Header(update.section)] + KeyLines(update.values);
    hide *;
  }

  predicate EndsUngapped(doc: Doc) {
    doc.blocks == [] || !doc.blocks[|doc.blocks| - 1].gap
  }

  lemma SectionUngapped(doc: Doc, update: Update)
    requires EndsUngapped(doc)
    ensures EndsUngapped(EditSection(doc, update))
  {
    BlockOfFacts(doc.blocks, update.section);
    hide BlockOf, Separated, EditBody, KeyLines;
  }

  lemma {:induction false} AllUngapped(lines: seq<Line>, updates: seq<Update>)
    ensures EndsUngapped(EditAll(Parse(lines), updates))
  {
    if updates == [] {
      ParseFlattens(lines);
    } else {
      AllUngapped(lines, updates[..|updates| - 1]);
      hide EditSection, Parse, EndsUngapped;
      SectionUngapped(EditAll(Parse(lines), updates[..|updates| - 1]), updates[|updates| - 1]);
    }
  }

  /** Updating a section that neither the file nor the updates before have adds it at the
      end of the lines so far. */
  lemma NewSectionComesLast(lines: seq<Line>, updates: seq<Update>)
    requires updates != []
    requires var before, last := EditAll(Parse(lines), updates[..|updates| - 1]), updates[|updates| - 1];
             forall i :: 0 <= i < |before.blocks| ==> before.blocks[i].name != last.section
    ensures var before, last := Flatten(EditAll(Parse(lines), updates[..|updates| - 1])), updates[|updates| - 1];
            Flatten(EditAll(Parse(lines), updates)) ==
            before + Gap(before) + ([Header(last.section)] + Settings(last.values))
  {
    AllUngapped(lines, updates[..|updates| - 1]);
    hide EditSection, Parse, Flatten, Gap, Settings;
    NewSectionLines(EditAll(Parse(lines), updates[..|updates| - 1]), updates[|updates| - 1]);
  }

  /** Only blank lines go from the end of the file, and all of them. */
  lemma {:induction false} StripBlankIs(lines: seq<Line>)
    ensures var kept := StripBlank(lines);
            && kept <= lines && (forall i :: |kept| <= i < |lines| ==> lines[i] == Blank)
            && (kept == [] || kept[|kept| - 1] != Blank)
  {
    if lines != [] && lines[|lines| - 1] == Blank { StripBlankIs(lines[..|lines| - 1]); }
  }
}
