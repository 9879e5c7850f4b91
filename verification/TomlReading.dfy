/** What a TOML reader finds in a file before and after the editor's changes. */
module TomlReading {
  import opened Options
  import opened TomlEditor

  // ---------------------------------------------------------------- reading

  /** The table a line belongs to. */
  datatype Table = Root | Std(name: string) | Arr(name: string)

  function TableFrom(start: Table, lines: seq<Line>): Table {
    if lines == [] then start
    else
      match lines[|lines| - 1]
      case Header(name) => Std(name)
      case ArrayHeader(name) => Arr(name)
      case _ => TableFrom(start, lines[..|lines| - 1])
  }

  /** The value of a key in a table; lines before the first header belong to start. */
  function ReadFrom(start: Table, lines: seq<Line>, table: Table, key: string): Option<string> {
    if lines == [] then None
    else
      var front, last := lines[..|lines| - 1], lines[|lines| - 1];
      if last.Key? && last.key == key && TableFrom(start, front) == table then Some(last.value)
      else ReadFrom(start, front, table, key)
  }

  function Read(lines: seq<Line>, table: Table, key: string): Option<string> {
    ReadFrom(Root, lines, table, key)
  }

  function Later<T>(first: Option<T>, second: Option<T>): Option<T> {
    if second.Some? then second else first
  }

  lemma {:induction false} TableJoin(start: Table, a: seq<Line>, b: seq<Line>)
    ensures TableFrom(start, a + b) == TableFrom(TableFrom(start, a), b)
    decreases |b|
  {
    if b == [] {
      assert a + b == a;
    } else {
      assert (a + b)[..|a + b| - 1] == a + b[..|b| - 1];
      TableJoin(start, a, b[..|b| - 1]);
    }
  }

  lemma {:induction false} ReadJoin(start: Table, a: seq<Line>, b: seq<Line>, table: Table, key: string)
    ensures ReadFrom(start, a + b, table, key) ==
            Later(ReadFrom(start, a, table, key), ReadFrom(TableFrom(start, a), b, table, key))
    decreases |b|
  {
    if b == [] {
      assert a + b == a;
    } else {
      assert (a + b)[..|a + b| - 1] == a + b[..|b| - 1];
      ReadJoin(start, a, b[..|b| - 1], table, key);
      TableJoin(start, a, b[..|b| - 1]);
    }
  }

  lemma ReadOne(start: Table, line: Line, table: Table, key: string)
    ensures ReadFrom(start, [line], table, key) ==
            if line.Key? && line.key == key && start == table then Some(line.value) else None
    ensures TableFrom(start, [line]) ==
            match line case Header(name) => Std(name) case ArrayHeader(name) => Arr(name) case _ => start
  {
    assert [line][..|[line]| - 1] == [];
  }

  // ---------------------------------------------------------------- reading block by block

  function BodyRead(block: Block, table: Table, key: string): Option<string> {
    ReadFrom(Std(block.name), block.body, table, key)
  }

  function BlocksRead(blocks: seq<Block>, table: Table, key: string): Option<string> {
    if blocks == [] then None
    else Later(BlocksRead(blocks[..|blocks| - 1], table, key), BodyRead(blocks[|blocks| - 1], table, key))
  }

  lemma BlockRead(start: Table, block: Block, table: Table, key: string)
    ensures ReadFrom(start, LinesOf(block), table, key) == BodyRead(block, table, key)
  {
    var header, gap := [Header(block.name)], if block.gap then [Blank] else [];
    ReadOne(start, Header(block.name), table, key);
    ReadOne(TableFrom(start, header + block.body), Blank, table, key);
    assert ReadFrom(TableFrom(start, header + block.body), gap, table, key) == None;
    hide ReadFrom, TableFrom;
    ReadJoin(start, header + block.body, gap, table, key);
    ReadJoin(start, header, block.body, table, key);
  }

  lemma {:induction false} JoinedRead(start: Table, blocks: seq<Block>, table: Table, key: string)
    ensures ReadFrom(start, Joined(blocks), table, key) == BlocksRead(blocks, table, key)
  {
    hide LinesOf, BodyRead;
    if blocks != [] {
      var front, last := blocks[..|blocks| - 1], blocks[|blocks| - 1];
      JoinedRead(start, front, table, key);
      ReadJoin(start, Joined(front), LinesOf(last), table, key);
      BlockRead(TableFrom(start, Joined(front)), last, table, key);
    }
  }

  lemma DocRead(doc: Doc, table: Table, key: string)
    ensures Read(Flatten(doc), table, key) ==
            Later(ReadFrom(Root, doc.preamble, table, key), BlocksRead(doc.blocks, table, key))
  {
    hide ReadFrom, TableFrom, Joined, BlocksRead;
    ReadJoin(Root, doc.preamble, Joined(doc.blocks), table, key);
    JoinedRead(TableFrom(Root, doc.preamble), doc.blocks, table, key);
  }

  /** No section header among the lines. */
  predicate Plain(lines: seq<Line>) {
    forall i :: 0 <= i < |lines| ==> !lines[i].Header?
  }

  predicate ArrayFree(lines: seq<Line>) {
    forall i :: 0 <= i < |lines| ==> !lines[i].ArrayHeader?
  }

  ghost predicate PlainDoc(doc: Doc) {
    Plain(doc.preamble) && forall i :: 0 <= i < |doc.blocks| ==> Plain(doc.blocks[i].body)
  }

  lemma {:induction false} ParsePlain(lines: seq<Line>)
    ensures PlainDoc(Parse(lines))
  {
    if lines != [] {
      ParsePlain(lines[..|lines| - 1]);
      AddPlain(Parse(lines[..|lines| - 1]), lines[|lines| - 1]);
    }
  }

  lemma AddPlain(doc: Doc, line: Line)
    requires PlainDoc(doc)
    ensures PlainDoc(AddLine(doc, line))
  {
    var after := AddLine(doc, line);
    forall i | 0 <= i < |after.blocks| ensures Plain(after.blocks[i].body) {
      if i < |doc.blocks| { assert Plain(doc.blocks[i].body); }
    }
  }

  lemma {:induction false} PlainTable(name: string, body: seq<Line>)
    requires Plain(body)
    ensures TableFrom(Std(name), body) == Std(name) <==> ArrayFree(body)
    ensures TableFrom(Std(name), body) == Std(name) || TableFrom(Std(name), body).Arr?
  {
    if body != [] {
      PlainTable(name, body[..|body| - 1]);
      if body[|body| - 1].ArrayHeader? { assert !ArrayFree(body); }
      assert ArrayFree(body) <==> ArrayFree(body[..|body| - 1]) && !body[|body| - 1].ArrayHeader? by {
        assert body == body[..|body| - 1] + [body[|body| - 1]];
      }
    }
  }

  lemma {:induction false} PlainRead(name: string, body: seq<Line>, other: string, key: string)
    requires Plain(body) && name != other
    ensures ReadFrom(Std(name), body, Std(other), key).None?
  {
    if body != [] {
      PlainRead(name, body[..|body| - 1], other, key);
      PlainTable(name, body[..|body| - 1]);
    }
  }

  lemma {:induction false} RootRead(body: seq<Line>, other: string, key: string)
    requires Plain(body)
    ensures ReadFrom(Root, body, Std(other), key).None? && !TableFrom(Root, body).Std?
  {
    if body != [] { RootRead(body[..|body| - 1], other, key); }
  }

  /** The lines of a section. */
  function BodyAt(doc: Doc, name: string): Option<seq<Line>> {
    BlocksBody(doc.blocks, name)
  }

  function BlocksBody(blocks: seq<Block>, name: string): Option<seq<Line>> {
    if blocks == [] then None
    else if blocks[|blocks| - 1].name == name then Some(blocks[|blocks| - 1].body)
    else BlocksBody(blocks[..|blocks| - 1], name)
  }

  function BodyValue(body: Option<seq<Line>>, name: string, key: string): Option<string> {
    if body.Some? then ReadFrom(Std(name), body.value, Std(name), key) else None
  }

  lemma {:induction false} NoBody(blocks: seq<Block>, name: string, key: string)
    requires forall i :: 0 <= i < |blocks| ==> Plain(blocks[i].body) && blocks[i].name != name
    ensures BlocksRead(blocks, Std(name), key).None? && BlocksBody(blocks, name).None?
  {
    hide Plain, ReadFrom;
    if blocks != [] {
      NoBody(blocks[..|blocks| - 1], name, key);
      PlainRead(blocks[|blocks| - 1].name, blocks[|blocks| - 1].body, name, key);
    }
  }

  lemma {:induction false} BlocksReadBody(blocks: seq<Block>, name: string, key: string)
    requires DistinctNames(blocks) && forall i :: 0 <= i < |blocks| ==> Plain(blocks[i].body)
    ensures BlocksRead(blocks, Std(name), key) == BodyValue(BlocksBody(blocks, name), name, key)
  {
    hide Plain, ReadFrom;
    if blocks != [] {
      var front, last := blocks[..|blocks| - 1], blocks[|blocks| - 1];
      if last.name == name {
        forall i | 0 <= i < |front| ensures front[i].name != name { assert blocks[i].name != blocks[|front|].name; }
        NoBody(front, name, key);
      } else {
        BlocksReadBody(front, name, key);
        PlainRead(last.name, last.body, name, key);
      }
    }
  }

  /** A standard table is read off its section's lines. */
  lemma TableRead(doc: Doc, name: string, key: string)
    requires DistinctNames(doc.blocks) && PlainDoc(doc)
    ensures Read(Flatten(doc), Std(name), key) == BodyValue(BodyAt(doc, name), name, key)
  {
    hide BlocksRead, BlocksBody, ReadFrom, Flatten, Plain, DistinctNames;
    DocRead(doc, Std(name), key);
    RootRead(doc.preamble, name, key);
    BlocksReadBody(doc.blocks, name, key);
  }

  // ---------------------------------------------------------------- one section's edit

  /** The value asked for a key. */
  function ValueOf(values: Values, key: string): Option<string> {
    if values == [] then None
    else if values[|values| - 1].0 == key then Some(values[|values| - 1].1)
    else ValueOf(values[..|values| - 1], key)
  }

  /** The body up to the line where a key is written. */
  function BeforeWrite(body: seq<Line>, key: string): seq<Line> {
    match LastKey(body, key)
    case Some(at) => if at < |body| then body[..at] else body
    case None => body
  }

  /** Edits rewrite key lines in place and add lines for keys the body does not have. */
  ghost predicate Shape(body: seq<Line>, now: seq<Line>) {
    |now| >= |body| && forall i :: 0 <= i < |now| ==> ShapeAt(body, now, i)
  }

  ghost predicate ShapeAt(body: seq<Line>, now: seq<Line>, i: nat)
    requires i < |now|
  {
    if i < |body| then now[i] == body[i] || (now[i].Key? && body[i].Key? && now[i].key == body[i].key)
    else now[i].Key? && LastKey(body, now[i].key).None?
  }

  lemma SetKeyShape(body: seq<Line>, now: seq<Line>, key: string, value: string)
    requires Shape(body, now)
    ensures Shape(body, SetKey(body, now, key, value))
  {
    LastKeyInside(body, key);
    hide LastKey;
    var after := SetKey(body, now, key, value);
    forall i | 0 <= i < |after| ensures ShapeAt(body, after, i) {
      if i < |now| { assert ShapeAt(body, now, i); }
    }
  }

  lemma {:induction false} EditShape(body: seq<Line>, values: Values)
    ensures Shape(body, EditBody(body, values))
  {
    hide SetKey;
    if values != [] {
      hide Shape;
      EditShape(body, values[..|values| - 1]);
      SetKeyShape(body, EditBody(body, values[..|values| - 1]), values[|values| - 1].0, values[|values| - 1].1);
    }
  }

  lemma {:induction false} ShapeTable(start: Table, body: seq<Line>, now: seq<Line>, i: nat)
    requires Shape(body, now) && i <= |now|
    ensures TableFrom(start, now[..i]) == TableFrom(start, if i <= |body| then body[..i] else body)
  {
    hide LastKey;
    if i > 0 {
      assert ShapeAt(body, now, i - 1);
      ShapeTable(start, body, now, i - 1);
      assert now[..i][..i - 1] == now[..i - 1];
      if i <= |body| {
        assert body[..i][..i - 1] == body[..i - 1];
      } else if i == |body| + 1 {
        assert body[..|body|] == body;
      }
    }
  }

  /** No line of the key from a place on. */
  ghost predicate NoKeyFrom(lines: seq<Line>, at: nat, key: string) {
    forall i :: at <= i < |lines| ==> !(lines[i].Key? && lines[i].key == key)
  }

  lemma {:induction false} ReadCut(start: Table, lines: seq<Line>, at: nat, table: Table, key: string)
    requires at <= |lines| && NoKeyFrom(lines, at, key)
    ensures ReadFrom(start, lines, table, key) == ReadFrom(start, lines[..at], table, key)
    decreases |lines|
  {
    if at < |lines| {
      assert lines[..|lines| - 1][..at] == lines[..at];
      ReadCut(start, lines[..|lines| - 1], at, table, key);
    } else {
      assert lines[..at] == lines;
    }
  }

  lemma {:induction false} LastKeyIsLast(body: seq<Line>, key: string)
    ensures NoKeyFrom(body, if LastKey(body, key).Some? then LastKey(body, key).value + 1 else 0, key)
  {
    if body != [] { LastKeyIsLast(body[..|body| - 1], key); }
  }

  /** The last line of a key decides what is read, if it stands in the table. */
  lemma ReadAt(start: Table, lines: seq<Line>, at: nat, table: Table, key: string)
    requires at < |lines| && lines[at].Key? && lines[at].key == key && NoKeyFrom(lines, at + 1, key)
    ensures ReadFrom(start, lines, table, key) ==
            if TableFrom(start, lines[..at]) == table then Some(lines[at].value)
            else ReadFrom(start, lines[..at], table, key)
  {
    ReadCut(start, lines, at + 1, table, key);
    assert lines[..at + 1][..at] == lines[..at];
  }

  /** A line of another key may change without consequence. */
  lemma {:induction false} ReadOther(start: Table, lines: seq<Line>, at: nat, line: Line, table: Table, key: string)
    requires at < |lines| && lines[at].Key? && lines[at].key != key && line.Key? && line.key != key
    ensures ReadFrom(start, lines[at := line], table, key) == ReadFrom(start, lines, table, key)
    decreases |lines|
  {
    var edited := lines[at := line];
    var front, last := lines[..|lines| - 1], |lines| - 1;
    if at == last {
      assert edited[..last] == front;
    } else {
      assert edited[..last] == front[at := line];
      ReadOther(start, front, at, line, table, key);
      TableOther(start, front, at, line);
    }
  }

  lemma {:induction false} TableOther(start: Table, lines: seq<Line>, at: nat, line: Line)
    requires at < |lines| && lines[at].Key? && line.Key?
    ensures TableFrom(start, lines[at := line]) == TableFrom(start, lines)
    decreases |lines|
  {
    var front, last := lines[..|lines| - 1], |lines| - 1;
    if at == last {
      assert lines[at := line][..last] == front;
    } else {
      assert lines[at := line][..last] == front[at := line];
      TableOther(start, front, at, line);
    }
  }

  lemma ReadAppended(start: Table, lines: seq<Line>, line: Line, table: Table, key: string)
    requires line.Key?
    ensures ReadFrom(start, lines + [line], table, key) ==
            if line.key == key && TableFrom(start, lines) == table then Some(line.value)
            else ReadFrom(start, lines, table, key)
  {
    assert (lines + [line])[..|lines + [line]| - 1] == lines;
  }

  /** What one set key does to the reading of any key of any table. */
  lemma SetKeyRead(start: Table, body: seq<Line>, now: seq<Line>, changed: string, value: string, table: Table,
                   key: string)
    requires Shape(body, now)
    ensures ReadFrom(start, SetKey(body, now, changed, value), table, key) ==
            if changed == key && TableFrom(start, BeforeWrite(body, key)) == table then Some(value)
            else ReadFrom(start, now, table, key)
  {
    hide ReadFrom, TableFrom, LastKey;
    LastKeyInside(body, changed);
    LastKeyIsLast(body, changed);
    match LastKey(body, changed) {
      case Some(at) =>
        assert ShapeAt(body, now, at);
        if changed == key {
          var edited := now[at := Key(changed, value)];
          forall i | at + 1 <= i < |now| ensures !(now[i].Key? && now[i].key == key) { assert ShapeAt(body, now, i); }
          ReadAt(start, edited, at, table, key);
          ReadAt(start, now, at, table, key);
          assert edited[..at] == now[..at];
          ShapeTable(start, body, now, at);
        } else {
          ReadOther(start, now, at, Key(changed, value), table, key);
        }
      case None =>
        ReadAppended(start, now, Key(changed, value), table, key);
        ShapeTable(start, body, now, |now|);
        assert now[..|now|] == now && body[..|body|] == body;
    }
  }

  /** What an edited body reads: the asked value where the write lands in the table. */
  lemma {:induction false} EditRead(start: Table, body: seq<Line>, values: Values, table: Table, key: string)
    ensures ReadFrom(start, EditBody(body, values), table, key) ==
            if ValueOf(values, key).Some? && TableFrom(start, BeforeWrite(body, key)) == table then ValueOf(values, key)
            else ReadFrom(start, body, table, key)
  {
    hide ReadFrom, TableFrom, SetKey, BeforeWrite, Shape;
    if values != [] {
      var front, last := values[..|values| - 1], values[|values| - 1];
      EditRead(start, body, front, table, key);
      EditShape(body, front);
      SetKeyRead(start, body, EditBody(body, front), last.0, last.1, table, key);
    }
  }

  lemma {:induction false} EditPlain(body: seq<Line>, values: Values)
    requires Plain(body)
    ensures Plain(EditBody(body, values))
  {
    EditShape(body, values);
    hide LastKey;
    var now := EditBody(body, values);
    forall i | 0 <= i < |now| ensures !now[i].Header? { assert ShapeAt(body, now, i); }
  }

  lemma {:induction false} FreshRead(name: string, values: Values, key: string)
    ensures Plain(KeyLines(values)) && TableFrom(Std(name), KeyLines(values)) == Std(name)
    ensures ReadFrom(Std(name), KeyLines(values), Std(name), key) == ValueOf(values, key)
  {
    if values != [] {
      FreshRead(name, values[..|values| - 1], key);
      var before, line := KeyLines(values[..|values| - 1]), Key(values[|values| - 1].0, values[|values| - 1].1);
      assert (before + [line])[..|before + [line]| - 1] == before;
    }
  }

  // ---------------------------------------------------------------- the whole edit

  function NewBody(body: Option<seq<Line>>, values: Values): seq<Line> {
    if body.Some? then EditBody(body.value, values) else KeyLines(values)
  }

  function ValuesFor(updates: seq<Update>, name: string): Option<Values> {
    if updates == [] then None
    else if updates[|updates| - 1].section == name then Some(updates[|updates| - 1].values)
    else ValuesFor(updates[..|updates| - 1], name)
  }

  ghost predicate DistinctSections(updates: seq<Update>) {
    forall i, j :: 0 <= i < j < |updates| ==> updates[i].section != updates[j].section
  }

  lemma {:induction false} BodyByIndex(blocks: seq<Block>, name: string)
    ensures BlockOf(blocks, name) <= |blocks|
    ensures BlocksBody(blocks, name) ==
            if BlockOf(blocks, name) < |blocks| then Some(blocks[BlockOf(blocks, name)].body) else None
  {
    if blocks != [] && blocks[|blocks| - 1].name != name { BodyByIndex(blocks[..|blocks| - 1], name); }
  }

  lemma {:induction false} BodyAlike(a: seq<Block>, b: seq<Block>, name: string)
    requires |a| == |b|
    requires forall i :: 0 <= i < |a| ==> a[i].name == b[i].name && (a[i].name == name ==> a[i].body == b[i].body)
    ensures BlocksBody(a, name) == BlocksBody(b, name)
  {
    if a != [] { BodyAlike(a[..|a| - 1], b[..|b| - 1], name); }
  }

  lemma BodyPut(blocks: seq<Block>, block: Block, name: string)
    ensures BlocksBody(blocks + [block], name) ==
            if block.name == name then Some(block.body) else BlocksBody(blocks, name)
  {
    assert (blocks + [block])[..|blocks + [block]| - 1] == blocks;
  }

  lemma SeparatedBody(doc: Doc, name: string)
    ensures BlocksBody(Separated(doc).blocks, name) == BlocksBody(doc.blocks, name)
  {
    hide BlocksBody, Joined, Flatten;
    BodyAlike(Separated(doc).blocks, doc.blocks, name);
  }

  /** One section's update changes that section's lines and no other's. */
  lemma EditSectionBody(doc: Doc, update: Update, name: string)
    ensures BodyAt(EditSection(doc, update), name) ==
            if name == update.section then Some(NewBody(BodyAt(doc, name), update.values)) else BodyAt(doc, name)
  {
    var at := BlockOf(doc.blocks, update.section);
    BodyByIndex(doc.blocks, update.section);
    BlockOfFacts(doc.blocks, update.section);
    hide BlockOf, BlocksBody, EditBody, KeyLines, Separated;
    if at < |doc.blocks| {
      var edited := EditSection(doc, update);
      assert edited == WithBody(doc, at, EditBody(doc.blocks[at].body, update.values));
      SameNames(doc, at, EditBody(doc.blocks[at].body, update.values));
      if name == update.section {
        BodyByIndex(edited.blocks, name);
      } else {
        BodyAlike(edited.blocks, doc.blocks, name);
      }
    } else {
      BodyPut(Separated(doc).blocks, Block(update.section, KeyLines(update.values), false), name);
      SeparatedBody(doc, name);
    }
  }

  lemma SeparatedPlain(doc: Doc)
    requires PlainDoc(doc)
    ensures PlainDoc(Separated(doc))
  {
    hide Joined, Flatten;
    var after := Separated(doc);
    forall i | 0 <= i < |after.blocks| ensures Plain(after.blocks[i].body) { assert Plain(doc.blocks[i].body); }
  }

  lemma EditSectionPlain(doc: Doc, update: Update)
    requires PlainDoc(doc)
    ensures PlainDoc(EditSection(doc, update))
  {
    var at := BlockOf(doc.blocks, update.section);
    BlockOfFacts(doc.blocks, update.section);
    hide BlockOf, EditBody, KeyLines, Separated;
    var edited := EditSection(doc, update);
    if at < |doc.blocks| {
      assert Plain(doc.blocks[at].body);
      EditPlain(doc.blocks[at].body, update.values);
      forall i | 0 <= i < |edited.blocks| ensures Plain(edited.blocks[i].body) {
        assert i == at || Plain(doc.blocks[i].body);
      }
    } else {
      FreshRead(update.section, update.values, "");
      SeparatedPlain(doc);
      forall i | 0 <= i < |edited.blocks| ensures Plain(edited.blocks[i].body) {
        assert i == |Separated(doc).blocks| || Plain(Separated(doc).blocks[i].body);
      }
    }
  }

  lemma EditSectionNames(doc: Doc, update: Update)
    requires DistinctNames(doc.blocks)
    ensures DistinctNames(EditSection(doc, update).blocks)
  {
    var at := BlockOf(doc.blocks, update.section);
    BlockOfFacts(doc.blocks, update.section);
    hide BlockOf, EditBody, KeyLines, Separated, DistinctNames;
    if at < |doc.blocks| {
      var body := EditBody(doc.blocks[at].body, update.values);
      assert EditSection(doc, update) == WithBody(doc, at, body);
      SameNames(doc, at, body);
    } else {
      AppendedNames(doc, update);
    }
  }

  lemma {:induction false} EditAllPlain(doc: Doc, updates: seq<Update>)
    requires PlainDoc(doc)
    ensures PlainDoc(EditAll(doc, updates))
  {
    hide PlainDoc, EditSection;
    if updates != [] {
      EditAllPlain(doc, updates[..|updates| - 1]);
      EditSectionPlain(EditAll(doc, updates[..|updates| - 1]), updates[|updates| - 1]);
    }
  }

  lemma {:induction false} EditAllNames(doc: Doc, updates: seq<Update>)
    requires DistinctNames(doc.blocks)
    ensures DistinctNames(EditAll(doc, updates).blocks)
  {
    hide DistinctNames, EditSection;
    if updates != [] {
      EditAllNames(doc, updates[..|updates| - 1]);
      EditSectionNames(EditAll(doc, updates[..|updates| - 1]), updates[|updates| - 1]);
    }
  }

  lemma {:induction false} NotFor(updates: seq<Update>, name: string)
    requires forall i :: 0 <= i < |updates| ==> updates[i].section != name
    ensures ValuesFor(updates, name).None?
  {
    if updates != [] { NotFor(updates[..|updates| - 1], name); }
  }

  /** Every section ends up with its own update applied to its original lines. */
  lemma {:induction false} EditAllBody(doc: Doc, updates: seq<Update>, name: string)
    requires DistinctSections(updates)
    ensures BodyAt(EditAll(doc, updates), name) ==
            match ValuesFor(updates, name)
            case Some(values) => Some(NewBody(BodyAt(doc, name), values))
            case None => BodyAt(doc, name)
  {
    hide BodyAt, NewBody, EditSection;
    if updates != [] {
      var front, last := updates[..|updates| - 1], updates[|updates| - 1];
      EditAllBody(doc, front, name);
      EditSectionBody(EditAll(doc, front), last, name);
      if last.section == name {
        forall i | 0 <= i < |front| ensures front[i].section != name {
          assert updates[i].section != updates[|front|].section;
        }
        NotFor(front, name);
      }
    }
  }

  lemma {:induction false} StripRead(lines: seq<Line>, table: Table, key: string)
    ensures Read(StripBlank(lines), table, key) == Read(lines, table, key)
  {
    if lines != [] && lines[|lines| - 1] == Blank { StripRead(lines[..|lines| - 1], table, key); }
  }

  /** The file the editor writes. */
  function Edited(lines: seq<Line>, updates: seq<Update>): seq<Line> {
    StripBlank(Flatten(EditAll(Parse(lines), updates)))
  }

  /** Reading a standard table of the edited file, section lines to section lines. */
  lemma EditedRead(lines: seq<Line>, updates: seq<Update>, name: string, key: string)
    requires DistinctNames(Parse(lines).blocks) && DistinctSections(updates)
    ensures Read(lines, Std(name), key) == BodyValue(BodyAt(Parse(lines), name), name, key)
    ensures Read(Edited(lines, updates), Std(name), key) ==
            BodyValue(match ValuesFor(updates, name)
                      case Some(values) => Some(NewBody(BodyAt(Parse(lines), name), values))
                      case None => BodyAt(Parse(lines), name), name, key)
  {
    hide Parse, EditAll, Flatten, Read, BodyAt, BodyValue, NewBody, StripBlank, PlainDoc, DistinctNames;
    ParseFlattens(lines);
    ParsePlain(lines);
    TableRead(Parse(lines), name, key);
    EditAllPlain(Parse(lines), updates);
    EditAllNames(Parse(lines), updates);
    EditAllBody(Parse(lines), updates, name);
    TableRead(EditAll(Parse(lines), updates), name, key);
    StripRead(Flatten(EditAll(Parse(lines), updates)), Std(name), key);
  }

  /** No array-of-tables header stands between the section's header and the line where
      the key is written. */
  predicate LandsInSection(lines: seq<Line>, name: string, key: string) {
    var body := BodyAt(Parse(lines), name);
    body.Some? ==> ArrayFree(BeforeWrite(body.value, key))
  }

  lemma {:induction false} BodyPlain(blocks: seq<Block>, name: string)
    requires forall i :: 0 <= i < |blocks| ==> Plain(blocks[i].body)
    ensures BlocksBody(blocks, name).Some? ==> Plain(BlocksBody(blocks, name).value)
  {
    if blocks != [] { BodyPlain(blocks[..|blocks| - 1], name); }
  }

  lemma BeforeWritePlain(body: seq<Line>, key: string)
    requires Plain(body)
    ensures Plain(BeforeWrite(body, key))
  {
    LastKeyInside(body, key);
  }

  /** An updated key reads back its new value exactly when its line lands in its section,
      or the section already had that value. */
  lemma UpdatedReadsBack(lines: seq<Line>, updates: seq<Update>, name: string, values: Values, key: string,
                         value: string)
    requires DistinctNames(Parse(lines).blocks) && DistinctSections(updates)
    requires ValuesFor(updates, name) == Some(values) && ValueOf(values, key) == Some(value)
    ensures Read(Edited(lines, updates), Std(name), key) == Some(value) <==>
            LandsInSection(lines, name, key) || Read(lines, Std(name), key) == Some(value)
  {
    hide Parse, Read, Edited, ReadFrom, TableFrom, BeforeWrite, EditBody, KeyLines, DistinctNames;
    EditedRead(lines, updates, name, key);
    ParsePlain(lines);
    BodyPlain(Parse(lines).blocks, name);
    hide BlocksBody;
    var body := BodyAt(Parse(lines), name);
    match body {
      case Some(original) =>
        EditRead(Std(name), original, values, Std(name), key);
        BeforeWritePlain(original, key);
        PlainTable(name, BeforeWrite(original, key));
      case None => FreshRead(name, values, key);
    }
  }

  /** Every other key of every standard table reads as before. */
  lemma OthersReadAsBefore(lines: seq<Line>, updates: seq<Update>, name: string, key: string)
    requires DistinctNames(Parse(lines).blocks) && DistinctSections(updates)
    requires ValuesFor(updates, name).None? || ValueOf(ValuesFor(updates, name).value, key).None?
    ensures Read(Edited(lines, updates), Std(name), key) == Read(lines, Std(name), key)
  {
    hide Parse, Read, Edited, ReadFrom, TableFrom, BeforeWrite, EditBody, KeyLines, DistinctNames, BlocksBody;
    EditedRead(lines, updates, name, key);
    var body := BodyAt(Parse(lines), name);
    match ValuesFor(updates, name) {
      case Some(values) =>
        match body {
          case Some(original) => EditRead(Std(name), original, values, Std(name), key);
          case None => FreshRead(name, values, key);
        }
      case None =>
    }
  }

  lemma ParseTwo(first: Line, second: Line)
    ensures Parse([first, second]) == AddLine(AddLine(Doc([], []), first), second)
  {
    hide AddLine;
    assert [first, second][..1] == [first] && [first][..0] == [];
    assert Parse([first]) == AddLine(Doc([], []), first);
  }

  /** A key set in a section whose lines go on into an array of tables is lost to the section. */
  lemma ArrayTakesTheKey()
    ensures var lines := [Header("a"), ArrayHeader("b")];
            && DistinctNames(Parse(lines).blocks)
            && Read(Edited(lines, [Update("a", [("k", "1")])]), Std("a"), "k") != Some("1")
  {
    var lines, values := [Header("a"), ArrayHeader("b")], [("k", "1")];
    ParseTwo(Header("a"), ArrayHeader("b"));
    var block := Block("a", [ArrayHeader("b")], false);
    var withHeader := Doc([], [Block("a", [], false)]);
    assert AddLine(Doc([], []), Header("a")) == withHeader;
    assert withHeader.blocks[..0] == [] && [] + [ArrayHeader("b")] == block.body;
    assert AddLine(withHeader, ArrayHeader("b")) == Doc([], [block]);
    assert Parse(lines).blocks == [block];
    assert BodyAt(Parse(lines), "a") == Some(block.body);
    assert LastKey(block.body, "k") == None by { assert block.body[..0] == []; }
    assert !ArrayFree(block.body) by { assert block.body[0].ArrayHeader?; }
    assert Read(lines, Std("a"), "k") == None by {
      ReadCut(Root, lines, 0, Std("a"), "k");
      assert lines[..0] == [];
    }
    assert ValueOf(values, "k") == Some("1") && ValuesFor([Update("a", values)], "a") == Some(values);
    hide *;
    UpdatedReadsBack(lines, [Update("a", values)], "a", values, "k", "1");
  }
}
