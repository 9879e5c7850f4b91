/** Setting keys in a TOML file line by line while keeping everything else. */
module TomlEditor {
  import opened Options

  /** A line as TOML sees it. The editor itself does not tell an array-of-tables header
      from any other line. */
  datatype Line =
    | Header(name: string)
    | ArrayHeader(name: string)
    | Key(key: string, value: string)
    | Blank
    | Other(text: string)

  /** The new values of one section, in order. */
  type Values = seq<(string, string)>

  datatype Update = Update(section: string, values: Values)

  // ---------------------------------------------------------------- the file in blocks

  /** A section: its header, its lines up to where the editor ends it, and whether a
      separator line follows. */
  datatype Block = Block(name: string, body: seq<Line>, gap: bool)

  datatype Doc = Doc(preamble: seq<Line>, blocks: seq<Block>)

  function LinesOf(block: Block): seq<Line> {
    [Header(block.name)] + block.body + if block.gap then [Blank] else []
  }

  function Joined(blocks: seq<Block>): seq<Line> {
    if blocks == [] then [] else Joined(blocks[..|blocks| - 1]) + LinesOf(blocks[|blocks| - 1])
  }

  function Flatten(doc: Doc): seq<Line> {
    doc.preamble + Joined(doc.blocks)
  }

  /** The blocks with one more line at the end. */
  function AddLine(doc: Doc, line: Line): Doc {
    if line.Header? then doc.(blocks := doc.blocks + [Block(line.name, [], false)])
    else if doc.blocks == [] then doc.(preamble := doc.preamble + [line])
    else
      var last := doc.blocks[|doc.blocks| - 1];
      doc.(blocks := doc.blocks[..|doc.blocks| - 1] + [last.(body := last.body + [line])])
  }

  function Parse(lines: seq<Line>): Doc {
    if lines == [] then Doc([], []) else AddLine(Parse(lines[..|lines| - 1]), lines[|lines| - 1])
  }

  ghost predicate NoGaps(doc: Doc) {
    forall i :: 0 <= i < |doc.blocks| ==> !doc.blocks[i].gap
  }

  lemma {:induction false} JoinedAppend(a: seq<Block>, b: seq<Block>)
    ensures Joined(a + b) == Joined(a) + Joined(b)
    decreases |b|
  {
    hide LinesOf;
    if b == [] {
      assert a + b == a;
    } else {
      assert (a + b)[..|a + b| - 1] == a + b[..|b| - 1];
      JoinedAppend(a, b[..|b| - 1]);
    }
  }

  lemma JoinedOne(block: Block)
    ensures Joined([block]) == LinesOf(block)
  {
    hide LinesOf;
    assert [block][..|[block]| - 1] == [];
  }

  lemma JoinedPut(blocks: seq<Block>, block: Block)
    ensures Joined(blocks + [block]) == Joined(blocks) + LinesOf(block)
  {
    hide Joined, LinesOf;
    JoinedAppend(blocks, [block]);
    JoinedOne(block);
  }

  lemma AddLineFlattens(doc: Doc, line: Line)
    requires NoGaps(doc)
    ensures NoGaps(AddLine(doc, line)) && Flatten(AddLine(doc, line)) == Flatten(doc) + [line]
  {
    hide Joined;
    if line.Header? {
      JoinedPut(doc.blocks, Block(line.name, [], false));
    } else if doc.blocks == [] {
      JoinedNone();
    } else {
      var front, last := doc.blocks[..|doc.blocks| - 1], doc.blocks[|doc.blocks| - 1];
      assert doc.blocks == front + [last];
      JoinedPut(front, last);
      JoinedPut(front, last.(body := last.body + [line]));
    }
  }

  lemma JoinedNone()
    ensures Joined([]) == []
  {
  }

  /** Cutting a file into sections loses nothing. */
  lemma {:induction false} ParseFlattens(lines: seq<Line>)
    ensures NoGaps(Parse(lines)) && Flatten(Parse(lines)) == lines
  {
    hide AddLine, Flatten, NoGaps;
    if lines == [] {
      EmptyDoc();
    } else {
      ParseFlattens(lines[..|lines| - 1]);
      AddLineFlattens(Parse(lines[..|lines| - 1]), lines[|lines| - 1]);
    }
  }

  lemma EmptyDoc()
    ensures NoGaps(Doc([], [])) && Flatten(Doc([], [])) == []
  {
  }

  // ---------------------------------------------------------------- the edit, on blocks

  /** Where the last line of a key is, or None. */
  function LastKey(body: seq<Line>, key: string): Option<nat> {
    if body == [] then None
    else if body[|body| - 1].Key? && body[|body| - 1].key == key then Some(|body| - 1)
    else LastKey(body[..|body| - 1], key)
  }

  /** One value set: in place of the key's line if the original body has one, else last. */
  function SetKey(original: seq<Line>, body: seq<Line>, key: string, value: string): seq<Line> {
    match LastKey(original, key)
    case Some(at) => if at < |body| then body[at := Key(key, value)] else body
    case None => body + [Key(key, value)]
  }

  function EditBody(body: seq<Line>, values: Values): seq<Line> {
    if values == [] then body
    else SetKey(body, EditBody(body, values[..|values| - 1]), values[|values| - 1].0, values[|values| - 1].1)
  }

  function KeyLines(values: Values): seq<Line> {
    if values == [] then []
    else KeyLines(values[..|values| - 1]) + [Key(values[|values| - 1].0, values[|values| - 1].1)]
  }

  /** A separator line unless the file is empty or already ends with a blank one. */
  function Separated(doc: Doc): Doc {
    var lines := Flatten(doc);
    if lines == [] || lines[|lines| - 1] == Blank then doc
    else if doc.blocks == [] then doc.(preamble := doc.preamble + [Blank])
    else
      var last := doc.blocks[|doc.blocks| - 1];
      doc.(blocks := doc.blocks[..|doc.blocks| - 1] + [last.(gap := true)])
  }

  /** The block of a section, or the number of blocks. */
  function BlockOf(blocks: seq<Block>, name: string): nat {
    if blocks == [] then 0
    else if blocks[|blocks| - 1].name == name then |blocks| - 1
    else
      var at := BlockOf(blocks[..|blocks| - 1], name);
      if at == |blocks| - 1 then |blocks| else at
  }

  function EditSection(doc: Doc, update: Update): Doc {
    var at := BlockOf(doc.blocks, update.section);
    if at < |doc.blocks| then
      doc.(blocks := doc.blocks[at := doc.blocks[at].(body := EditBody(doc.blocks[at].body, update.values))])
    else
      var separated := Separated(doc);
      separated.(blocks := separated.blocks + [Block(update.section, KeyLines(update.values), false)])
  }

  function EditAll(doc: Doc, updates: seq<Update>): Doc {
    if updates == [] then doc else EditSection(EditAll(doc, updates[..|updates| - 1]), updates[|updates| - 1])
  }

  function StripBlank(lines: seq<Line>): seq<Line> {
    if lines != [] && lines[|lines| - 1] == Blank then StripBlank(lines[..|lines| - 1]) else lines
  }

  // ---------------------------------------------------------------- ranges

  /** Where a block's header stands. */
  function Start(doc: Doc, i: nat): nat
    requires i <= |doc.blocks|
  {
    |doc.preamble| + |Joined(doc.blocks[..i])|
  }

  function End(doc: Doc, i: nat): nat
    requires i < |doc.blocks|
  {
    Start(doc, i) + 1 + |doc.blocks[i].body|
  }

  type Ranges = map<string, (nat, nat)>

  ghost predicate DistinctNames(blocks: seq<Block>) {
    forall i, j :: 0 <= i < j < |blocks| ==> blocks[i].name != blocks[j].name
  }

  function Stored(ranges: Ranges, name: string): Option<(nat, nat)> {
    if name in ranges then Some(ranges[name]) else None
  }

  /** The range of the last section of a name among the first n. */
  function RangeIn(doc: Doc, n: nat, name: string): Option<(nat, nat)>
    requires n <= |doc.blocks|
  {
    var at := BlockOf(doc.blocks[..n], name);
    if at < n then Some((Start(doc, at), End(doc, at))) else None
  }

  ghost predicate RangeFor(ranges: Ranges, doc: Doc, n: nat, name: string)
    requires n <= |doc.blocks|
  {
    Stored(ranges, name) == RangeIn(doc, n, name)
  }

  ghost predicate RangesTo(ranges: Ranges, doc: Doc, n: nat)
    requires n <= |doc.blocks|
  {
    forall name :: RangeFor(ranges, doc, n, name)
  }

  /** The stored ranges are those of the sections: of the last one, if several share a name. */
  ghost predicate RangesOk(ranges: Ranges, doc: Doc) {
    RangesTo(ranges, doc, |doc.blocks|)
  }

  lemma RangeWhole(doc: Doc, name: string)
    ensures var at := BlockOf(doc.blocks, name);
            RangeIn(doc, |doc.blocks|, name) == if at < |doc.blocks| then Some((Start(doc, at), End(doc, at))) else None
  {
    hide BlockOf, Start, End;
    assert doc.blocks[..|doc.blocks|] == doc.blocks;
  }

  lemma RangeOf(ranges: Ranges, doc: Doc, name: string)
    requires RangesOk(ranges, doc)
    ensures var at := BlockOf(doc.blocks, name);
            Stored(ranges, name) == if at < |doc.blocks| then Some((Start(doc, at), End(doc, at))) else None
  {
    hide BlockOf, Start, End, Stored, RangeIn;
    assert RangeFor(ranges, doc, |doc.blocks|, name);
    RangeWhole(doc, name);
  }

  lemma RangesHold(ranges: Ranges, doc: Doc)
    requires forall name :: RangeFor(ranges, doc, |doc.blocks|, name)
    ensures RangesOk(ranges, doc)
  {
    hide RangeFor;
  }

  lemma {:induction false} BlockOfFacts(blocks: seq<Block>, name: string)
    ensures BlockOf(blocks, name) <= |blocks|
    ensures BlockOf(blocks, name) < |blocks| ==> blocks[BlockOf(blocks, name)].name == name
    ensures BlockOf(blocks, name) == |blocks| ==> forall i :: 0 <= i < |blocks| ==> blocks[i].name != name
  {
    if blocks != [] && blocks[|blocks| - 1].name != name { BlockOfFacts(blocks[..|blocks| - 1], name); }
  }

  /** Of several sections of one name the last is the one edited. */
  lemma {:induction false} LastOfName(blocks: seq<Block>, i: nat)
    requires i < |blocks| && forall j :: i < j < |blocks| ==> blocks[j].name != blocks[i].name
    ensures BlockOf(blocks, blocks[i].name) == i
    decreases |blocks|
  {
    if i < |blocks| - 1 { LastOfName(blocks[..|blocks| - 1], i); }
  }

  lemma StartNext(doc: Doc, i: nat)
    requires i < |doc.blocks|
    ensures Start(doc, i + 1) == End(doc, i) + if doc.blocks[i].gap then 1 else 0
  {
    hide Joined;
    assert doc.blocks[..i + 1] == doc.blocks[..i] + [doc.blocks[i]];
    JoinedPut(doc.blocks[..i], doc.blocks[i]);
  }

  lemma {:induction false} StartsAscend(doc: Doc, i: nat, j: nat)
    requires i < j <= |doc.blocks|
    ensures End(doc, i) <= Start(doc, j)
    decreases j
  {
    hide Start, End;
    StartNext(doc, j - 1);
    if i < j - 1 {
      StartsAscend(doc, i, j - 1);
      EndAfterStart(doc, j - 1);
    }
  }

  lemma EndAfterStart(doc: Doc, i: nat)
    requires i < |doc.blocks|
    ensures Start(doc, i) < End(doc, i)
  {
  }

  /** The file up to and with a block's header, and what follows its body. */
  function Head(doc: Doc, i: nat): seq<Line>
    requires i < |doc.blocks|
  {
    doc.preamble + Joined(doc.blocks[..i]) + [Header(doc.blocks[i].name)]
  }

  function Tail(doc: Doc, i: nat): seq<Line>
    requires i < |doc.blocks|
  {
    (if doc.blocks[i].gap then [Blank] else []) + Joined(doc.blocks[i + 1..])
  }

  lemma FlattenCut(doc: Doc, i: nat)
    requires i < |doc.blocks|
    ensures Flatten(doc) == Head(doc, i) + doc.blocks[i].body + Tail(doc, i)
    ensures |Head(doc, i)| == Start(doc, i) + 1 && |Head(doc, i) + doc.blocks[i].body| == End(doc, i)
  {
    var before, block, after := doc.blocks[..i], doc.blocks[i], doc.blocks[i + 1..];
    assert doc.blocks == before + [block] + after;
    hide Joined;
    JoinedAppend(before + [block], after);
    JoinedPut(before, block);
    var gap := if block.gap then [Blank] else [];
    Regroup(doc.preamble, Joined(before), [Header(block.name)], block.body, gap, Joined(after));
  }

  lemma Regroup(p: seq<Line>, a: seq<Line>, h: seq<Line>, b: seq<Line>, g: seq<Line>, c: seq<Line>)
    ensures p + ((a + (h + b + g)) + c) == (p + a + h) + b + (g + c)
  {
  }

  function WithBody(doc: Doc, i: nat, body: seq<Line>): Doc
    requires i < |doc.blocks|
  {
    doc.(blocks := doc.blocks[i := doc.blocks[i].(body := body)])
  }

  /** Replacing one block's body leaves the lines around it. */
  lemma FlattenWith(doc: Doc, i: nat, body: seq<Line>)
    requires i < |doc.blocks|
    ensures Flatten(WithBody(doc, i, body)) == Head(doc, i) + body + Tail(doc, i)
  {
    var edited := WithBody(doc, i, body);
    assert edited.blocks[..i] == doc.blocks[..i] && edited.blocks[i + 1..] == doc.blocks[i + 1..];
    hide Flatten, Joined;
    FlattenCut(edited, i);
  }

  /** Edits of one body move the sections after it, and no others. */
  lemma StartsWith(doc: Doc, i: nat, body: seq<Line>, j: nat)
    requires i < |doc.blocks| && j < |doc.blocks|
    ensures var edited := WithBody(doc, i, body);
            Start(edited, j) == Start(doc, j) + if j > i then |body| - |doc.blocks[i].body| else 0
  {
    var edited := WithBody(doc, i, body);
    hide Joined;
    if j <= i {
      assert edited.blocks[..j] == doc.blocks[..j];
    } else {
      var before, block, after := doc.blocks[..i], doc.blocks[i], doc.blocks[i + 1..j];
      assert doc.blocks[..j] == before + [block] + after;
      assert edited.blocks[..j] == before + [block.(body := body)] + after;
      JoinedAppend(before + [block], after);
      JoinedAppend(before + [block.(body := body)], after);
      JoinedPut(before, block);
      JoinedPut(before, block.(body := body));
    }
  }

  // ---------------------------------------------------------------- the program

  /** The headers the editor sees, with their lines. */
  ghost predicate StartsOf(starts: seq<(string, nat)>, doc: Doc) {
    |starts| == |doc.blocks| && forall i :: 0 <= i < |starts| ==> StartAt(starts, doc, i)
  }

  ghost predicate StartAt(starts: seq<(string, nat)>, doc: Doc, i: nat)
    requires i < |starts| && i < |doc.blocks|
  {
    starts[i] == (doc.blocks[i].name, Start(doc, i))
  }

  lemma StartsGrow(starts: seq<(string, nat)>, doc: Doc, line: Line)
    requires StartsOf(starts, doc)
    ensures StartsOf(if line.Header? then starts + [(line.name, |Flatten(doc)|)] else starts, AddLine(doc, line))
  {
    hide Joined;
    var after, grown := AddLine(doc, line), if line.Header? then starts + [(line.name, |Flatten(doc)|)] else starts;
    forall i | 0 <= i < |grown| ensures StartAt(grown, after, i) {
      if i < |starts| {
        assert StartAt(starts, doc, i);
        assert after.blocks[..i] == doc.blocks[..i];
      } else {
        assert after.blocks[..i] == doc.blocks;
      }
    }
  }

  method FindSections(lines: seq<Line>) returns (starts: seq<(string, nat)>)
    ensures StartsOf(starts, Parse(lines))
  {
    starts := [];
    assert Parse(lines[..0]) == Doc([], []);
    for index: nat := 0 to |lines|
      invariant StartsOf(starts, Parse(lines[..index]))
    {
      assert lines[..index + 1][..index] == lines[..index];
      assert Parse(lines[..index + 1]) == AddLine(Parse(lines[..index]), lines[index]);
      hide StartsOf, Parse, AddLine, Flatten;
      ParseFlattens(lines[..index]);
      StartsGrow(starts, Parse(lines[..index]), lines[index]);
      if lines[index].Header? { starts := starts + [(lines[index].name, index)]; }
    }
    assert lines[..|lines|] == lines;
  }

  /** Of two sections of one name the later one stays in the table. */
  lemma RangesGrow(ranges: Ranges, doc: Doc, n: nat)
    requires n < |doc.blocks| && RangesTo(ranges, doc, n)
    ensures RangesTo(ranges[doc.blocks[n].name := (Start(doc, n), End(doc, n))], doc, n + 1)
  {
    var grown, next := ranges[doc.blocks[n].name := (Start(doc, n), End(doc, n))], n + 1;
    hide Start, End;
    forall name ensures RangeFor(grown, doc, next, name) {
      assert RangeFor(ranges, doc, n, name);
      assert doc.blocks[..n + 1][..n] == doc.blocks[..n];
      BlockOfFacts(doc.blocks[..n], name);
    }
  }

  lemma EndIsNextStart(lines: seq<Line>, i: nat)
    requires i < |Parse(lines).blocks|
    ensures var doc := Parse(lines);
            End(doc, i) == if i + 1 < |doc.blocks| then Start(doc, i + 1) else |lines|
  {
    hide Parse, Joined, End;
    var doc := Parse(lines);
    ParseFlattens(lines);
    StartNext(doc, i);
    assert doc.blocks[..|doc.blocks|] == doc.blocks;
  }

  method SectionRanges(lines: seq<Line>) returns (ranges: Ranges)
    ensures RangesOk(ranges, Parse(lines))
  {
    ghost var doc := Parse(lines);
    var starts := FindSections(lines);
    ranges := map[];
    hide Parse, Start, End;
    for offset: nat := 0 to |starts|
      invariant RangesTo(ranges, doc, offset)
    {
      hide RangesTo;
      assert StartAt(starts, doc, offset);
      assert offset + 1 < |starts| ==> StartAt(starts, doc, offset + 1);
      EndIsNextStart(lines, offset);
      RangesGrow(ranges, doc, offset);
      var end := if offset + 1 < |starts| then starts[offset + 1].1 else |lines|;
      ranges := ranges[starts[offset].0 := (starts[offset].1, end)];
    }
  }

  /** The map gives each key the file line of its last line in the body. */
  ghost predicate KeysAt(existing: map<string, nat>, body: seq<Line>, base: nat) {
    forall key :: KeyAt(existing, body, base, key)
  }

  ghost predicate KeyAt(existing: map<string, nat>, body: seq<Line>, base: nat, key: string) {
    (if key in existing then Some(existing[key]) else None) ==
    match LastKey(body, key) case Some(at) => Some(base + at) case None => None
  }

  lemma KeysGrow(existing: map<string, nat>, body: seq<Line>, base: nat, line: Line)
    requires KeysAt(existing, body, base)
    ensures KeysAt(if line.Key? then existing[line.key := base + |body|] else existing, body + [line], base)
  {
    var grown := if line.Key? then existing[line.key := base + |body|] else existing;
    forall key ensures KeyAt(grown, body + [line], base, key) {
      assert KeyAt(existing, body, base, key);
      assert (body + [line])[..|body + [line]| - 1] == body;
    }
  }

  method ExistingKeys(lines: seq<Line>, start: nat, end: nat) returns (existing: map<string, nat>)
    requires start < end <= |lines|
    ensures KeysAt(existing, lines[start + 1..end], start + 1)
  {
    existing := map[];
    for index: nat := start + 1 to end
      invariant KeysAt(existing, lines[start + 1..index], start + 1)
    {
      assert lines[start + 1..index + 1] == lines[start + 1..index] + [lines[index]];
      hide KeysAt;
      KeysGrow(existing, lines[start + 1..index], start + 1, lines[index]);
      if lines[index].Key? { existing := existing[lines[index].key := index]; }
    }
  }

  lemma {:induction false} LastKeyInside(body: seq<Line>, key: string)
    ensures LastKey(body, key).Some? ==> LastKey(body, key).value < |body| && body[LastKey(body, key).value].Key?
                                         && body[LastKey(body, key).value].key == key
  {
    if body != [] { LastKeyInside(body[..|body| - 1], key); }
  }

  lemma {:induction false} EditGrows(body: seq<Line>, values: Values)
    ensures |EditBody(body, values)| >= |body|
  {
    if values != [] { EditGrows(body, values[..|values| - 1]); }
  }

  lemma EditStep(body: seq<Line>, values: Values, i: nat)
    requires i < |values|
    ensures EditBody(body, values[..i + 1]) == SetKey(body, EditBody(body, values[..i]), values[i].0, values[i].1)
  {
    hide SetKey;
    assert values[..i + 1][..i] == values[..i];
  }

  /** A value written over a line of the body, or inserted after it. */
  lemma WriteLine(head: seq<Line>, body: seq<Line>, tail: seq<Line>, line: Line, at: nat)
    requires at <= |body|
    ensures var lines := head + body + tail;
            && (at < |body| ==> lines[|head| + at := line] == head + body[at := line] + tail)
            && lines[..|head + body|] + [line] + lines[|head + body|..] == head + (body + [line]) + tail
  {
    var lines := head + body + tail;
    assert lines[..|head + body|] == head + body && lines[|head + body|..] == tail;
  }

  method WriteValues(lines: seq<Line>, existing: map<string, nat>, end: nat, values: Values,
                     ghost head: seq<Line>, ghost body: seq<Line>, ghost tail: seq<Line>)
      returns (edited: seq<Line>, added: nat)
    requires lines == head + body + tail && end == |head + body| && KeysAt(existing, body, |head|)
    ensures edited == head + EditBody(body, values) + tail
    ensures |EditBody(body, values)| == |body| + added
  {
    edited, added := lines, 0;
    for i: nat := 0 to |values|
      invariant edited == head + EditBody(body, values[..i]) + tail
      invariant |EditBody(body, values[..i])| == |body| + added
    {
      var (key, value) := values[i];
      assert KeyAt(existing, body, |head|, key);
      EditStep(body, values, i);
      LastKeyInside(body, key);
      ghost var now := EditBody(body, values[..i]);
      var line := Key(key, value);
      hide LastKey, KeysAt, EditBody;
      if key in existing {
        WriteLine(head, now, tail, line, existing[key] - |head|);
        edited := edited[existing[key] := line];
      } else {
        WriteLine(head, now, tail, line, |now|);
        edited := edited[..end + added] + [line] + edited[end + added..];
        added := added + 1;
      }
    }
    assert values[..|values|] == values;
  }

  function Moved(range: (nat, nat), end: nat, added: nat): (nat, nat) {
    if range.0 >= end then (range.0 + added, range.1 + added) else range
  }

  /** The ranges after lines were added at the end of a section. */
  function Shifted(ranges: Ranges, section: string, start: nat, end: nat, added: nat): Ranges {
    map name | name in ranges :: if name == section then (start, end + added) else Moved(ranges[name], end, added)
  }

  method ShiftRanges(ranges: Ranges, section: string, start: nat, end: nat, added: nat) returns (shifted: Ranges)
    requires section in ranges
    ensures shifted == Shifted(ranges, section, start, end, added)
  {
    shifted := ranges;
    var left := ranges.Keys;
    while left != {}
      invariant left <= ranges.Keys && shifted.Keys == ranges.Keys
      invariant forall name :: name in ranges && name != section ==>
        shifted[name] == if name in left then ranges[name] else Moved(ranges[name], end, added)
      decreases |left|
    {
      hide Shifted;
      var name :| name in left;
      var (otherStart, otherEnd) := ranges[name];
      if otherStart >= end && name != section {
        shifted := shifted[name := (otherStart + added, otherEnd + added)];
      }
      left := left - {name};
    }
    shifted := shifted[section := (start, end + added)];
  }

  lemma SameNames(doc: Doc, i: nat, body: seq<Line>)
    requires i < |doc.blocks|
    ensures DistinctNames(doc.blocks) ==> DistinctNames(WithBody(doc, i, body).blocks)
    ensures forall name :: BlockOf(WithBody(doc, i, body).blocks, name) == BlockOf(doc.blocks, name)
  {
    forall name ensures BlockOf(WithBody(doc, i, body).blocks, name) == BlockOf(doc.blocks, name) {
      BlockOfAlike(WithBody(doc, i, body).blocks, doc.blocks, name);
    }
  }

  lemma {:induction false} BlockOfAlike(a: seq<Block>, b: seq<Block>, name: string)
    requires |a| == |b| && forall i :: 0 <= i < |a| ==> a[i].name == b[i].name
    ensures BlockOf(a, name) == BlockOf(b, name)
  {
    if a != [] { BlockOfAlike(a[..|a| - 1], b[..|b| - 1], name); }
  }

  /** Insertions shift exactly the sections after the edited one. */
  lemma ShiftOk(ranges: Ranges, doc: Doc, i: nat, body: seq<Line>)
    requires RangesOk(ranges, doc) && i < |doc.blocks| && BlockOf(doc.blocks, doc.blocks[i].name) == i
    requires |body| >= |doc.blocks[i].body|
    ensures var added := |body| - |doc.blocks[i].body|;
            RangesOk(Shifted(ranges, doc.blocks[i].name, Start(doc, i), End(doc, i), added), WithBody(doc, i, body))
  {
    var added := |body| - |doc.blocks[i].body|;
    var shifted, edited :=
      Shifted(ranges, doc.blocks[i].name, Start(doc, i), End(doc, i), added), WithBody(doc, i, body);
    hide Start, End, BlockOf, RangesOk, Shifted, Stored, RangeIn;
    forall name ensures RangeFor(shifted, edited, |edited.blocks|, name) {
      RangeOf(ranges, doc, name);
      ShiftedAt(ranges, doc.blocks[i].name, Start(doc, i), End(doc, i), added, name);
      RangeWith(doc, i, body, name);
    }
    RangesHold(shifted, edited);
  }

  lemma ShiftedAt(ranges: Ranges, section: string, start: nat, end: nat, added: nat, name: string)
    ensures Stored(Shifted(ranges, section, start, end, added), name) ==
            match Stored(ranges, name)
            case Some(range) => Some(if name == section then (start, end + added) else Moved(range, end, added))
            case None => None
  {
  }

  /** Where a section stands after another one, or it, has grown. */
  lemma GrownRange(doc: Doc, i: nat, body: seq<Line>, j: nat)
    requires i < |doc.blocks| && j < |doc.blocks| && |body| >= |doc.blocks[i].body|
    ensures var edited, added := WithBody(doc, i, body), |body| - |doc.blocks[i].body|;
            (Start(edited, j), End(edited, j)) ==
            if i == j then (Start(doc, i), End(doc, i) + added)
            else Moved((Start(doc, j), End(doc, j)), End(doc, i), added)
  {
    hide Start;
    StartsWith(doc, i, body, j);
    if j < i {
      StartsAscend(doc, j, i);
    } else if j > i {
      StartsAscend(doc, i, j);
    }
  }

  lemma RangeWith(doc: Doc, i: nat, body: seq<Line>, name: string)
    requires i < |doc.blocks| && BlockOf(doc.blocks, doc.blocks[i].name) == i && |body| >= |doc.blocks[i].body|
    ensures var edited, added, j := WithBody(doc, i, body), |body| - |doc.blocks[i].body|, BlockOf(doc.blocks, name);
            RangeIn(edited, |edited.blocks|, name) ==
            if j >= |doc.blocks| then None
            else if name == doc.blocks[i].name then Some((Start(doc, i), End(doc, i) + added))
            else Some(Moved((Start(doc, j), End(doc, j)), End(doc, i), added))
  {
    hide Start, End, BlockOf, RangeIn;
    var j := BlockOf(doc.blocks, name);
    SameNames(doc, i, body);
    RangeWhole(WithBody(doc, i, body), name);
    BlockOfFacts(doc.blocks, name);
    if j < |doc.blocks| { GrownRange(doc, i, body, j); }
  }

  lemma ShiftNothing(ranges: Ranges, section: string, start: nat, end: nat)
    requires section in ranges && ranges[section] == (start, end)
    ensures Shifted(ranges, section, start, end, 0) == ranges
  {
  }

  /** Updates a section the file has. */
  method UpdateExisting(lines: seq<Line>, ranges: Ranges, update: Update, ghost doc: Doc)
      returns (edited: seq<Line>, shifted: Ranges)
    requires lines == Flatten(doc) && RangesOk(ranges, doc) && update.section in ranges
    ensures edited == Flatten(EditSection(doc, update)) && RangesOk(shifted, EditSection(doc, update))
  {
    ghost var i := BlockOf(doc.blocks, update.section);
    BlockOfFacts(doc.blocks, update.section);
    RangeOf(ranges, doc, update.section);
    assert EditSection(doc, update) == WithBody(doc, i, EditBody(doc.blocks[i].body, update.values));
    hide EditSection, EditBody, RangesOk, Start, End, BlockOf, Flatten, KeysAt;
    var (start, end) := ranges[update.section];
    FlattenCut(doc, i);
    ghost var head, body, tail := Head(doc, i), doc.blocks[i].body, Tail(doc, i);
    BodySlice(lines, head, body, tail);
    var existing := ExistingKeys(lines, start, end);
    var added;
    edited, added := WriteValues(lines, existing, end, update.values, head, body, tail);
    FlattenWith(doc, i, EditBody(body, update.values));
    ShiftOk(ranges, doc, i, EditBody(body, update.values));
    if added > 0 {
      shifted := ShiftRanges(ranges, update.section, start, end, added);
    } else {
      ShiftNothing(ranges, update.section, start, end);
      shifted := ranges;
    }
  }

  lemma BodySlice(lines: seq<Line>, head: seq<Line>, body: seq<Line>, tail: seq<Line>)
    requires lines == head + body + tail
    ensures lines[|head|..|head + body|] == body
  {
  }

  lemma LastLine(doc: Doc)
    requires doc.blocks != []
    ensures Flatten(doc) != []
    ensures doc.blocks[|doc.blocks| - 1].gap ==> Flatten(doc)[|Flatten(doc)| - 1] == Blank
  {
    hide Joined;
    var i := |doc.blocks| - 1;
    assert doc.blocks == doc.blocks[..i] + [doc.blocks[i]];
    JoinedPut(doc.blocks[..i], doc.blocks[i]);
    assert Joined(doc.blocks) == Joined(doc.blocks[..i]) + LinesOf(doc.blocks[i]);
  }

  /** The separator goes after the last line and moves no section. */
  lemma SeparatedFlattens(doc: Doc)
    ensures var lines := Flatten(doc);
            Flatten(Separated(doc)) == if lines == [] || lines[|lines| - 1] == Blank then lines else lines + [Blank]
    ensures |Separated(doc).blocks| == |doc.blocks|
  {
    hide Joined;
    if doc.blocks == [] {
      JoinedNone();
    } else {
      LastLine(doc);
      var front, last := doc.blocks[..|doc.blocks| - 1], doc.blocks[|doc.blocks| - 1];
      assert doc.blocks == front + [last];
      JoinedPut(front, last);
      JoinedPut(front, last.(gap := true));
    }
  }

  lemma SeparatedStart(doc: Doc, i: nat)
    requires i < |doc.blocks|
    ensures |Separated(doc).blocks| == |doc.blocks| && Start(Separated(doc), i) == Start(doc, i)
    ensures Separated(doc).blocks[i].name == doc.blocks[i].name && Separated(doc).blocks[i].body == doc.blocks[i].body
  {
    hide Joined, Flatten;
    assert Separated(doc).blocks[..i] == doc.blocks[..i];
  }

  lemma {:induction false} KeyLinesLength(values: Values)
    ensures |KeyLines(values)| == |values|
  {
    if values != [] { KeyLinesLength(values[..|values| - 1]); }
  }

  lemma AppendedFlattens(doc: Doc, update: Update)
    requires BlockOf(doc.blocks, update.section) == |doc.blocks|
    ensures Flatten(EditSection(doc, update)) ==
            Flatten(Separated(doc)) + [Header(update.section)] + KeyLines(update.values)
    ensures EditSection(doc, update).blocks ==
            Separated(doc).blocks + [Block(update.section, KeyLines(update.values), false)]
  {
    var separated, block := Separated(doc), Block(update.section, KeyLines(update.values), false);
    hide Joined, Separated, KeyLines, BlockOf;
    assert EditSection(doc, update) == separated.(blocks := separated.blocks + [block]);
    JoinedPut(separated.blocks, block);
    assert LinesOf(block) == [Header(block.name)] + block.body;
    hide EditSection, LinesOf;
    assert separated.preamble + (Joined(separated.blocks) + ([Header(block.name)] + block.body)) ==
           separated.preamble + Joined(separated.blocks) + [Header(block.name)] + block.body;
  }

  lemma AppendedNames(doc: Doc, update: Update)
    requires BlockOf(doc.blocks, update.section) == |doc.blocks| && DistinctNames(doc.blocks)
    ensures DistinctNames(EditSection(doc, update).blocks)
  {
    hide Separated, BlockOf;
    AppendedFlattens(doc, update);
    BlockOfFacts(doc.blocks, update.section);
    SeparatedFlattens(doc);
    var blocks := EditSection(doc, update).blocks;
    forall i, j | 0 <= i < j < |blocks| ensures blocks[i].name != blocks[j].name {
      SeparatedStart(doc, i);
      if j < |doc.blocks| { SeparatedStart(doc, j); }
    }
  }

  /** Where an appended section stands. */
  lemma AppendedRange(doc: Doc, update: Update)
    requires BlockOf(doc.blocks, update.section) == |doc.blocks|
    ensures var edited := EditSection(doc, update);
            && |edited.blocks| == |doc.blocks| + 1 && edited.blocks[|doc.blocks|].name == update.section
            && End(edited, |doc.blocks|) == |Flatten(edited)|
            && Start(edited, |doc.blocks|) + |update.values| + 1 == |Flatten(edited)|
  {
    var edited := EditSection(doc, update);
    AppendedFlattens(doc, update);
    SeparatedFlattens(doc);
    KeyLinesLength(update.values);
    hide EditSection, Separated, Joined, Flatten, BlockOf, Start;
    FlattenCut(edited, |doc.blocks|);
    LastTail(edited);
  }

  lemma AppendedIndex(doc: Doc, update: Update, name: string)
    requires BlockOf(doc.blocks, update.section) == |doc.blocks|
    ensures var edited := EditSection(doc, update);
            BlockOf(edited.blocks, name) ==
            if name == update.section then |doc.blocks|
            else if BlockOf(doc.blocks, name) < |doc.blocks| then BlockOf(doc.blocks, name)
            else |edited.blocks|
  {
    var separated, edited := Separated(doc), EditSection(doc, update);
    hide EditSection, Separated, Flatten, KeyLines;
    AppendedFlattens(doc, update);
    SeparatedFlattens(doc);
    forall i | 0 <= i < |doc.blocks| ensures separated.blocks[i].name == doc.blocks[i].name { SeparatedStart(doc, i); }
    BlockOfAlike(separated.blocks, doc.blocks, name);
    assert edited.blocks[..|doc.blocks|] == separated.blocks;
    BlockOfFacts(doc.blocks, name);
  }

  /** A section appended keeps the ranges of the others right. */
  lemma AppendedRanges(ranges: Ranges, doc: Doc, update: Update, range: (nat, nat))
    requires RangesOk(ranges, doc) && BlockOf(doc.blocks, update.section) == |doc.blocks|
    requires range == (|Flatten(EditSection(doc, update))| - |update.values| - 1, |Flatten(EditSection(doc, update))|)
    ensures RangesOk(ranges[update.section := range], EditSection(doc, update))
  {
    var edited, grown := EditSection(doc, update), ranges[update.section := range];
    hide EditSection, Separated, Joined, Flatten, BlockOf, Start, End, RangesOk;
    AppendedRange(doc, update);
    assert edited.blocks[..|edited.blocks|] == edited.blocks;
    forall name ensures RangeFor(grown, edited, |edited.blocks|, name) {
      AppendedIndex(doc, update, name);
      RangeOf(ranges, doc, name);
      BlockOfFacts(doc.blocks, name);
      var i := BlockOf(doc.blocks, name);
      if i < |doc.blocks| { AppendedStart(doc, update, i); }
    }
    RangesHold(grown, edited);
  }

  lemma LastTail(doc: Doc)
    requires doc.blocks != [] && !doc.blocks[|doc.blocks| - 1].gap
    ensures Tail(doc, |doc.blocks| - 1) == []
  {
  }

  lemma AppendedStart(doc: Doc, update: Update, i: nat)
    requires i < |doc.blocks| && BlockOf(doc.blocks, update.section) == |doc.blocks|
    ensures var edited := EditSection(doc, update);
            && i < |edited.blocks| && edited.blocks[i].name == doc.blocks[i].name
            && Start(edited, i) == Start(doc, i) && End(edited, i) == End(doc, i)
  {
    hide Joined, Flatten, BlockOf;
    AppendedFlattens(doc, update);
    SeparatedStart(doc, i);
    assert EditSection(doc, update).blocks[..i] == doc.blocks[..i];
  }

  /** Adds a section at the end of the file. */
  method AppendSection(lines: seq<Line>, ranges: Ranges, update: Update, ghost doc: Doc)
      returns (edited: seq<Line>, grown: Ranges)
    requires lines == Flatten(doc) && RangesOk(ranges, doc)
    requires BlockOf(doc.blocks, update.section) == |doc.blocks|
    ensures edited == Flatten(EditSection(doc, update)) && RangesOk(grown, EditSection(doc, update))
  {
    edited := lines;
    if edited != [] && edited[|edited| - 1] != Blank { edited := edited + [Blank]; }
    assert edited == Flatten(Separated(doc)) by {
      hide Separated, Flatten, RangesOk, BlockOf;
      SeparatedFlattens(doc);
    }
    hide *;
    AppendedFlattens(doc, update);
    edited := edited + [Header(update.section)];
    var rendered := RenderValues(update.values);
    edited := edited + rendered;
    AppendedRange(doc, update);
    var range := (|edited| - |update.values| - 1, |edited|);
    AppendedRanges(ranges, doc, update, range);
    grown := ranges[update.section := range];
  }

  method RenderValues(values: Values) returns (lines: seq<Line>)
    ensures lines == KeyLines(values)
  {
    lines := [];
    for i: nat := 0 to |values|
      invariant lines == KeyLines(values[..i])
    {
      assert values[..i + 1][..i] == values[..i];
      lines := lines + [Key(values[i].0, values[i].1)];
    }
    assert values[..|values|] == values;
  }

  /** Sets every given key, section by section, and trims blank lines at the end. */
  method UpdateTomlSections(lines: seq<Line>, updates: seq<Update>) returns (edited: seq<Line>)
    ensures edited == StripBlank(Flatten(EditAll(Parse(lines), updates)))
  {
    var ranges := SectionRanges(lines);
    ParseFlattens(lines);
    edited := lines;
    ghost var doc := Parse(lines);
    for i: nat := 0 to |updates|
      invariant doc == EditAll(Parse(lines), updates[..i])
      invariant edited == Flatten(doc) && RangesOk(ranges, doc)
    {
      assert updates[..i + 1][..i] == updates[..i];
      assert EditAll(Parse(lines), updates[..i + 1]) == EditSection(doc, updates[i]);
      hide Parse, EditSection, Flatten, RangesOk, BlockOf, EditAll;
      RangeOf(ranges, doc, updates[i].section);
      BlockOfFacts(doc.blocks, updates[i].section);
      if updates[i].section !in ranges {
        edited, ranges := AppendSection(edited, ranges, updates[i], doc);
      } else {
        edited, ranges := UpdateExisting(edited, ranges, updates[i], doc);
      }
      doc := EditSection(doc, updates[i]);
    }
    assert updates[..|updates|] == updates;
    edited := TrimEnd(edited);
  }

  method TrimEnd(lines: seq<Line>) returns (trimmed: seq<Line>)
    ensures trimmed == StripBlank(lines)
  {
    trimmed := lines;
    while trimmed != [] && trimmed[|trimmed| - 1] == Blank
      invariant StripBlank(trimmed) == StripBlank(lines)
    {
      trimmed := trimmed[..|trimmed| - 1];
    }
  }
}
