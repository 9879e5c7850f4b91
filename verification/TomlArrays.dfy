/** What the editor does to arrays of tables, whose headers it does not see. */
module TomlArrays {
  import opened Options
  import opened TomlEditor
  import opened TomlReading
  import TomlSurvival

  // ---------------------------------------------------------------- what becomes of every section

  /** The values set in a section: only the last section of a name is edited. */
  function Edits(doc: Doc, updates: seq<Update>, i: nat): Option<Values>
    requires i < |doc.blocks|
  {
    if BlockOf(doc.blocks, doc.blocks[i].name) == i then ValuesFor(updates, doc.blocks[i].name) else None
  }

  function BodyNow(body: seq<Line>, values: Option<Values>): seq<Line> {
    if values.Some? then EditBody(body, values.value) else body
  }

  ghost predicate BlockBecame(doc: Doc, now: Doc, updates: seq<Update>, i: nat)
    requires i < |doc.blocks| <= |now.blocks|
  {
    && now.blocks[i].name == doc.blocks[i].name
    && now.blocks[i].body == BodyNow(doc.blocks[i].body, Edits(doc, updates, i))
  }

  /** Where a section is looked up, before and after. */
  ghost predicate IndexKept(doc: Doc, now: Doc, updates: seq<Update>, name: string) {
    && (BlockOf(doc.blocks, name) < |doc.blocks| ==> BlockOf(now.blocks, name) == BlockOf(doc.blocks, name))
    && (BlockOf(doc.blocks, name) >= |doc.blocks| && ValuesFor(updates, name).None? ==>
          BlockOf(now.blocks, name) == |now.blocks|)
  }

  /** The lines of a section that was added. */
  ghost predicate OnlyKeys(body: seq<Line>) {
    exists values: Values :: body == KeyLines(values)
  }

  ghost predicate Became(doc: Doc, now: Doc, updates: seq<Update>) {
    && |now.blocks| >= |doc.blocks|
    && (forall i :: 0 <= i < |doc.blocks| ==> BlockBecame(doc, now, updates, i))
    && (forall i :: |doc.blocks| <= i < |now.blocks| ==> OnlyKeys(now.blocks[i].body))
    && (forall name :: IndexKept(doc, now, updates, name))
  }

  lemma EditsGrow(doc: Doc, front: seq<Update>, last: Update, i: nat)
    requires i < |doc.blocks|
    ensures Edits(doc, front + [last], i) ==
            if doc.blocks[i].name == last.section && BlockOf(doc.blocks, last.section) == i then Some(last.values)
            else Edits(doc, front, i)
  {
    hide BlockOf;
    assert (front + [last])[..|front + [last]| - 1] == front;
  }

  lemma ValuesGrow(front: seq<Update>, last: Update, name: string)
    ensures ValuesFor(front + [last], name) ==
            if last.section == name then Some(last.values) else ValuesFor(front, name)
  {
    assert (front + [last])[..|front + [last]| - 1] == front;
  }

  lemma EditedBecame(doc: Doc, now: Doc, front: seq<Update>, last: Update)
    requires Became(doc, now, front) && ValuesFor(front, last.section).None?
    requires BlockOf(doc.blocks, last.section) < |doc.blocks|
    ensures Became(doc, EditSection(now, last), front + [last])
  {
    var at, after, updates := BlockOf(doc.blocks, last.section), EditSection(now, last), front + [last];
    assert IndexKept(doc, now, front, last.section);
    BlockOfFacts(doc.blocks, last.section);
    assert after == WithBody(now, at, EditBody(now.blocks[at].body, last.values));
    SameNames(now, at, EditBody(now.blocks[at].body, last.values));
    hide BlockOf, EditBody, EditSection, ValuesFor;
    forall i | 0 <= i < |doc.blocks| ensures BlockBecame(doc, after, updates, i) {
      assert BlockBecame(doc, now, front, i);
      EditsGrow(doc, front, last, i);
    }
    forall i | |doc.blocks| <= i < |after.blocks| ensures OnlyKeys(after.blocks[i].body) {
      assert after.blocks[i] == now.blocks[i];
    }
    forall name ensures IndexKept(doc, after, updates, name) {
      assert IndexKept(doc, now, front, name);
      ValuesGrow(front, last, name);
    }
  }

  lemma AppendedBlocks(now: Doc, last: Update, i: nat)
    requires BlockOf(now.blocks, last.section) == |now.blocks| && i <= |now.blocks|
    ensures var after := EditSection(now, last);
            && |after.blocks| == |now.blocks| + 1
            && (i < |now.blocks| ==>
                  after.blocks[i].name == now.blocks[i].name && after.blocks[i].body == now.blocks[i].body)
            && (i == |now.blocks| ==> OnlyKeys(after.blocks[i].body))
  {
    hide BlockOf, EditSection, Separated, Flatten, KeyLines;
    AppendedFlattens(now, last);
    SeparatedFlattens(now);
    if i < |now.blocks| { SeparatedStart(now, i); }
  }

  lemma AppendedBecame(doc: Doc, now: Doc, front: seq<Update>, last: Update)
    requires Became(doc, now, front) && ValuesFor(front, last.section).None?
    requires BlockOf(doc.blocks, last.section) >= |doc.blocks|
    ensures Became(doc, EditSection(now, last), front + [last])
  {
    var after, updates := EditSection(now, last), front + [last];
    assert IndexKept(doc, now, front, last.section);
    hide BlockOf, EditSection, ValuesFor, BodyNow, Edits, OnlyKeys;
    AppendedBlocks(now, last, |now.blocks|);
    forall i | 0 <= i < |doc.blocks| ensures BlockBecame(doc, after, updates, i) {
      assert BlockBecame(doc, now, front, i);
      EditsGrow(doc, front, last, i);
      AppendedBlocks(now, last, i);
    }
    forall i | |doc.blocks| <= i < |after.blocks| ensures OnlyKeys(after.blocks[i].body) {
      AppendedBlocks(now, last, i);
    }
    forall name ensures IndexKept(doc, after, updates, name) {
      assert IndexKept(doc, now, front, name);
      ValuesGrow(front, last, name);
      AppendedIndex(now, last, name);
    }
  }

  lemma NothingBecame(doc: Doc, updates: seq<Update>)
    requires updates == []
    ensures Became(doc, EditAll(doc, updates), updates)
  {
    assert EditAll(doc, updates) == doc;
    forall i | 0 <= i < |doc.blocks| ensures BlockBecame(doc, doc, updates, i) { assert Edits(doc, updates, i).None?; }
    forall name ensures IndexKept(doc, doc, updates, name) { BlockOfFacts(doc.blocks, name); }
  }

  /** Every section's lines are edited on their own, by its own update; the sections added
      hold nothing but their keys. */
  lemma {:induction false} EditAllBecame(doc: Doc, updates: seq<Update>)
    requires DistinctSections(updates)
    ensures Became(doc, EditAll(doc, updates), updates)
  {
    if updates == [] {
      NothingBecame(doc, updates);
    } else {
      var front, last := updates[..|updates| - 1], updates[|updates| - 1];
      EditAllBecame(doc, front);
      forall i | 0 <= i < |front| ensures front[i].section != last.section {
        assert updates[i].section != updates[|front|].section;
      }
      NotFor(front, last.section);
      assert updates == front + [last];
      hide Became, EditSection, BlockOf, ValuesFor;
      if BlockOf(doc.blocks, last.section) < |doc.blocks| {
        EditedBecame(doc, EditAll(doc, front), front, last);
      } else {
        AppendedBecame(doc, EditAll(doc, front), front, last);
      }
    }
  }

  // ---------------------------------------------------------------- which lines are overwritten

  /** What stands in place of a line of a body: the new value if it is the last line of a
      key that is set, whatever table it belongs to. */
  function LineNow(body: seq<Line>, values: Values, j: nat): Line
    requires j < |body|
  {
    if body[j].Key? && LastKey(body, body[j].key) == Some(j) && ValueOf(values, body[j].key).Some?
    then Key(body[j].key, ValueOf(values, body[j].key).value) else body[j]
  }

  /** The lines added after a body: those of the keys it does not have. */
  function Added(body: seq<Line>, values: Values): seq<Line> {
    if values == [] then []
    else
      var last := values[|values| - 1];
      Added(body, values[..|values| - 1]) + if LastKey(body, last.0).None? then [Key(last.0, last.1)] else []
  }

  ghost predicate LineIs(body: seq<Line>, now: seq<Line>, values: Values, j: nat)
    requires j < |body| <= |now|
  {
    now[j] == LineNow(body, values, j)
  }

  lemma TailAfter(lines: seq<Line>, n: nat, at: nat, line: Line)
    requires n <= |lines|
    ensures (lines + [line])[n..] == lines[n..] + [line]
    ensures at < n ==> lines[at := line][n..] == lines[n..]
  {
  }

  lemma {:induction false} EditLines(body: seq<Line>, values: Values)
    ensures var now := EditBody(body, values);
            && |now| >= |body| && now[|body|..] == Added(body, values)
            && forall j :: 0 <= j < |body| ==> LineIs(body, now, values, j)
  {
    if values != [] {
      var front, last := values[..|values| - 1], values[|values| - 1];
      EditLines(body, front);
      LastKeyInside(body, last.0);
      var now, after := EditBody(body, front), EditBody(body, values);
      var at := LastKey(body, last.0);
      TailAfter(now, |body|, if at.Some? then at.value else 0, Key(last.0, last.1));
      assert Added(body, front) + [] == Added(body, front);
      hide LastKey, EditBody;
      assert after == SetKey(body, now, last.0, last.1) by { hide *; EditLast(body, values); }
      assert after[|body|..] == Added(body, values);
      hide Added;
      forall j | 0 <= j < |body| ensures LineIs(body, after, values, j) { assert LineIs(body, now, front, j); }
    }
  }

  lemma EditLast(body: seq<Line>, values: Values)
    requires values != []
    ensures var front, last := values[..|values| - 1], values[|values| - 1];
            EditBody(body, values) == SetKey(body, EditBody(body, front), last.0, last.1)
  {
    hide SetKey;
  }

  /** The editor puts another line in place of line j of section i. */
  ghost predicate Overwrites(doc: Doc, updates: seq<Update>, i: nat, j: nat)
    requires i < |doc.blocks| && j < |doc.blocks[i].body|
  {
    var body := doc.blocks[i].body;
    && Edits(doc, updates, i).Some? && body[j].Key? && LastKey(body, body[j].key) == Some(j)
    && ValueOf(Edits(doc, updates, i).value, body[j].key) !in [None, Some(body[j].value)]
  }

  /** Where a line of a section stands in the file. */
  lemma LineStands(doc: Doc, i: nat, j: nat)
    requires i < |doc.blocks| && j < |doc.blocks[i].body|
    ensures var at := Start(doc, i) + 1 + j;
            at < |Flatten(doc)| && Flatten(doc)[at] == doc.blocks[i].body[j]
  {
    hide Start, End, Flatten, Head, Tail;
    FlattenCut(doc, i);
  }

  /** A line of the file changes exactly when it is the last line of its key in its section,
      arrays of tables there included, and the section's update sets that key to another
      value. */
  lemma LineChangesExactlyWhen(lines: seq<Line>, updates: seq<Update>, i: nat, j: nat)
    requires DistinctSections(updates) && i < |Parse(lines).blocks| && j < |Parse(lines).blocks[i].body|
    ensures var doc, now := Parse(lines), EditAll(Parse(lines), updates);
            && Start(doc, i) + 1 + j < |lines| && lines[Start(doc, i) + 1 + j] == doc.blocks[i].body[j]
            && Edited(lines, updates) == StripBlank(Flatten(now))
            && i < |now.blocks| && j < |now.blocks[i].body|
            && now.blocks[i].name == doc.blocks[i].name
            && (now.blocks[i].body[j] != doc.blocks[i].body[j] <==> Overwrites(doc, updates, i, j))
  {
    var doc := Parse(lines);
    ParseFlattens(lines);
    LineStands(doc, i, j);
    EditAllBecame(doc, updates);
    hide Parse, EditAll, Flatten, StripBlank, Edits, LastKey, ValueOf, EditBody, Start;
    assert BlockBecame(doc, EditAll(doc, updates), updates, i);
    match Edits(doc, updates, i) {
      case Some(values) =>
        EditLines(doc.blocks[i].body, values);
        assert LineIs(doc.blocks[i].body, EditBody(doc.blocks[i].body, values), values, j);
      case None =>
    }
  }

  // ---------------------------------------------------------------- what arrays of tables read

  /** Section i's update writes the key into the array of tables b: after a header of b that
      the section goes on into, and no later header. */
  predicate Takes(doc: Doc, updates: seq<Update>, i: nat, b: string, key: string)
    requires i < |doc.blocks|
  {
    && Edits(doc, updates, i).Some? && ValueOf(Edits(doc, updates, i).value, key).Some?
    && TableFrom(Std(doc.blocks[i].name), BeforeWrite(doc.blocks[i].body, key)) == Arr(b)
  }

  function TakenValue(doc: Doc, updates: seq<Update>, i: nat, b: string, key: string): string
    requires i < |doc.blocks| && Takes(doc, updates, i, b, key)
  {
    ValueOf(Edits(doc, updates, i).value, key).value
  }

  /** The part of an array of tables within one section. */
  lemma SectionArrayRead(doc: Doc, now: Doc, updates: seq<Update>, i: nat, b: string, key: string)
    requires Became(doc, now, updates) && i < |doc.blocks|
    ensures BodyRead(now.blocks[i], Arr(b), key) ==
            if Takes(doc, updates, i, b, key) then Some(TakenValue(doc, updates, i, b, key))
            else BodyRead(doc.blocks[i], Arr(b), key)
  {
    assert BlockBecame(doc, now, updates, i);
    hide Became, Edits, ReadFrom, TableFrom, BeforeWrite, EditBody, ValueOf;
    match Edits(doc, updates, i) {
      case Some(values) => EditRead(Std(doc.blocks[i].name), doc.blocks[i].body, values, Arr(b), key);
      case None =>
    }
  }

  /** An array of tables in a section reads as before exactly when the section's update does
      not write the key into it, or writes the value it had. */
  lemma SectionArrayKeptExactlyWhen(lines: seq<Line>, updates: seq<Update>, i: nat, b: string, key: string)
    requires DistinctSections(updates) && i < |Parse(lines).blocks|
    ensures var doc, now := Parse(lines), EditAll(Parse(lines), updates);
            && i < |now.blocks|
            && (BodyRead(now.blocks[i], Arr(b), key) == BodyRead(doc.blocks[i], Arr(b), key) <==>
                  (Takes(doc, updates, i, b, key) ==>
                     BodyRead(doc.blocks[i], Arr(b), key) == Some(TakenValue(doc, updates, i, b, key))))
  {
    hide Parse, EditAll, Takes, TakenValue, BodyRead;
    EditAllBecame(Parse(lines), updates);
    SectionArrayRead(Parse(lines), EditAll(Parse(lines), updates), updates, i, b, key);
  }

  /** The last of the first n sections that has the key in the array, or gets it there. */
  function Decides(doc: Doc, updates: seq<Update>, n: nat, b: string, key: string): Option<nat>
    requires n <= |doc.blocks|
  {
    if n == 0 then None
    else if Takes(doc, updates, n - 1, b, key) || BodyRead(doc.blocks[n - 1], Arr(b), key).Some? then Some(n - 1)
    else Decides(doc, updates, n - 1, b, key)
  }

  lemma {:induction false} DecidesRead(doc: Doc, now: Doc, updates: seq<Update>, n: nat, b: string, key: string)
    requires Became(doc, now, updates) && n <= |doc.blocks|
    ensures var at := Decides(doc, updates, n, b, key);
            var before, after := BlocksRead(doc.blocks[..n], Arr(b), key), BlocksRead(now.blocks[..n], Arr(b), key);
            match at
            case None => before.None? && after.None?
            case Some(i) =>
              && i < n
              && if Takes(doc, updates, i, b, key) then after == Some(TakenValue(doc, updates, i, b, key))
                 else after == before
  {
    assert |now.blocks| >= |doc.blocks|;
    hide Became, Takes, TakenValue, BodyRead;
    if n > 0 {
      DecidesRead(doc, now, updates, n - 1, b, key);
      SectionArrayRead(doc, now, updates, n - 1, b, key);
      assert doc.blocks[..n][..n - 1] == doc.blocks[..n - 1] && now.blocks[..n][..n - 1] == now.blocks[..n - 1];
    }
  }

  lemma {:induction false} OnlyKeysRead(name: string, values: Values, b: string, key: string)
    ensures ReadFrom(Std(name), KeyLines(values), Arr(b), key).None?
  {
    if values != [] {
      var front := values[..|values| - 1];
      OnlyKeysRead(name, front, b, key);
      FreshRead(name, front, key);
      ReadAppended(Std(name), KeyLines(front), Key(values[|values| - 1].0, values[|values| - 1].1), Arr(b), key);
    }
  }

  lemma {:induction false} NewSectionsRead(doc: Doc, now: Doc, updates: seq<Update>, n: nat, b: string, key: string)
    requires Became(doc, now, updates) && |doc.blocks| <= n <= |now.blocks|
    ensures BlocksRead(now.blocks[..n], Arr(b), key) == BlocksRead(now.blocks[..|doc.blocks|], Arr(b), key)
    decreases n
  {
    hide ReadFrom;
    if n > |doc.blocks| {
      NewSectionsRead(doc, now, updates, n - 1, b, key);
      assert now.blocks[..n][..n - 1] == now.blocks[..n - 1];
      assert OnlyKeys(now.blocks[n - 1].body);
      var values: Values :| now.blocks[n - 1].body == KeyLines(values);
      OnlyKeysRead(now.blocks[n - 1].name, values, b, key);
    }
  }

  lemma ArrayReads(lines: seq<Line>, updates: seq<Update>, b: string, key: string)
    requires DistinctSections(updates)
    ensures var doc := Parse(lines);
            match Decides(doc, updates, |doc.blocks|, b, key)
            case None => Read(Edited(lines, updates), Arr(b), key) == Read(lines, Arr(b), key)
            case Some(i) =>
              && i < |doc.blocks|
              && Read(Edited(lines, updates), Arr(b), key) ==
                 if Takes(doc, updates, i, b, key) then Some(TakenValue(doc, updates, i, b, key))
                 else Read(lines, Arr(b), key)
  {
    var doc, now, n := Parse(lines), EditAll(Parse(lines), updates), |Parse(lines).blocks|;
    EditAllBecame(doc, updates);
    assert |now.blocks| >= n;
    hide Parse, EditAll, Flatten, StripBlank, Read, ReadFrom, BlocksRead, Became, Takes, TakenValue, Decides;
    ParseFlattens(lines);
    DocRead(doc, Arr(b), key);
    DocRead(now, Arr(b), key);
    StripRead(Flatten(now), Arr(b), key);
    TomlSurvival.EditAllPreamble(doc, updates, Arr(b), key);
    DecidesRead(doc, now, updates, n, b, key);
    NewSectionsRead(doc, now, updates, |now.blocks|, b, key);
    assert doc.blocks[..n] == doc.blocks && now.blocks[..|now.blocks|] == now.blocks;
  }

  /** Over the whole file, the last value of a key in an array of tables is what it was
      exactly when the last section that has the key there, or gets it, is not given it by
      the update, or is given that value. */
  lemma ArrayReadsAsBeforeExactlyWhen(lines: seq<Line>, updates: seq<Update>, b: string, key: string)
    requires DistinctSections(updates)
    ensures var doc := Parse(lines);
            var at := Decides(doc, updates, |doc.blocks|, b, key);
            (at.Some? ==> at.value < |doc.blocks|) &&
            (Read(Edited(lines, updates), Arr(b), key) == Read(lines, Arr(b), key) <==>
               (at.Some? && Takes(doc, updates, at.value, b, key) ==>
                  Read(lines, Arr(b), key) == Some(TakenValue(doc, updates, at.value, b, key))))
  {
    hide *;
    ArrayReads(lines, updates, b, key);
  }

  // ---------------------------------------------------------------- a setting lost

  lemma ParseThree(first: Line, second: Line, third: Line)
    ensures Parse([first, second, third]) == AddLine(AddLine(AddLine(Doc([], []), first), second), third)
  {
    ParseTwo(first, second);
    hide AddLine;
    assert [first, second, third][..2] == [first, second];
  }

  lemma SettingParsed()
    ensures Parse([Header("a"), ArrayHeader("b"), Key("k", "0")]) ==
            Doc([], [Block("a", [ArrayHeader("b"), Key("k", "0")], false)])
  {
    ParseThree(Header("a"), ArrayHeader("b"), Key("k", "0"));
    hide Parse;
    var one, two := Doc([], [Block("a", [], false)]), Doc([], [Block("a", [ArrayHeader("b")], false)]);
    assert AddLine(Doc([], []), Header("a")) == one;
    assert one.blocks[..0] == [] && [] + [ArrayHeader("b")] == [ArrayHeader("b")];
    assert AddLine(one, ArrayHeader("b")) == two;
    assert two.blocks[..0] == [] && [ArrayHeader("b")] + [Key("k", "0")] == [ArrayHeader("b"), Key("k", "0")];
  }

  lemma SettingEdited()
    ensures EditBody([ArrayHeader("b"), Key("k", "0")], [("k", "1")]) == [ArrayHeader("b"), Key("k", "1")]
  {
    var body: seq<Line>, values: Values := [ArrayHeader("b"), Key("k", "0")], [("k", "1")];
    assert LastKey(body, "k") == Some(1);
    assert values[..0] == [] && EditBody(body, []) == body;
    EditLast(body, values);
  }

  lemma OneSectionEdited(name: string, body: seq<Line>, values: Values)
    ensures EditAll(Doc([], [Block(name, body, false)]), [Update(name, values)]) ==
            Doc([], [Block(name, EditBody(body, values), false)])
  {
    var doc, update := Doc([], [Block(name, body, false)]), Update(name, values);
    assert [update][..0] == [] && EditAll(doc, []) == doc;
    hide EditBody;
    assert BlockOf(doc.blocks, name) == 0;
    assert EditSection(doc, update).blocks == [Block(name, EditBody(body, values), false)];
  }

  /** Setting a key of a section overwrites the key of that name in the array of tables the
      section goes on into. */
  lemma ArraySettingOverwritten()
    ensures var lines := [Header("a"), ArrayHeader("b"), Key("k", "0")];
            Edited(lines, [Update("a", [("k", "1")])]) == [Header("a"), ArrayHeader("b"), Key("k", "1")]
  {
    SettingParsed();
    SettingEdited();
    OneSectionEdited("a", [ArrayHeader("b"), Key("k", "0")], [("k", "1")]);
    hide Parse, EditAll, EditBody, Joined;
    var block := Block("a", [ArrayHeader("b"), Key("k", "1")], false);
    JoinedOne(block);
    assert Flatten(Doc([], [block])) == [Header("a"), ArrayHeader("b"), Key("k", "1")];
  }
}
