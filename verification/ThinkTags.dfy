/** Splitting a model's output into thinking and answer text, and doing it chunk
    by chunk on a stream whose chunks may cut a tag in two. */
module ThinkTags {

  datatype Mode = Answer | Thinking

  /** A run of text of one kind. */
  datatype Event = Event(kind: Mode, text: string)

  /** A character with its label. */
  type Labelled = (char, Mode)

  datatype Reading = Reading(labels: seq<Labelled>, mode: Mode)

  /** State of a stream consumer: text held back, its kind, the splitter's mode
      and the events yielded so far. */
  datatype Stream = Stream(carry: string, kind: Mode, mode: Mode, out: seq<Event>)

  const START := Stream("", Answer, Answer, [])

  function Flip(mode: Mode): Mode {
    if mode.Thinking? then Answer else Thinking
  }

  function Label(text: string, mode: Mode): seq<Labelled> {
    if text == "" then [] else [(text[0], mode)] + Label(text[1..], mode)
  }

  ghost function Labels(events: seq<Event>): seq<Labelled> {
    if events == [] then []
    else Label(events[0].text, events[0].kind) + Labels(events[1..])
  }

  function Prepend(labels: seq<Labelled>, r: Reading): Reading {
    Reading(labels + r.labels, r.mode)
  }

  function Emit(text: string, kind: Mode): seq<Event> {
    if text == "" then [] else [Event(kind, text)]
  }

  ghost function Join(chunks: seq<string>): string {
    if chunks == [] then "" else chunks[0] + Join(chunks[1..])
  }

  predicate TagAt(tag: string, text: string, i: nat) {
    i + |tag| <= |text| && text[i..i + |tag|] == tag
  }

  function FindFrom(tag: string, text: string, from: nat): (i: nat)
    requires from <= |text|
    ensures from <= i <= |text|
    ensures i < |text| ==> TagAt(tag, text, i) && i + |tag| <= |text|
    decreases |text| - from
  {
    if from == |text| || TagAt(tag, text, from) then from
    else FindFrom(tag, text, from + 1)
  }

  /** The first position of the tag, or the length of the text when it has none. */
  function Find(tag: string, text: string): (i: nat)
    ensures i <= |text|
    ensures i < |text| ==> TagAt(tag, text, i) && i + |tag| <= |text|
  {
    FindFrom(tag, text, 0)
  }

  predicate Has(tag: string, text: string) {
    Find(tag, text) < |text|
  }

  /** The text before its first tag. */
  function Before(tag: string, text: string): string {
    text[..Find(tag, text)]
  }

  /** The text after its first tag. */
  function After(tag: string, text: string): (tail: string)
    requires Has(tag, text)
    ensures tag != "" ==> |tail| < |text|
  {
    text[Find(tag, text) + |tag|..]
  }

  function Suffix(text: string, length: nat): string
    requires length <= |text|
  {
    text[|text| - length..]
  }

  function TailMatch(tag: string, text: string, length: nat): (n: nat)
    requires length < |tag| && length <= |text|
    ensures n <= length && Suffix(text, n) == tag[..n]
  {
    if length == 0 || Suffix(text, length) == tag[..length] then length
    else TailMatch(tag, text, length - 1)
  }

  /** Length of the longest suffix of the text that is a proper prefix of the tag. */
  function Tail(tag: string, text: string): (n: nat)
    requires tag != ""
    ensures n <= |text| && Suffix(text, n) < tag
  {
    TailMatch(tag, text, if |text| < |tag| then |text| else |tag| - 1)
  }

  /** A tag starts with the only angle bracket in it. */
  predicate OnlyFirstBracket(tag: string) {
    tag != "" && tag[0] == '<' && forall i :: 0 < i < |tag| ==> tag[i] != '<'
  }

  /** The two tags, and the program over them. */
  datatype Tags = Tags(open: string, close: string) {

    /** What the program relies on. */
    predicate WellFormed() {
      && OnlyFirstBracket(open) && OnlyFirstBracket(close)
      && !(open <= close) && !(close <= open)
    }

    /** The tag that ends a mode. */
    function Tag(mode: Mode): string {
      if mode.Thinking? then close else open
    }

    /** What a text means: read left to right, the current mode's tag switches the
        mode and is dropped, every other character is labelled with the mode. */
    ghost function Read(text: string, mode: Mode): Reading
      requires WellFormed()
      decreases |text|
    {
      if text == "" then Reading([], mode)
      else if TagAt(Tag(mode), text, 0) then Read(text[|Tag(mode)|..], Flip(mode))
      else Prepend([(text[0], mode)], Read(text[1..], mode))
    }

    // -------------------------------------------------------------- the splitter

    /** Events and final mode of one call of the splitter. */
    function Split(text: string, mode: Mode): (seq<Event>, Mode)
      requires WellFormed()
      decreases |text|
    {
      if text == "" then ([], mode)
      else if !Has(Tag(mode), text) then ([Event(mode, text)], mode)
      else
        var (events, last) := Split(After(Tag(mode), text), Flip(mode));
        (Emit(Before(Tag(mode), text), mode) + events, last)
    }

    method SplitThinkTagEvents(content: string, inThinking: Mode) returns (events: seq<Event>, mode: Mode)
      requires WellFormed()
      ensures (events, mode) == Split(content, inThinking)
    {
      hide Find, Tags.Split;
      events, mode := [], inThinking;
      var text := content;
      while text != ""
        invariant Split(content, inThinking).0 == events + Split(text, mode).0
        invariant Split(content, inThinking).1 == Split(text, mode).1
        decreases |text|
      {
        var i := Find(Tag(mode), text);
        if i == |text| {
          SplitDone(this, text, mode);
          events := events + [Event(mode, text)];
          return;
        }
        SplitStep(this, text, mode);
        events := events + Emit(text[..i], mode);
        text := text[i + |Tag(mode)|..];
        mode := Flip(mode);
      }
      SplitDone(this, "", mode);
      assert events + [] == events;
    }

    /** The splitter's loop ran out of text right after a complete tag. */
    predicate EndsInTag(text: string, mode: Mode)
      requires WellFormed()
      decreases |text|
    {
      text == "" || (Has(Tag(mode), text) && EndsInTag(After(Tag(mode), text), Flip(mode)))
    }

    // -------------------------------------------------------------- holding back

    /** A proper prefix of a tag, possibly empty. */
    predicate IsPartial(p: string) {
      p < close || p < open
    }

    /** The close tag is tried first, and its match returned even where the open
        tag matches too. */
    function PartialThinkTagSuffix(text: string): string
      requires WellFormed()
    {
      var n := Tail(close, text);
      if n != 0 then Suffix(text, n) else Suffix(text, Tail(open, text))
    }

    /** What the stream consumer does with one chunk. */
    function Feed(s: Stream, content: string): Stream
      requires WellFormed()
    {
      if content == "" then s
      else
        var (events, mode) := Split(s.carry + content, s.mode);
        if events == [] then s.(carry := "", mode := mode)
        else
          var last := events[|events| - 1];
          var p := PartialThinkTagSuffix(last.text);
          if p == "" then Stream("", s.kind, mode, s.out + events)
          else Stream(p, last.kind, mode, s.out + Trim(events, |p|))
    }

    /** The last piece that shows what was held back on the wrong side of a tag. */
    function Giveaway(s: Stream): string {
      if s.kind != s.mode then "<" else if |s.carry| <= |Tag(s.mode)| then Tag(s.mode)[|s.carry|..] else ""
    }

    /** The events with a held-back tail cut off the last of them. */
    static function Trim(events: seq<Event>, held: nat): seq<Event>
      requires events != []
    {
      var last := events[|events| - 1];
      if held <= |last.text| then events[..|events| - 1] + Emit(last.text[..|last.text| - held], last.kind)
      else events
    }

    function FeedAll(s: Stream, chunks: seq<string>): Stream
      requires WellFormed()
      decreases |chunks|
    {
      if chunks == [] then s else FeedAll(Feed(s, chunks[0]), chunks[1..])
    }

    /** At the end of the stream the held-back text is yielded after all. */
    static function Release(s: Stream): seq<Event> {
      s.out + Emit(s.carry, s.kind)
    }

    method StreamEvents(chunks: seq<string>) returns (events: seq<Event>, inThinking: Mode)
      requires WellFormed()
      ensures var end := FeedAll(START, chunks); events == Release(end) && inThinking == end.mode
    {
      var carry, carryKind := "", Answer;
      events, inThinking := [], Answer;
      for i := 0 to |chunks|
        invariant FeedAll(START, chunks) == FeedAll(Stream(carry, carryKind, inThinking, events), chunks[i..])
      {
        assert chunks[i..][0] == chunks[i] && chunks[i..][1..] == chunks[i + 1..];
        if chunks[i] != "" {
          var parsed;
          parsed, inThinking := SplitThinkTagEvents(carry + chunks[i], inThinking);
          carry := "";
          if parsed != [] {
            var last := parsed[|parsed| - 1];
            var partial := PartialThinkTagSuffix(last.text);
            if partial != "" {
              carry, carryKind := partial, last.kind;
              parsed := Trim(parsed, |partial|);
            }
            events := events + parsed;
          }
        }
      }
      events := events + Emit(carry, carryKind);
    }

    // -------------------------------------------------------------- correctness

    /** Everything the consumer yields, and its final mode. */
    ghost function Outcome(s: Stream): Reading {
      Reading(Labels(Release(s)), s.mode)
    }

    /** The labels and mode reached if the text x came next and in one piece. */
    ghost function Pending(s: Stream, x: string): Reading
      requires WellFormed()
    {
      Prepend(Labels(s.out), Read(s.carry + x, s.mode))
    }

    /** Held-back text is a partial tag of the current mode's kind. */
    ghost predicate Held(s: Stream) {
      s.carry == "" || (IsPartial(s.carry) && s.kind == s.mode)
    }

    /** The stream was labelled as its whole text is. */
    ghost predicate Agrees(chunks: seq<string>)
      requires WellFormed()
    {
      Outcome(FeedAll(START, chunks)) == Read(Join(chunks), Answer)
    }

    /** The guard under which feeding a chunk is harmless: nothing is held back,
        or the chunk does not end in a complete tag, or what is held back has the
        current mode's kind and cannot start the tag that ends it. */
    predicate SafeChunk(s: Stream, content: string)
      requires WellFormed()
    {
      content == "" ||
      var (events, mode) := Split(s.carry + content, s.mode);
      events == [] ||
      var last := events[|events| - 1];
      var p := PartialThinkTagSuffix(last.text);
      || p == ""
      || !EndsInTag(s.carry + content, s.mode)
      || (last.kind == mode && !(p <= Tag(mode)))
    }

    predicate SafeStream(s: Stream, chunks: seq<string>)
      requires WellFormed()
      decreases |chunks|
    {
      chunks == [] || (SafeChunk(s, chunks[0]) && SafeStream(Feed(s, chunks[0]), chunks[1..]))
    }
  }

  const THINK := Tags("<think>", "</think>")

  /** No tag begins before the one found. */
  lemma {:induction false} NoEarlierTag(tag: string, text: string, from: nat, j: nat)
    requires from <= |text| && from <= j < FindFrom(tag, text, from)
    ensures !TagAt(tag, text, j)
    decreases |text| - from
  {
    hide TagAt;
    if from < j { NoEarlierTag(tag, text, from + 1, j); }
  }

  /** No longer suffix is a proper prefix of the tag. */
  lemma {:induction false} NoLongerMatch(tag: string, text: string, length: nat, k: nat)
    requires length < |tag| && length <= |text| && TailMatch(tag, text, length) < k <= length
    ensures Suffix(text, k) != tag[..k]
  {
    hide Suffix;
    if k < length { NoLongerMatch(tag, text, length - 1, k); }
  }

  lemma BeforeFound(tag: string, text: string, j: nat)
    requires j < Find(tag, text)
    ensures !TagAt(tag, text, j)
  {
    NoEarlierTag(tag, text, 0, j);
  }

  lemma TailIsLongest(tag: string, text: string, k: nat)
    requires tag != "" && Tail(tag, text) < k <= |text|
    ensures !(Suffix(text, k) < tag)
  {
    if k < |tag| { NoLongerMatch(tag, text, if |text| < |tag| then |text| else |tag| - 1, k); }
  }

  lemma ThinkWellFormed()
    ensures THINK.WellFormed()
  {
    assert THINK.close[1] != THINK.open[1];
  }

  // ---------------------------------------------------------------- reading

  lemma TagShift(tag: string, s: string, t: string, i: nat)
    ensures TagAt(tag, s + t, |s| + i) == TagAt(tag, t, i)
  {
    if i + |tag| <= |t| {
      assert (s + t)[|s| + i..|s| + i + |tag|] == t[i..i + |tag|];
    }
  }

  lemma ReadCharacter(tags: Tags, text: string, mode: Mode)
    requires tags.WellFormed() && text != "" && !TagAt(tags.Tag(mode), text, 0)
    ensures tags.Read(text, mode) == Prepend([(text[0], mode)], tags.Read(text[1..], mode))
  {
    hide TagAt, Tags.Tag;
  }

  lemma LabelCons(text: string, mode: Mode, r: Reading)
    requires text != ""
    ensures Prepend([(text[0], mode)], Prepend(Label(text[1..], mode), r)) == Prepend(Label(text, mode), r)
  {
  }

  /** Text that meets no tag of the mode is labelled as it stands. */
  lemma {:induction false} ReadPlain(tags: Tags, plain: string, rest: string, mode: Mode)
    requires tags.WellFormed()
    requires forall i: nat :: i < |plain| ==> !TagAt(tags.Tag(mode), plain + rest, i)
    ensures tags.Read(plain + rest, mode) == Prepend(Label(plain, mode), tags.Read(rest, mode))
    decreases |plain|
  {
    if plain == "" {
      assert plain + rest == rest;
    } else {
      var text, tail, tag := plain + rest, plain[1..], tags.Tag(mode);
      hide *;
      assert text == plain[..1] + (tail + rest) && text[1..] == tail + rest;
      forall i: nat | i < |tail|
        ensures !TagAt(tag, tail + rest, i)
      {
        TagShift(tag, plain[..1], tail + rest, i);
      }
      ReadPlain(tags, tail, rest, mode);
      ReadCharacter(tags, text, mode);
      LabelCons(plain, mode, tags.Read(rest, mode));
    }
  }

  /** A tag of the mode is dropped and switches the mode. */
  lemma ReadTag(tags: Tags, rest: string, mode: Mode)
    requires tags.WellFormed()
    ensures tags.Read(tags.Tag(mode) + rest, mode) == tags.Read(rest, Flip(mode))
  {
    assert (tags.Tag(mode) + rest)[|tags.Tag(mode)|..] == rest;
  }

  // ---------------------------------------------------------------- held-back text

  /** If a non-empty partial tag ends the text, no longer partial tag does. */
  lemma SameTail(text: string, n: nat, k: nat, tag: string)
    requires 0 < n < k <= |text| && Suffix(text, n)[0] == '<'
    requires OnlyFirstBracket(tag)
    ensures !(Suffix(text, k) < tag)
  {
    assert Suffix(text, k)[k - n] == Suffix(text, n)[0];
  }

  lemma HeldIsPartial(tags: Tags, text: string)
    requires tags.WellFormed()
    ensures var p := tags.PartialThinkTagSuffix(text);
            |p| <= |text| && p == Suffix(text, |p|) && tags.IsPartial(p)
  {
  }

  /** What is held back is the longest suffix of the text that could start a tag. */
  lemma NoLongerPartial(tags: Tags, text: string, k: nat)
    requires tags.WellFormed() && |tags.PartialThinkTagSuffix(text)| < k <= |text|
    ensures !tags.IsPartial(Suffix(text, k))
  {
    var n := Tail(tags.close, text);
    TailIsLongest(tags.close, text, k);
    if n != 0 {
      assert Suffix(text, n)[0] == tags.close[0];
      SameTail(text, n, k, tags.open);
    } else {
      TailIsLongest(tags.open, text, k);
    }
  }

  /** Held-back text contains no tag, whatever comes after it, unless it is the
      start of one. */
  lemma PartialMeetsNoTag(tags: Tags, p: string, rest: string, mode: Mode, i: nat)
    requires tags.WellFormed() && tags.IsPartial(p) && i < |p|
    requires i == 0 ==> !(p <= tags.Tag(mode)) || |p + rest| < |tags.Tag(mode)|
    ensures !TagAt(tags.Tag(mode), p + rest, i)
  {
    var tag, whole := tags.Tag(mode), p + rest;
    if i + |tag| <= |whole| {
      if i > 0 {
        assert whole[i..i + |tag|][0] == p[i];
      } else if |p| <= |tag| {
        assert whole[0..|tag|][..|p|] == p;
      } else {
        assert whole[0..|tag|] == p[..|tag|];
      }
    }
  }

  lemma TagInside(tag: string, text: string, rest: string, i: nat)
    requires i + |tag| <= |text|
    ensures TagAt(tag, text + rest, i) == TagAt(tag, text, i)
  {
    assert (text + rest)[i..i + |tag|] == text[i..i + |tag|];
  }

  lemma TagAcrossEnd(tag: string, text: string, rest: string, i: nat)
    requires i < |text| < i + |tag|
    ensures TagAt(tag, text + rest, i) ==> Suffix(text, |text| - i) < tag
  {
    if i + |tag| <= |text + rest| {
      assert (text + rest)[i..i + |tag|][..|text| - i] == Suffix(text, |text| - i);
    }
  }

  /** Before the held-back tail, no tag starts: none is complete in the text and
      none could be completed by what follows. */
  lemma NothingStraddles(tags: Tags, text: string, rest: string, mode: Mode, i: nat)
    requires tags.WellFormed() && !Has(tags.Tag(mode), text)
    requires i + |tags.PartialThinkTagSuffix(text)| < |text|
    ensures !TagAt(tags.Tag(mode), text + rest, i)
  {
    hide TagAt, Suffix, Tags.PartialThinkTagSuffix;
    var tag, k := tags.Tag(mode), |text| - i;
    if |tag| <= k {
      BeforeFound(tag, text, i);
      TagInside(tag, text, rest, i);
    } else {
      NoLongerPartial(tags, text, k);
      TagAcrossEnd(tag, text, rest, i);
    }
  }

  // ---------------------------------------------------------------- one call

  lemma {:induction false} LabelsJoin(e: seq<Event>, f: seq<Event>)
    ensures Labels(e + f) == Labels(e) + Labels(f)
  {
    hide Label;
    if e == [] {
      assert e + f == f;
    } else {
      assert (e + f)[1..] == e[1..] + f && (e + f)[0] == e[0];
      LabelsJoin(e[1..], f);
      var first := Label(e[0].text, e[0].kind);
      assert Labels(e + f) == first + Labels(e[1..] + f);
      assert Labels(e) == first + Labels(e[1..]);
      hide Labels;
      assert first + (Labels(e[1..]) + Labels(f)) == (first + Labels(e[1..])) + Labels(f);
    }
  }

  lemma LabelsEmit(text: string, kind: Mode)
    ensures Labels(Emit(text, kind)) == Label(text, kind)
  {
    if text != "" { assert Labels(Emit(text, kind)[1..]) == []; }
  }

  lemma SplitStep(tags: Tags, text: string, mode: Mode)
    requires tags.WellFormed() && Has(tags.Tag(mode), text)
    ensures var (events, last) := tags.Split(After(tags.Tag(mode), text), Flip(mode));
            tags.Split(text, mode) == (Emit(Before(tags.Tag(mode), text), mode) + events, last)
  {
    hide After, Before, Emit, Tags.Tag, Flip;
  }

  lemma SplitDone(tags: Tags, text: string, mode: Mode)
    requires tags.WellFormed() && !Has(tags.Tag(mode), text)
    ensures tags.Split(text, mode) == (Emit(text, mode), mode)
  {
  }

  lemma JoinAtTag(tag: string, text: string, rest: string)
    requires Has(tag, text)
    ensures text + rest == Before(tag, text) + (tag + (After(tag, text) + rest))
  {
    var i := Find(tag, text);
    assert text == text[..i] + text[i..i + |tag|] + text[i + |tag|..];
  }

  lemma FindSplits(tag: string, text: string, rest: string)
    requires Has(tag, text)
    ensures text + rest == Before(tag, text) + (tag + (After(tag, text) + rest))
    ensures forall j: nat :: j < |Before(tag, text)| ==> !TagAt(tag, text + rest, j)
  {
    JoinAtTag(tag, text, rest);
    hide TagAt;
    forall j: nat | j < |Before(tag, text)|
      ensures !TagAt(tag, text + rest, j)
    {
      BeforeFound(tag, text, j);
      TagInside(tag, text, rest, j);
    }
  }

  lemma ReadPast(tags: Tags, plain: string, tail: string, mode: Mode)
    requires tags.WellFormed()
    requires forall j: nat :: j < |plain| ==> !TagAt(tags.Tag(mode), plain + (tags.Tag(mode) + tail), j)
    ensures tags.Read(plain + (tags.Tag(mode) + tail), mode) == Prepend(Label(plain, mode), tags.Read(tail, Flip(mode)))
  {
    ReadPlain(tags, plain, tags.Tag(mode) + tail, mode);
    ReadTag(tags, tail, mode);
  }

  /** Reading past the first tag of a text. */
  lemma ReadThroughTag(tags: Tags, text: string, rest: string, mode: Mode)
    requires tags.WellFormed() && Has(tags.Tag(mode), text)
    ensures var tag := tags.Tag(mode);
            tags.Read(text + rest, mode) ==
            Prepend(Label(Before(tag, text), mode), tags.Read(After(tag, text) + rest, Flip(mode)))
  {
    var tag := tags.Tag(mode);
    hide *;
    FindSplits(tag, text, rest);
    ReadPast(tags, Before(tag, text), After(tag, text) + rest, mode);
  }

  lemma PrependLabels(plain: string, mode: Mode, events: seq<Event>, r: Reading)
    ensures Prepend(Label(plain, mode), Prepend(Labels(events), r)) == Prepend(Labels(Emit(plain, mode) + events), r)
  {
    LabelsEmit(plain, mode);
    LabelsJoin(Emit(plain, mode), events);
  }

  /** A text that ends in a tag is read on its own, whatever follows. */
  lemma {:induction false} SplitEndingInTag(tags: Tags, text: string, rest: string, mode: Mode)
    requires tags.WellFormed() && tags.EndsInTag(text, mode)
    ensures var (events, last) := tags.Split(text, mode);
            tags.Read(text + rest, mode) == Prepend(Labels(events), tags.Read(rest, last))
    decreases |text|
  {
    hide Tags.Read, Label, Labels, Before, Find, TagAt;
    if text == "" {
      hide Labels;
      assert text + rest == rest;
      NoLabels();
    } else {
      var tag := tags.Tag(mode);
      var tail := After(tag, text);
      ReadThroughTag(tags, text, rest, mode);
      SplitEndingInTag(tags, tail, rest, Flip(mode));
      SplitStep(tags, text, mode);
      var (events, last) := tags.Split(tail, Flip(mode));
      PrependLabels(Before(tag, text), mode, events, tags.Read(rest, last));
    }
  }

  lemma NoLabels()
    ensures Labels([]) == []
  {
  }

  lemma CutTail(text: string, p: string, rest: string)
    requires |p| <= |text| && p == Suffix(text, |p|)
    ensures text + rest == text[..|text| - |p|] + (p + rest)
  {
  }

  /** The last stretch of a text without a tag, up to its held-back tail. */
  lemma ReadUpToHeld(tags: Tags, text: string, rest: string, mode: Mode)
    requires tags.WellFormed() && !Has(tags.Tag(mode), text)
    ensures var p := tags.PartialThinkTagSuffix(text);
            && |p| <= |text|
            && tags.Read(text + rest, mode) == Prepend(Label(text[..|text| - |p|], mode), tags.Read(p + rest, mode))
  {
    hide TagAt, Find, Has, Tags.Read, Tags.PartialThinkTagSuffix, Tags.IsPartial, Label, Suffix, Tags.Tag,
         Tags.WellFormed, Prepend;
    HeldIsPartial(tags, text);
    var p := tags.PartialThinkTagSuffix(text);
    var x := text[..|text| - |p|];
    CutTail(text, p, rest);
    forall j: nat | j < |x|
      ensures !TagAt(tags.Tag(mode), x + (p + rest), j)
    {
      NothingStraddles(tags, text, rest, mode, j);
    }
    ReadPlain(tags, x, p + rest, mode);
  }

  lemma TrimLater(first: seq<Event>, events: seq<Event>, held: nat)
    requires events != []
    ensures (first + events)[|first + events| - 1] == events[|events| - 1]
    ensures Tags.Trim(first + events, held) == first + Tags.Trim(events, held)
  {
  }

  /** A text that does not end in a tag: all but the held-back tail of its last
      event is read on its own, whatever follows. */
  lemma {:induction false} SplitEndingInText(tags: Tags, text: string, rest: string, mode: Mode)
    requires tags.WellFormed() && !tags.EndsInTag(text, mode)
    ensures var (events, last) := tags.Split(text, mode);
            && events != [] && events[|events| - 1].kind == last
            && var p := tags.PartialThinkTagSuffix(events[|events| - 1].text);
            && tags.Read(text + rest, mode) == Prepend(Labels(Tags.Trim(events, |p|)), tags.Read(p + rest, last))
    decreases |text|
  {
    hide Tags.Read, Label, Labels, Before, Find, TagAt, Tags.PartialThinkTagSuffix;
    if !Has(tags.Tag(mode), text) {
      ReadUpToHeld(tags, text, rest, mode);
      var p := tags.PartialThinkTagSuffix(text);
      var x := text[..|text| - |p|];
      LabelsEmit(x, mode);
      assert Tags.Trim([Event(mode, text)], |p|) == Emit(x, mode);
    } else {
      var tag := tags.Tag(mode);
      var tail := After(tag, text);
      ReadThroughTag(tags, text, rest, mode);
      SplitEndingInText(tags, tail, rest, Flip(mode));
      SplitStep(tags, text, mode);
      var (events, last) := tags.Split(tail, Flip(mode));
      var p := tags.PartialThinkTagSuffix(events[|events| - 1].text);
      hide Tags.Trim;
      TrimLater(Emit(Before(tag, text), mode), events, |p|);
      PrependLabels(Before(tag, text), mode, Tags.Trim(events, |p|), tags.Read(p + rest, last));
    }
  }

  // ---------------------------------------------------------------- the splitter's meaning

  lemma LabelEnd(x: string, p: string, kind: Mode)
    ensures Label(x + p, kind) == Label(x, kind) + Label(p, kind)
    decreases |x|
  {
    if x == "" {
      assert x + p == p;
    } else {
      assert (x + p)[1..] == x[1..] + p;
      LabelEnd(x[1..], p, kind);
    }
  }

  lemma LabelsOfOne(e: Event)
    ensures Labels([e]) == Label(e.text, e.kind)
  {
    hide Label;
    assert Labels([e]) == Label(e.text, e.kind) + Labels([]);
  }

  lemma Regroup(a: seq<Labelled>, b: seq<Labelled>, c: seq<Labelled>)
    ensures a + (b + c) == (a + b) + c
  {
  }

  /** Cutting the held-back tail off the events takes exactly its labels away. */
  lemma LabelsTrim(events: seq<Event>, p: string)
    requires events != []
    requires var last := events[|events| - 1]; |p| <= |last.text| && p == Suffix(last.text, |p|)
    ensures Labels(events) == Labels(Tags.Trim(events, |p|)) + Label(p, events[|events| - 1].kind)
  {
    hide Labels, Label, Emit;
    var last := events[|events| - 1];
    var x := last.text[..|last.text| - |p|];
    var init := events[..|events| - 1];
    assert last.text == x + p && events == init + [last];
    assert Tags.Trim(events, |p|) == init + Emit(x, last.kind);
    hide *;
    Regroup(Labels(init), Label(x, last.kind), Label(p, last.kind));
    LabelEnd(x, p, last.kind);
    LabelsJoin(init, [last]);
    LabelsJoin(init, Emit(x, last.kind));
    LabelsEmit(x, last.kind);
    LabelsOfOne(last);
  }

  /** A held-back text on its own is plain text of either mode. */
  lemma ReadHeld(tags: Tags, p: string, rest: string, mode: Mode)
    requires tags.WellFormed() && tags.IsPartial(p)
    requires rest == "" || !(p <= tags.Tag(mode))
    ensures tags.Read(p + rest, mode) == Prepend(Label(p, mode), tags.Read(rest, mode))
  {
    forall i: nat | i < |p|
      ensures !TagAt(tags.Tag(mode), p + rest, i)
    {
      PartialMeetsNoTag(tags, p, rest, mode, i);
    }
    ReadPlain(tags, p, rest, mode);
  }

  lemma ReadNothing(tags: Tags, mode: Mode)
    requires tags.WellFormed()
    ensures tags.Read("", mode) == Reading([], mode)
  {
  }

  /** One call of the splitter labels every character, and ends in the mode, that
      the character-by-character reading gives. */
  lemma SplitMeansRead(tags: Tags, text: string, mode: Mode)
    requires tags.WellFormed()
    ensures var (events, last) := tags.Split(text, mode);
            tags.Read(text, mode) == Reading(Labels(events), last)
  {
    hide Tags.Read, Label, Labels, Tags.Split, Tags.EndsInTag, Tags.PartialThinkTagSuffix;
    assert text + "" == text;
    var (events, last) := tags.Split(text, mode);
    ReadNothing(tags, last);
    if tags.EndsInTag(text, mode) {
      SplitEndingInTag(tags, text, "", mode);
    } else {
      SplitEndingInText(tags, text, "", mode);
      var lastText := events[|events| - 1].text;
      var p := tags.PartialThinkTagSuffix(lastText);
      HeldIsPartial(tags, lastText);
      ReadHeld(tags, p, "", last);
      LabelsTrim(events, p);
      hide *;
      assert Prepend(Label(p, last), Reading([], last)) == Reading(Label(p, last), last);
    }
  }

  // ---------------------------------------------------------------- the stream

  /** What one chunk does, in the three ways it can go. */
  lemma FeedCases(tags: Tags, s: Stream, chunk: string)
    requires tags.WellFormed() && chunk != ""
    ensures var (events, mode) := tags.Split(s.carry + chunk, s.mode);
            tags.Feed(s, chunk) ==
            if events == [] then Stream("", s.kind, mode, s.out)
            else
              var last := events[|events| - 1];
              var p := tags.PartialThinkTagSuffix(last.text);
              Stream(p, if p == "" then s.kind else last.kind, mode,
                     s.out + if p == "" then events else Tags.Trim(events, |p|))
  {
    hide Tags.Split, Tags.PartialThinkTagSuffix, Tags.Trim;
  }

  /** However the chunk ends, what was yielded with what is held back is what the
      splitter made of it. */
  lemma FedLabels(tags: Tags, s: Stream, chunk: string)
    requires tags.WellFormed() && chunk != ""
    ensures var s' := tags.Feed(s, chunk);
            var (events, mode) := tags.Split(s.carry + chunk, s.mode);
            && s'.mode == mode && (s'.carry == "" || tags.IsPartial(s'.carry))
            && Labels(s'.out) + Label(s'.carry, s'.kind) == Labels(s.out) + Labels(events)
  {
    hide Tags.Feed, Tags.Split, Tags.PartialThinkTagSuffix, Labels, Tags.Trim, Tags.IsPartial;
    FeedCases(tags, s, chunk);
    var (events, mode) := tags.Split(s.carry + chunk, s.mode);
    if events == [] {
      NoLabels();
    } else {
      var text := events[|events| - 1].text;
      var p := tags.PartialThinkTagSuffix(text);
      HeldIsPartial(tags, text);
      LabelsTrim(events, p);
      LabelsJoin(s.out, events);
      LabelsJoin(s.out, Tags.Trim(events, |p|));
    }
  }

  lemma OutcomeLabels(tags: Tags, s: Stream)
    ensures tags.Outcome(s) == Reading(Labels(s.out) + Label(s.carry, s.kind), s.mode)
  {
    LabelsJoin(s.out, Emit(s.carry, s.kind));
    LabelsEmit(s.carry, s.kind);
  }

  /** A text fed in one piece at the end of a stream is read as it stands. */
  lemma LastPiece(tags: Tags, s: Stream, x: string)
    requires tags.WellFormed() && (x == "" ==> tags.Held(s))
    ensures tags.Outcome(tags.Feed(s, x)) == tags.Pending(s, x)
  {
    hide Tags.Split, Labels, Label, Tags.Outcome, Tags.Read, Tags.IsPartial;
    OutcomeLabels(tags, tags.Feed(s, x));
    if x == "" {
      ReadNothing(tags, s.mode);
      if s.carry == "" {
        NoLabel(s.kind);
        assert s.carry + x == "";
      } else {
        ReadHeld(tags, s.carry, "", s.mode);
      }
    } else {
      hide Tags.Feed;
      FedLabels(tags, s, x);
      SplitMeansRead(tags, s.carry + x, s.mode);
    }
  }

  lemma NoLabel(kind: Mode)
    ensures Label("", kind) == []
  {
  }

  lemma PendingAfter(tags: Tags, s: Stream, chunk: string, x: string, yielded: seq<Labelled>, after: Reading)
    requires tags.WellFormed()
    requires Labels(tags.Feed(s, chunk).out) == Labels(s.out) + yielded
    requires tags.Read(s.carry + chunk + x, s.mode) == Prepend(yielded, after)
    requires tags.Read(tags.Feed(s, chunk).carry + x, tags.Feed(s, chunk).mode) == after
    ensures tags.Pending(tags.Feed(s, chunk), x) == tags.Pending(s, chunk + x)
  {
    hide Labels, Tags.Feed, Tags.Read;
    assert s.carry + chunk + x == s.carry + (chunk + x);
  }

  /** A chunk that yields events keeps back the tail of the last one. */
  lemma FeedYields(tags: Tags, s: Stream, chunk: string)
    requires tags.WellFormed() && chunk != "" && tags.Split(s.carry + chunk, s.mode).0 != []
    ensures var (events, mode) := tags.Split(s.carry + chunk, s.mode);
            var last := events[|events| - 1];
            var p := tags.PartialThinkTagSuffix(last.text);
            var s' := tags.Feed(s, chunk);
            && s'.carry == p && s'.mode == mode && (p == "" || (s'.kind == last.kind && tags.IsPartial(p)))
            && Labels(s'.out) == Labels(s.out) + Labels(Tags.Trim(events, |p|))
            && Labels(events) == Labels(Tags.Trim(events, |p|)) + Label(p, last.kind)
  {
    hide Tags.Feed, Tags.Split, Tags.PartialThinkTagSuffix, Labels, Tags.Trim, Tags.IsPartial, Label;
    FeedCases(tags, s, chunk);
    var (events, mode) := tags.Split(s.carry + chunk, s.mode);
    var last := events[|events| - 1];
    var p := tags.PartialThinkTagSuffix(last.text);
    HeldIsPartial(tags, last.text);
    LabelsTrim(events, p);
    NoLabel(last.kind);
    LabelsJoin(s.out, events);
    LabelsJoin(s.out, Tags.Trim(events, |p|));
  }

  /** After a chunk that ends in a tag, the rest is read on its own; text held
      back across the tag does no harm if it is plain text of the current mode. */
  lemma TagEndFollows(tags: Tags, s: Stream, chunk: string, x: string)
    requires tags.WellFormed() && chunk != "" && tags.EndsInTag(s.carry + chunk, s.mode)
    requires tags.SafeChunk(s, chunk)
    ensures tags.Pending(tags.Feed(s, chunk), x) == tags.Pending(s, chunk + x)
  {
    hide Tags.Feed, Tags.Split, Tags.PartialThinkTagSuffix, Labels, Tags.Trim, Tags.Read, Tags.EndsInTag, Label,
         Tags.Pending, Tags.IsPartial;
    var text := s.carry + chunk;
    var (events, mode) := tags.Split(text, s.mode);
    SplitEndingInTag(tags, text, x, s.mode);
    if events == [] {
      FeedCases(tags, s, chunk);
      NoLabels();
      assert "" + x == x;
      PendingAfter(tags, s, chunk, x, [], tags.Read(x, mode));
    } else {
      FeedYields(tags, s, chunk);
      var last := events[|events| - 1];
      var p := tags.PartialThinkTagSuffix(last.text);
      var yielded := Labels(Tags.Trim(events, |p|));
      if p == "" {
        assert p + x == x;
        NoLabel(last.kind);
      } else {
        ReadHeld(tags, p, x, mode);
      }
      PendingAfter(tags, s, chunk, x, yielded, tags.Read(p + x, mode));
    }
  }

  /** After a chunk that ends in text, what it yielded and holds back are read the
      same whatever follows. */
  lemma TextEndFollows(tags: Tags, s: Stream, chunk: string, x: string)
    requires tags.WellFormed() && chunk != "" && !tags.EndsInTag(s.carry + chunk, s.mode)
    ensures tags.Held(tags.Feed(s, chunk))
    ensures tags.Pending(tags.Feed(s, chunk), x) == tags.Pending(s, chunk + x)
  {
    hide Tags.Feed, Tags.Split, Tags.PartialThinkTagSuffix, Labels, Tags.Trim, Tags.Read, Tags.EndsInTag, Label,
         Tags.Pending, Tags.IsPartial;
    var text := s.carry + chunk;
    var (events, mode) := tags.Split(text, s.mode);
    SplitEndingInText(tags, text, x, s.mode);
    FeedYields(tags, s, chunk);
    var p := tags.PartialThinkTagSuffix(events[|events| - 1].text);
    PendingAfter(tags, s, chunk, x, Labels(Tags.Trim(events, |p|)), tags.Read(p + x, mode));
  }

  /** A safe chunk leaves the reading of whatever comes next unchanged. */
  lemma SafeChunkFollows(tags: Tags, s: Stream, chunk: string, x: string)
    requires tags.WellFormed() && tags.Held(s) && tags.SafeChunk(s, chunk)
    ensures tags.Held(tags.Feed(s, chunk))
    ensures tags.Pending(tags.Feed(s, chunk), x) == tags.Pending(s, chunk + x)
  {
    if chunk == "" {
      assert chunk + x == x;
    } else {
      hide Tags.Feed, Tags.Split, Tags.PartialThinkTagSuffix, Tags.EndsInTag, Tags.Pending, Tags.IsPartial;
      if tags.EndsInTag(s.carry + chunk, s.mode) {
        TagEndFollows(tags, s, chunk, x);
        FeedCases(tags, s, chunk);
        if tags.Split(s.carry + chunk, s.mode).0 != [] { FeedYields(tags, s, chunk); }
      } else {
        TextEndFollows(tags, s, chunk, x);
      }
    }
  }

  /** An unsafe chunk: some next piece is read differently than in the whole text. */
  lemma UnsafeChunkDiffers(tags: Tags, s: Stream, chunk: string)
    requires tags.WellFormed() && !tags.SafeChunk(s, chunk)
    ensures var x := tags.Giveaway(tags.Feed(s, chunk));
            tags.Outcome(tags.Feed(tags.Feed(s, chunk), x)) != tags.Pending(s, chunk + x)
  {
    hide Tags.Feed, Tags.Split, Tags.PartialThinkTagSuffix, Labels, Tags.Trim, Tags.Read, Tags.EndsInTag, Label,
         Tags.Outcome;
    var text, s' := s.carry + chunk, tags.Feed(s, chunk);
    var (events, mode) := tags.Split(text, s.mode);
    FeedCases(tags, s, chunk);
    var last := events[|events| - 1];
    var p := tags.PartialThinkTagSuffix(last.text);
    HeldIsPartial(tags, last.text);
    LabelsTrim(events, p);
    LabelsJoin(s.out, Tags.Trim(events, |p|));
    var before := Labels(s'.out);
    var x := tags.Giveaway(s');
    LastPiece(tags, s', x);
    SplitEndingInTag(tags, text, x, s.mode);
    assert s.carry + (chunk + x) == text + x;
    if last.kind != mode {
      ReadBracketed(tags, p, mode);
      LabelFirst(p, last.kind);
      LabelFirst(p + x, mode);
      assert tags.Pending(s, chunk + x).labels[|before|] == (p[0], last.kind);
      assert tags.Pending(s', x).labels[|before|] == (p[0], mode);
    } else {
      assert p + x == tags.Tag(mode);
      ReadTag(tags, "", mode);
      ReadNothing(tags, Flip(mode));
      assert tags.Tag(mode) + "" == tags.Tag(mode);
      LabelFirst(p, last.kind);
      assert |tags.Pending(s', x).labels| == |before|;
      assert |tags.Pending(s, chunk + x).labels| > |before|;
    }
  }

  lemma LabelFirst(text: string, kind: Mode)
    requires text != ""
    ensures Label(text, kind) != [] && Label(text, kind)[0] == (text[0], kind)
  {
  }

  /** A held-back text followed by a new angle bracket is plain text. */
  lemma ReadBracketed(tags: Tags, p: string, mode: Mode)
    requires tags.WellFormed() && tags.IsPartial(p) && p != ""
    ensures tags.Read(p + "<", mode) == Reading(Label(p + "<", mode), mode)
  {
    var tag, plain := tags.Tag(mode), p + "<";
    assert plain + "" == plain;
    forall i: nat | i < |plain|
      ensures !TagAt(tag, plain + "", i)
    {
      if i + |tag| <= |plain| {
        assert plain[i..i + |tag|][0] == plain[i];
        if i == 0 && |tag| == |plain| { assert plain[0..|tag|][|p|] == '<'; }
        if i == 0 && |tag| <= |p| {
          PartialMeetsNoTag(tags, p, "", mode, 0);
          assert p + "" == p;
          TagInside(tag, p, "<", 0);
        }
      }
    }
    ReadPlain(tags, plain, "", mode);
    ReadNothing(tags, mode);
    hide *;
    assert Prepend(Label(plain, mode), Reading([], mode)) == Reading(Label(plain, mode), mode);
  }

  // ---------------------------------------------------------------- main results

  lemma {:induction false} SafeStreamFollows(tags: Tags, s: Stream, chunks: seq<string>, x: string)
    requires tags.WellFormed() && tags.Held(s) && tags.SafeStream(s, chunks)
    ensures tags.Held(tags.FeedAll(s, chunks))
    ensures tags.Pending(tags.FeedAll(s, chunks), x) == tags.Pending(s, Join(chunks) + x)
    decreases |chunks|
  {
    hide Tags.Pending, Tags.Held, Tags.Feed, Tags.SafeChunk;
    if chunks == [] {
      assert Join(chunks) + x == x;
    } else {
      var s' := tags.Feed(s, chunks[0]);
      var rest := Join(chunks[1..]) + x;
      SafeChunkFollows(tags, s, chunks[0], rest);
      SafeStreamFollows(tags, s', chunks[1..], x);
      assert Join(chunks) + x == chunks[0] + rest;
    }
  }

  lemma {:induction false} FeedLast(tags: Tags, s: Stream, chunks: seq<string>, x: string)
    requires tags.WellFormed()
    ensures tags.FeedAll(s, chunks + [x]) == tags.Feed(tags.FeedAll(s, chunks), x)
    ensures Join(chunks + [x]) == Join(chunks) + x
    ensures tags.SafeStream(s, chunks + [x]) <==>
            tags.SafeStream(s, chunks) && tags.SafeChunk(tags.FeedAll(s, chunks), x)
    decreases |chunks|
  {
    hide Tags.Feed, Tags.SafeChunk;
    if chunks == [] {
      assert chunks + [x] == [x] && [x][1..] == [] && Join([x]) == x;
    } else {
      assert (chunks + [x])[1..] == chunks[1..] + [x] && (chunks + [x])[0] == chunks[0];
      FeedLast(tags, tags.Feed(s, chunks[0]), chunks[1..], x);
    }
  }

  lemma StartReads(tags: Tags, x: string)
    requires tags.WellFormed()
    ensures tags.Held(START) && tags.Pending(START, x) == tags.Read(x, Answer)
  {
    NoLabels();
    assert "" + x == x;
  }

  /** A safely chunked stream, with any last piece, is labelled as its whole text. */
  lemma SafeAgrees(tags: Tags, chunks: seq<string>, x: string)
    requires tags.WellFormed() && tags.SafeStream(START, chunks)
    ensures tags.Agrees(chunks + [x])
  {
    hide Tags.Pending, Tags.Held, Tags.Feed, Tags.FeedAll, Tags.SafeStream, Tags.Outcome, Tags.Read, Join;
    StartReads(tags, "");
    SafeStreamFollows(tags, START, chunks, x);
    LastPiece(tags, tags.FeedAll(START, chunks), x);
    FeedLast(tags, START, chunks, x);
    StartReads(tags, Join(chunks) + x);
  }

  lemma SafeSplitLast(tags: Tags, chunks: seq<string>)
    requires tags.WellFormed() && chunks != []
    ensures var n := |chunks| - 1;
            tags.SafeStream(START, chunks) <==>
            tags.SafeStream(START, chunks[..n]) && tags.SafeChunk(tags.FeedAll(START, chunks[..n]), chunks[n])
  {
    hide *;
    var n := |chunks| - 1;
    assert chunks == chunks[..n] + [chunks[n]];
    FeedLast(tags, START, chunks[..n], chunks[n]);
  }

  lemma PrefixOfPrefix(chunks: seq<string>, n: nat, k: nat)
    requires k <= n <= |chunks|
    ensures chunks[..n][..k] == chunks[..k]
  {
  }

  lemma {:induction false} FirstUnsafe(tags: Tags, chunks: seq<string>) returns (k: nat)
    requires tags.WellFormed() && !tags.SafeStream(START, chunks)
    ensures k < |chunks| && tags.SafeStream(START, chunks[..k])
    ensures !tags.SafeChunk(tags.FeedAll(START, chunks[..k]), chunks[k])
    decreases |chunks|
  {
    assert chunks != [];
    hide *;
    var n := |chunks| - 1;
    SafeSplitLast(tags, chunks);
    if tags.SafeStream(START, chunks[..n]) {
      k := n;
    } else {
      k := FirstUnsafe(tags, chunks[..n]);
      PrefixOfPrefix(chunks, n, k);
    }
  }

  lemma {:induction false} SafePrefix(tags: Tags, chunks: seq<string>, k: nat)
    requires tags.WellFormed() && tags.SafeStream(START, chunks) && k <= |chunks|
    ensures tags.SafeStream(START, chunks[..k])
    decreases |chunks|
  {
    hide *;
    if k == |chunks| {
      assert chunks[..k] == chunks;
    } else {
      SafeSplitLast(tags, chunks);
      SafePrefix(tags, chunks[..|chunks| - 1], k);
      PrefixOfPrefix(chunks, |chunks| - 1, k);
    }
  }

  /** After safe chunks, two more pieces are labelled as the whole text exactly when they
      are labelled as one piece would be. */
  lemma OutcomeInContext(tags: Tags, chunks: seq<string>, chunk: string, x: string)
    requires tags.WellFormed() && tags.SafeStream(START, chunks)
    ensures tags.Agrees(chunks + [chunk] + [x]) <==>
            tags.Outcome(tags.Feed(tags.Feed(tags.FeedAll(START, chunks), chunk), x)) ==
            tags.Pending(tags.FeedAll(START, chunks), chunk + x)
  {
    hide Tags.Pending, Tags.Held, Tags.Feed, Tags.FeedAll, Tags.SafeStream, Tags.SafeChunk, Tags.Outcome, Tags.Read,
         Join;
    StartReads(tags, "");
    SafeStreamFollows(tags, START, chunks, chunk + x);
    FeedLast(tags, START, chunks, chunk);
    FeedLast(tags, START, chunks + [chunk], x);
    StartReads(tags, Join(chunks) + (chunk + x));
    assert Join(chunks) + (chunk + x) == Join(chunks) + chunk + x;
  }

  /** Right after its first unsafe chunk a stream is labelled wrongly for some continuation. */
  lemma UnsafeStreamDisagrees(tags: Tags, chunks: seq<string>) returns (k: nat)
    requires tags.WellFormed() && !tags.SafeStream(START, chunks)
    ensures 0 < k <= |chunks| && tags.SafeStream(START, chunks[..k - 1])
    ensures !tags.SafeChunk(tags.FeedAll(START, chunks[..k - 1]), chunks[k - 1])
    ensures !tags.Agrees(chunks[..k] + [tags.Giveaway(tags.FeedAll(START, chunks[..k]))])
  {
    hide Tags.Pending, Tags.Held, Tags.Feed, Tags.FeedAll, Tags.SafeStream, Tags.SafeChunk, Tags.Outcome, Tags.Read,
         Join;
    k := FirstUnsafe(tags, chunks);
    var safe, chunk := chunks[..k], chunks[k];
    UnsafeChunkDiffers(tags, tags.FeedAll(START, safe), chunk);
    OutcomeInContext(tags, safe, chunk, tags.Giveaway(tags.Feed(tags.FeedAll(START, safe), chunk)));
    FeedLast(tags, START, safe, chunk);
    assert safe + [chunk] == chunks[..k + 1];
    k := k + 1;
  }

  /** Exactly when the chunking does not matter: every chunk is safe if and only if
      the stream, cut after any of its chunks and continued by any text, is
      labelled, and ends in the mode, as one call on the whole text would have it. */
  lemma ChunkingInvisibleExactlyWhenSafe(tags: Tags, chunks: seq<string>)
    requires tags.WellFormed()
    ensures tags.SafeStream(START, chunks) <==>
            forall k: nat, x: string :: k <= |chunks| ==> tags.Agrees(chunks[..k] + [x])
  {
    hide *;
    if tags.SafeStream(START, chunks) {
      forall k: nat, x: string | k <= |chunks|
        ensures tags.Agrees(chunks[..k] + [x])
      {
        SafePrefix(tags, chunks, k);
        SafeAgrees(tags, chunks[..k], x);
      }
    } else {
      var k := UnsafeStreamDisagrees(tags, chunks);
    }
  }

  lemma BracketThenTag(tags: Tags, mode: Mode)
    requires tags.WellFormed()
    ensures var chunk := "<" + tags.Tag(mode);
            && tags.Split(chunk, mode) == ([Event(mode, "<")], Flip(mode))
            && tags.EndsInTag(chunk, mode)
  {
    var tag := tags.Tag(mode);
    var chunk := "<" + tag;
    assert |tag| >= 2 by {
      assert !(tag <= tags.Tag(Flip(mode)));
    }
    assert chunk[0..|tag|][1] == '<';
    assert TagAt(tag, chunk, 1) by { assert chunk[1..] == tag; }
    assert Find(tag, chunk) == 1 by {
      assert !TagAt(tag, chunk, 0);
      assert FindFrom(tag, chunk, 1) == 1;
    }
    assert Before(tag, chunk) == "<" && After(tag, chunk) == "";
    SplitStep(tags, chunk, mode);
    hide Find, Before, After, TagAt;
    assert tags.Split("", Flip(mode)) == ([], Flip(mode));
    assert Emit("<", mode) + [] == [Event(mode, "<")];
  }

  lemma BracketIsHeld(tags: Tags)
    requires tags.WellFormed()
    ensures tags.PartialThinkTagSuffix("<") == "<"
  {
    assert |tags.close| > 1 by {
      assert !(tags.close <= tags.open);
    }
    assert Suffix("<", 1) < tags.close;
    assert Tail(tags.close, "<") == 1;
  }

  lemma BracketUnsafe(tags: Tags)
    requires tags.WellFormed()
    ensures !tags.SafeChunk(START, "<" + tags.open)
    ensures var s := tags.Feed(START, "<" + tags.open); s.kind != s.mode
  {
    hide Tags.Feed, Tags.Split, Tags.EndsInTag, Tags.PartialThinkTagSuffix, Tags.Trim, Tags.WellFormed;
    var chunk := "<" + tags.open;
    BracketThenTag(tags, Answer);
    BracketIsHeld(tags);
    assert START.carry + chunk == chunk;
    FeedCases(tags, START, chunk);
  }

  lemma NothingFed(tags: Tags)
    requires tags.WellFormed()
    ensures tags.FeedAll(START, []) == START && tags.SafeStream(START, [])
  {
  }

  /** A held-back bracket crosses a complete tag: "<<think>" and then more text.
      The first bracket comes out as thinking, where one call says answer. */
  lemma BracketCrossesTag(tags: Tags)
    requires tags.WellFormed()
    ensures !tags.Agrees([] + ["<" + tags.open] + ["<"])
  {
    hide Tags.Pending, Tags.Feed, Tags.FeedAll, Tags.SafeStream, Tags.SafeChunk, Tags.Outcome, Tags.Agrees,
         Tags.WellFormed;
    NothingFed(tags);
    BracketUnsafe(tags);
    UnsafeChunkDiffers(tags, START, "<" + tags.open);
    OutcomeInContext(tags, [], "<" + tags.open, "<");
  }

  /** So it happens to the real tags. */
  lemma ThinkBracketCrossesTag()
    ensures THINK.WellFormed() && !THINK.Agrees([] + ["<" + THINK.open] + ["<"])
  {
    ThinkWellFormed();
    BracketCrossesTag(THINK);
    hide *;
  }

  // ---------------------------------------------------------------- one thought

  /** No tag begins in the first n characters. */
  ghost predicate NoTagBefore(tag: string, text: string, n: nat) {
    forall i: nat :: i < n ==> !TagAt(tag, text, i)
  }

  lemma {:induction false} FindsFirst(tag: string, text: string, from: nat, n: nat)
    requires from <= n <= |text| && NoTagBefore(tag, text, n) && (n < |text| ==> TagAt(tag, text, n))
    ensures FindFrom(tag, text, from) == n
    decreases n - from
  {
    hide TagAt;
    if from < n { FindsFirst(tag, text, from + 1, n); }
  }

  lemma SplitAtTag(tags: Tags, mode: Mode, tag: string, plain: string, rest: string, events: seq<Event>, last: Mode)
    requires tags.WellFormed() && tag == tags.Tag(mode) && plain != ""
    requires NoTagBefore(tag, plain + tag + rest, |plain|)
    requires tags.Split(rest, Flip(mode)) == (events, last)
    ensures tags.Split(plain + tag + rest, mode) == ([Event(mode, plain)] + events, last)
  {
    var text := plain + tag + rest;
    assert tag != "";
    assert TagAt(tag, text, |plain|) by { assert text[|plain|..|plain| + |tag|] == tag; }
    FindsFirst(tag, text, 0, |plain|);
    assert Before(tag, text) == plain && After(tag, text) == rest;
    hide Find, TagAt, Before, After, Flip;
    SplitStep(tags, text, mode);
  }

  lemma SplitWhole(tags: Tags, mode: Mode, plain: string)
    requires tags.WellFormed() && plain != "" && NoTagBefore(tags.Tag(mode), plain, |plain|)
    ensures tags.Split(plain, mode) == ([Event(mode, plain)], mode)
  {
    FindsFirst(tags.Tag(mode), plain, 0, |plain|);
    hide FindFrom, TagAt, NoTagBefore;
  }

  lemma Switches(tags: Tags)
    ensures tags.Tag(Answer) == tags.open && tags.Tag(Thinking) == tags.close
    ensures Flip(Answer) == Thinking && Flip(Thinking) == Answer
  {
  }

  /** An answer with a thought between the tags in it: the thought is labelled as thinking,
      what stands before and after it as the answer, and the tags are dropped. */
  lemma OneThought(tags: Tags, before: string, thought: string, after: string)
    requires tags.WellFormed() && before != "" && thought != "" && after != ""
    requires NoTagBefore(tags.open, before + tags.open + (thought + tags.close + after), |before|)
    requires NoTagBefore(tags.close, thought + tags.close + after, |thought|)
    requires NoTagBefore(tags.open, after, |after|)
    ensures tags.Split(before + tags.open + (thought + tags.close + after), Answer) ==
            ([Event(Answer, before), Event(Thinking, thought), Event(Answer, after)], Answer)
  {
    hide *;
    Switches(tags);
    SplitWhole(tags, Answer, after);
    SplitAtTag(tags, Thinking, tags.close, thought, after, [Event(Answer, after)], Answer);
    var events := [Event(Thinking, thought)] + [Event(Answer, after)];
    SplitAtTag(tags, Answer, tags.open, before, thought + tags.close + after, events, Answer);
    assert [Event(Answer, before)] + events == [Event(Answer, before), Event(Thinking, thought), Event(Answer, after)];
  }
}
