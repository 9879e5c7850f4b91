/** Exactly which streams are labelled as their whole text. */
module ThinkStreams {
  import opened Options
  import opened ThinkTags

  // ---------------------------------------------------------------- labels

  lemma {:induction false} LabelAt(text: string, mode: Mode)
    ensures |Label(text, mode)| == |text|
    ensures forall i :: 0 <= i < |text| ==> Label(text, mode)[i] == (text[i], mode)
  {
    if text != "" { LabelAt(text[1..], mode); }
  }

  lemma {:induction false} OutGrows(tags: Tags, s: Stream, chunks: seq<string>)
    requires tags.WellFormed()
    ensures Labels(s.out) <= tags.Outcome(tags.FeedAll(s, chunks)).labels
    decreases |chunks|
  {
    hide Labels, Tags.Split, Tags.PartialThinkTagSuffix, Tags.Trim;
    if chunks == [] {
      LabelsJoin(s.out, Emit(s.carry, s.kind));
    } else {
      OutGrows(tags, tags.Feed(s, chunks[0]), chunks[1..]);
      FeedGrows(tags, s, chunks[0]);
    }
  }

  lemma FeedGrows(tags: Tags, s: Stream, chunk: string)
    requires tags.WellFormed()
    ensures Labels(s.out) <= Labels(tags.Feed(s, chunk).out)
  {
    hide Labels, Tags.Split, Tags.PartialThinkTagSuffix, Tags.Trim, Tags.Feed;
    if chunk == "" {
      FeedNothing(tags, s);
    } else {
      FeedCases(tags, s, chunk);
      var (events, mode) := tags.Split(s.carry + chunk, s.mode);
      if events != [] {
        var p := tags.PartialThinkTagSuffix(events[|events| - 1].text);
        LabelsJoin(s.out, events);
        LabelsJoin(s.out, Tags.Trim(events, |p|));
      }
    }
  }

  lemma FeedNothing(tags: Tags, s: Stream)
    requires tags.WellFormed()
    ensures tags.Feed(s, "") == s
  {
  }

  // ---------------------------------------------------------------- two readers out of step

  /** Where the first tag of a text ends, if it is the tag that ends the mode. */
  ghost function Reach(tags: Tags, text: string, mode: Mode): Option<nat> {
    if text == "" then None
    else if TagAt(tags.Tag(mode), text, 0) then Some(|tags.Tag(mode)|)
    else if TagAt(tags.Tag(Flip(mode)), text, 0) then None
    else
      match Reach(tags, text[1..], mode)
      case Some(n) => Some(n + 1)
      case None => None
  }

  /** A tag does not meet the other tag. */
  lemma NoTagInTag(tags: Tags, rest: string, mode: Mode, i: nat)
    requires tags.WellFormed() && i < |tags.Tag(mode)|
    ensures !TagAt(tags.Tag(Flip(mode)), tags.Tag(mode) + rest, i)
  {
    var tag, other := tags.Tag(mode), tags.Tag(Flip(mode));
    var text := tag + rest;
    if i + |other| <= |text| {
      assert text[i..i + |other|][0] == tag[i];
      if i == 0 {
        if |other| <= |tag| {
          assert text[0..|other|] == tag[..|other|];
        } else {
          assert text[0..|other|][..|tag|] == tag;
        }
      }
    }
  }

  lemma ReadOtherTag(tags: Tags, rest: string, mode: Mode)
    requires tags.WellFormed()
    ensures var tag := tags.Tag(mode);
            tags.Read(tag + rest, Flip(mode)) == Prepend(Label(tag, Flip(mode)), tags.Read(rest, Flip(mode)))
  {
    var tag := tags.Tag(mode);
    hide *;
    forall i: nat | i < |tag| ensures !TagAt(tags.Tag(Flip(mode)), tag + rest, i) { NoTagInTag(tags, rest, mode, i); }
    ReadPlain(tags, tag, rest, Flip(mode));
  }

  lemma StartsWith(tag: string, text: string)
    requires TagAt(tag, text, 0)
    ensures |tag| <= |text| && text == tag + text[|tag|..]
  {
    assert text[0..|tag|] == tag;
  }

  /** A reader in the other mode labels at most a tag's length more, and less than that
      unless the next tag is the one that ends the mode. */
  lemma {:induction false} OutOfStep(tags: Tags, text: string, mode: Mode)
    requires tags.WellFormed()
    ensures var there, here := |tags.Read(text, Flip(mode)).labels|, |tags.Read(text, mode).labels|;
            && there <= |tags.Tag(mode)| + here
            && (Reach(tags, text, mode).None? ==> there < |tags.Tag(mode)| + here)
    decreases |text|
  {
    hide TagAt, Tags.Read, Label, Tags.Tag;
    var tag, other := tags.Tag(mode), tags.Tag(Flip(mode));
    TagNotEmpty(tags, mode);
    TagNotEmpty(tags, Flip(mode));
    if text == "" {
      ReadNothing(tags, mode);
      ReadNothing(tags, Flip(mode));
    } else if TagAt(tag, text, 0) {
      StartsWith(tag, text);
      ReadTag(tags, text[|tag|..], mode);
      ReadOtherTag(tags, text[|tag|..], mode);
      LabelAt(tag, Flip(mode));
    } else if TagAt(other, text, 0) {
      StartsWith(other, text);
      ReadTag(tags, text[|other|..], Flip(mode));
      ReadOtherTag(tags, text[|other|..], Flip(mode));
      LabelAt(other, mode);
    } else {
      ReadCharacter(tags, text, mode);
      ReadCharacter(tags, text, Flip(mode));
      OutOfStep(tags, text[1..], mode);
    }
  }

  lemma TagNotEmpty(tags: Tags, mode: Mode)
    requires tags.WellFormed()
    ensures tags.Tag(mode) != ""
  {
  }

  /** The text starts with a stretch of n characters that ends in the tag and in which the
      other tag never begins. */
  ghost predicate Stretch(tag: string, other: string, text: string, n: nat) {
    |tag| <= n <= |text| && text[n - |tag|..n] == tag && forall i: nat :: i < n ==> !TagAt(other, text, i)
  }

  lemma StretchLater(tag: string, other: string, text: string, n: nat)
    requires text != "" && Stretch(tag, other, text[1..], n) && !TagAt(other, text, 0)
    ensures Stretch(tag, other, text, n + 1)
  {
    hide TagAt;
    assert text[1..][n - |tag|..n] == text[n + 1 - |tag|..n + 1];
    forall i: nat | i < n + 1 ensures !TagAt(other, text, i) {
      if i > 0 {
        assert text == text[..1] + text[1..];
        TagShift(other, text[..1], text[1..], i - 1);
      }
    }
  }

  lemma TagStretches(tags: Tags, rest: string, mode: Mode)
    requires tags.WellFormed()
    ensures Stretch(tags.Tag(mode), tags.Tag(Flip(mode)), tags.Tag(mode) + rest, |tags.Tag(mode)|)
  {
    var tag, other := tags.Tag(mode), tags.Tag(Flip(mode));
    hide TagAt, Tags.Tag, Flip, Tags.WellFormed;
    forall i: nat | i < |tag| ensures !TagAt(other, tag + rest, i) { NoTagInTag(tags, rest, mode, i); }
  }

  lemma {:induction false} ReachStretches(tags: Tags, text: string, mode: Mode)
    requires tags.WellFormed() && Reach(tags, text, mode).Some?
    ensures Stretch(tags.Tag(mode), tags.Tag(Flip(mode)), text, Reach(tags, text, mode).value)
    decreases |text|
  {
    hide TagAt, Tags.Tag, Stretch, Flip, Tags.WellFormed;
    var tag, other := tags.Tag(mode), tags.Tag(Flip(mode));
    if TagAt(tag, text, 0) {
      StartsWith(tag, text);
      TagStretches(tags, text[|tag|..], mode);
    } else {
      ReachStretches(tags, text[1..], mode);
      StretchLater(tag, other, text, Reach(tags, text[1..], mode).value);
    }
  }

  // ---------------------------------------------------------------- nothing is labelled twice

  /** A proper beginning of a tag that is completed by what follows. */
  lemma Completes(tags: Tags, p: string, rest: string, mode: Mode) returns (r: string, tail: string)
    requires tags.WellFormed() && p != "" && tags.IsPartial(p) && tags.Tag(mode) <= p + rest
    ensures tags.Tag(mode) == p + r && rest == r + tail && r != ""
    ensures forall x :: tags.Read(r + tail + x, mode) == Prepend(Label(r, mode), tags.Read(tail + x, mode))
  {
    var tag := tags.Tag(mode);
    var n := |tag| - |p|;
    ShorterThanTag(tags, p, rest, mode);
    assert (p + rest)[..|tag|] == tag;
    r, tail := rest[..n], rest[n..];
    assert tag == p + r && rest == r + tail;
    assert forall i :: 0 <= i < |r| ==> r[i] == tag[|p| + i];
    forall x ensures tags.Read(r + tail + x, mode) == Prepend(Label(r, mode), tags.Read(tail + x, mode)) {
      assert r + tail + x == r + (tail + x);
      NoBracketPlain(tags, r, tail + x, mode);
    }
  }

  lemma Comparable(a: string, b: string, text: string)
    requires a <= text && b <= text
    ensures a <= b || b < a
  {
    if |a| <= |b| { assert text[..|b|][..|a|] == text[..|a|]; } else { assert text[..|a|][..|b|] == text[..|b|]; }
  }

  lemma NoTagInPartial(tags: Tags, p: string, mode: Mode)
    requires tags.WellFormed() && tags.IsPartial(p)
    ensures !(tags.Tag(mode) <= p)
  {
  }

  lemma ShorterThanTag(tags: Tags, p: string, rest: string, mode: Mode)
    requires tags.WellFormed() && tags.IsPartial(p) && tags.Tag(mode) <= p + rest
    ensures p < tags.Tag(mode)
  {
    hide *;
    NoTagInPartial(tags, p, mode);
    Comparable(tags.Tag(mode), p, p + rest);
  }

  /** Text without angle brackets is plain. */
  lemma NoBracketPlain(tags: Tags, plain: string, rest: string, mode: Mode)
    requires tags.WellFormed() && forall i :: 0 <= i < |plain| ==> plain[i] != '<'
    ensures tags.Read(plain + rest, mode) == Prepend(Label(plain, mode), tags.Read(rest, mode))
  {
    var tag, text := tags.Tag(mode), plain + rest;
    forall i: nat | i < |plain| ensures !TagAt(tag, text, i) {
      if i + |tag| <= |text| { assert text[i..i + |tag|][0] == plain[i]; }
    }
    hide *;
    ReadPlain(tags, plain, rest, mode);
  }

  /** A beginning of a tag that is not completed is plain. */
  lemma HeldPlain(tags: Tags, p: string, rest: string, mode: Mode)
    requires tags.WellFormed() && tags.IsPartial(p) && p != "" && !(tags.Tag(mode) <= p + rest)
    ensures tags.Read(p + rest, mode) == Prepend(Label(p, mode), tags.Read(rest, mode))
  {
    var tag := tags.Tag(mode);
    forall i: nat | i < |p| ensures !TagAt(tag, p + rest, i) {
      if i + |tag| <= |p + rest| {
        if i > 0 {
          assert (p + rest)[i..i + |tag|][0] == p[i];
        } else {
          assert (p + rest)[0..|tag|] == (p + rest)[..|tag|];
        }
      }
    }
    hide *;
    ReadPlain(tags, p, rest, mode);
  }

  lemma CompletedBound(tags: Tags, p: string, r: string, z: string, mode: Mode)
    requires tags.WellFormed() && tags.Tag(mode) == p + r
    requires tags.Read(r + z, mode) == Prepend(Label(r, mode), tags.Read(z, mode))
    ensures |tags.Read(p + (r + z), mode).labels| <= |p| + |tags.Read(r + z, mode).labels|
  {
    hide *;
    assert p + (r + z) == tags.Tag(mode) + z;
    ReadTag(tags, z, mode);
    OutOfStep(tags, z, mode);
    PrependIs(Label(r, mode), tags.Read(z, mode));
    LabelAt(r, mode);
  }

  /** Held-back text read with what follows gives no more labels than both by themselves. */
  lemma HeldBound(tags: Tags, p: string, x: string, mode: Mode)
    requires tags.WellFormed() && tags.IsPartial(p)
    ensures |tags.Read(p + x, mode).labels| <= |p| + |tags.Read(x, mode).labels|
  {
    hide *;
    if p == "" {
      assert p + x == x;
    } else if tags.Tag(mode) <= p + x {
      var r, z := Completes(tags, p, x, mode);
      assert r + z + "" == r + z && z + "" == z;
      CompletedBound(tags, p, r, z, mode);
    } else {
      HeldPlain(tags, p, x, mode);
      PrependIs(Label(p, mode), tags.Read(x, mode));
      LabelAt(p, mode);
    }
  }

  ghost predicate Carries(tags: Tags, s: Stream) {
    s.carry == "" || tags.IsPartial(s.carry)
  }

  lemma FeedCarries(tags: Tags, s: Stream, chunk: string)
    requires tags.WellFormed() && Carries(tags, s)
    ensures Carries(tags, tags.Feed(s, chunk))
  {
    hide Tags.Feed, Labels, Tags.Split, Tags.IsPartial, Label;
    if chunk == "" { FeedNothing(tags, s); } else { FedLabels(tags, s, chunk); }
  }

  /** Feeding a chunk never adds to the labels that are still to come. */
  lemma FeedBound(tags: Tags, s: Stream, chunk: string, x: string)
    requires tags.WellFormed() && Carries(tags, s) && chunk != ""
    ensures |tags.Pending(tags.Feed(s, chunk), x).labels| <= |tags.Pending(s, chunk + x).labels|
  {
    hide Tags.Feed, Labels, Tags.Split, Tags.IsPartial, Tags.EndsInTag, Tags.Read, Label, Carries;
    if tags.EndsInTag(s.carry + chunk, s.mode) {
      var s' := tags.Feed(s, chunk);
      FedLabels(tags, s, chunk);
      SplitEndingInTag(tags, s.carry + chunk, x, s.mode);
      assert s.carry + (chunk + x) == s.carry + chunk + x;
      LabelAt(s'.carry, s'.kind);
      if s'.carry == "" { assert s'.carry + x == x; } else { HeldBound(tags, s'.carry, x, s'.mode); }
    } else {
      hide Tags.Pending;
      TextEndFollows(tags, s, chunk, x);
    }
  }

  /** A stream never labels more characters than one call on the rest would. */
  lemma {:induction false} LengthBound(tags: Tags, s: Stream, chunks: seq<string>)
    requires tags.WellFormed() && Carries(tags, s)
    ensures |tags.Outcome(tags.FeedAll(s, chunks)).labels| <= |tags.Pending(s, Join(chunks)).labels|
    decreases |chunks|
  {
    hide Tags.Outcome, Tags.Pending, Tags.Feed, Carries;
    if chunks == [] {
      EndBound(tags, s);
    } else if chunks[0] == "" {
      FeedNothing(tags, s);
      LengthBound(tags, s, chunks[1..]);
      assert Join(chunks) == Join(chunks[1..]);
    } else {
      var x := Join(chunks[1..]);
      FeedCarries(tags, s, chunks[0]);
      LengthBound(tags, tags.Feed(s, chunks[0]), chunks[1..]);
      FeedBound(tags, s, chunks[0], x);
    }
  }

  lemma EndBound(tags: Tags, s: Stream)
    requires tags.WellFormed() && Carries(tags, s)
    ensures |tags.Outcome(s).labels| <= |tags.Pending(s, "").labels|
  {
    hide Labels, Tags.Read, Tags.IsPartial, Label, Tags.Outcome;
    OutcomeLabels(tags, s);
    LabelAt(s.carry, s.kind);
    LabelAt(s.carry, s.mode);
    assert s.carry + "" == s.carry;
    if s.carry != "" {
      ReadHeld(tags, s.carry, "", s.mode);
    }
  }

  // ---------------------------------------------------------------- plain stretches

  /** No tail of the text could start a tag. */
  ghost predicate NoHold(tags: Tags, v: string) {
    forall n: nat :: 0 < n <= |v| ==> !tags.IsPartial(Suffix(v, n))
  }

  lemma BracketsInPartial(tags: Tags, q: string, i: nat)
    requires tags.WellFormed() && i < |q| && (q[i] == '<' <==> i != 0)
    ensures !tags.IsPartial(q)
  {
  }

  lemma TagNotPartial(tags: Tags, mode: Mode)
    requires tags.WellFormed()
    ensures !tags.IsPartial(tags.Tag(mode))
  {
  }

  /** Text that ends in a tag ends in no beginning of one. */
  lemma TagEndNoHold(tags: Tags, before: string, mode: Mode)
    requires tags.WellFormed()
    ensures NoHold(tags, before + tags.Tag(mode))
  {
    var tag := tags.Tag(mode);
    var v := before + tag;
    forall j: nat | 0 < j <= |v| ensures !tags.IsPartial(Suffix(v, j)) {
      var end := Suffix(v, j);
      if j == |tag| {
        assert end == tag;
        TagNotPartial(tags, mode);
      } else if j < |tag| {
        assert end[0] == tag[|tag| - j] != '<';
        BracketsInPartial(tags, end, 0);
      } else {
        assert end[j - |tag|] == tag[0] == '<';
        BracketsInPartial(tags, end, j - |tag|);
      }
    }
  }

  lemma StretchNoHold(tags: Tags, text: string, mode: Mode, n: nat)
    requires tags.WellFormed() && Stretch(tags.Tag(mode), tags.Tag(Flip(mode)), text, n)
    ensures NoHold(tags, text[..n])
  {
    var tag := tags.Tag(mode);
    assert text[..n] == text[..n - |tag|] + tag;
    hide *;
    TagEndNoHold(tags, text[..n - |tag|], mode);
  }

  lemma PartialPrefix(tags: Tags, q: string, p: string)
    requires q <= p && tags.IsPartial(p)
    ensures tags.IsPartial(q)
  {
  }

  /** A chunk that meets no tag. */
  lemma FeedPlain(tags: Tags, s: Stream, chunk: string)
    requires tags.WellFormed() && chunk != "" && !Has(tags.Tag(s.mode), s.carry + chunk)
    ensures var text, s' := s.carry + chunk, tags.Feed(s, chunk);
            var p := tags.PartialThinkTagSuffix(text);
            && |p| <= |text| && p == Suffix(text, |p|)
            && s'.carry == p && s'.mode == s.mode && tags.Held(s')
            && Labels(s'.out) == Labels(s.out) + Label(text[..|text| - |p|], s.mode)
            && (p == text ==> s'.out == s.out)
  {
    var text := s.carry + chunk;
    hide Tags.Feed, Labels, Label, Tags.Split, Tags.PartialThinkTagSuffix, Tags.IsPartial, Has;
    SplitDone(tags, text, s.mode);
    FeedCases(tags, s, chunk);
    HeldIsPartial(tags, text);
    var p := tags.PartialThinkTagSuffix(text);
    var first := Emit(text[..|text| - |p|], s.mode);
    assert Tags.Trim([Event(s.mode, text)], |p|) == first;
    if p == "" { assert text[..|text|] == text; }
    LabelsJoin(s.out, first);
    LabelsEmit(text[..|text| - |p|], s.mode);
    assert s.out + [] == s.out;
  }

  lemma NotHas(tags: Tags, text: string, rest: string, mode: Mode)
    requires tags.WellFormed() && forall i: nat :: i < |text| ==> !TagAt(tags.Tag(mode), text + rest, i)
    ensures !Has(tags.Tag(mode), text)
  {
    var i := Find(tags.Tag(mode), text);
    hide TagAt, Find;
    if i < |text| { TagInside(tags.Tag(mode), text, rest, i); }
  }

  lemma Overlaps(tags: Tags, a: seq<Labelled>, carry: string, kind: Mode, b: seq<Labelled>, v: string, mode: Mode,
                 more: seq<Labelled>)
    requires a + Label(carry, kind) == b + Label(v, mode) + more && |b| <= |a| < |b| + |v|
    requires tags.IsPartial(carry)
    ensures tags.IsPartial(Suffix(v, |b| + |v| - |a|))
  {
    LabelAt(carry, kind);
    LabelAt(v, mode);
    hide Label, Tags.IsPartial;
    var whole, j, end := a + Label(carry, kind), |a| - |b|, Suffix(v, |b| + |v| - |a|);
    assert whole == b + (Label(v, mode) + more);
    forall i | 0 <= i < |end| ensures end[i] == carry[i] {
      assert whole[|a| + i] == Label(carry, kind)[i];
      assert whole[|b| + (j + i)] == Label(v, mode)[j + i];
    }
    assert end == carry[..|end|];
    PartialPrefix(tags, end, carry);
  }

  lemma Overlap(tags: Tags, a: seq<Labelled>, carry: string, kind: Mode, b: seq<Labelled>, v: string, mode: Mode,
                more: seq<Labelled>)
    requires a + Label(carry, kind) == b + Label(v, mode) + more && b <= a
    requires tags.IsPartial(carry) && NoHold(tags, v)
    ensures b + Label(v, mode) <= a
  {
    if |a| < |b| + |v| {
      Overlaps(tags, a, carry, kind, b, v, mode, more);
      assert false;
    }
    LabelAt(v, mode);
    hide *;
    PrefixOfBoth(a, Label(carry, kind), b + Label(v, mode), more);
  }

  lemma PrefixOfBoth(a: seq<Labelled>, more: seq<Labelled>, b: seq<Labelled>, rest: seq<Labelled>)
    requires a + more == b + rest && |b| <= |a|
    ensures b <= a
  {
    assert (a + more)[..|b|] == a[..|b|] && (b + rest)[..|b|] == b;
  }

  /** A chunk that goes past a plain stretch of which no tail can be held back. */
  lemma FeedPast(tags: Tags, s: Stream, chunk: string, v: string)
    requires tags.WellFormed() && chunk != "" && v <= s.carry + chunk && NoHold(tags, v)
    requires forall i: nat :: i < |v| ==> !TagAt(tags.Tag(s.mode), s.carry + chunk, i)
    ensures Labels(s.out) + Label(v, s.mode) <= Labels(tags.Feed(s, chunk).out)
  {
    var text, s', z := s.carry + chunk, tags.Feed(s, chunk), (s.carry + chunk)[|v|..];
    assert text == v + z;
    hide *;
    ReadPlain(tags, v, z, s.mode);
    FedLabels(tags, s, chunk);
    SplitMeansRead(tags, text, s.mode);
    FeedGrows(tags, s, chunk);
    CarryPartial(tags, s'.carry);
    var more := tags.Read(z, s.mode).labels;
    PrependIs(Label(v, s.mode), tags.Read(z, s.mode));
    Regroup(Labels(s.out), Label(v, s.mode), more);
    Overlap(tags, Labels(s'.out), s'.carry, s'.kind, Labels(s.out), v, s.mode, more);
  }

  lemma CarryPartial(tags: Tags, p: string)
    requires tags.WellFormed()
    ensures p == "" ==> tags.IsPartial(p)
  {
  }

  lemma PrependIs(labels: seq<Labelled>, r: Reading)
    ensures Prepend(labels, r).labels == labels + r.labels && Prepend(labels, r).mode == r.mode
  {
  }

  lemma PlainStep(tags: Tags, s: Stream, chunk: string, x: string, v: string)
    requires tags.WellFormed() && chunk != "" && v <= s.carry + chunk + x && |s.carry + chunk| <= |v| && NoHold(tags, v)
    requires forall i: nat :: i < |v| ==> !TagAt(tags.Tag(s.mode), s.carry + chunk + x, i)
    ensures var text, s' := s.carry + chunk, tags.Feed(s, chunk);
            var p := tags.PartialThinkTagSuffix(text);
            && |p| <= |text| && s'.mode == s.mode && tags.Held(s')
            && var v' := v[|text| - |p|..];
               && v' <= s'.carry + x && NoHold(tags, v')
               && (forall i: nat :: i < |v'| ==> !TagAt(tags.Tag(s.mode), s'.carry + x, i))
               && Labels(s'.out) + Label(v', s.mode) == Labels(s.out) + Label(v, s.mode)
  {
    var text := s.carry + chunk;
    hide Labels, Label, Tags.Feed, Tags.PartialThinkTagSuffix, Tags.IsPartial, TagAt, Has, Tags.Held, Tags.Tag;
    NotHas(tags, text, x, s.mode);
    FeedPlain(tags, s, chunk);
    var p := tags.PartialThinkTagSuffix(text);
    var n := |text| - |p|;
    var a, v' := text[..n], v[n..];
    assert text + x == a + (p + x);
    assert v == v[..n] + v' && (text + x)[..n] == a && v[..n] == a;
    assert v' == (text + x)[n..|v|] && (p + x)[..|v'|] == (text + x)[n..|v|];
    forall i: nat | i < |v'| ensures !TagAt(tags.Tag(s.mode), p + x, i) {
      TagShift(tags.Tag(s.mode), a, p + x, i);
    }
    forall j: nat | 0 < j <= |v'| ensures !tags.IsPartial(Suffix(v', j)) { assert Suffix(v', j) == Suffix(v, j); }
    LabelEnd(a, v', s.mode);
    Regroup(Labels(s.out), Label(a, s.mode), Label(v', s.mode));
  }

  lemma HeldEnds(tags: Tags, s: Stream, v: string)
    requires tags.Held(s) && v <= s.carry && NoHold(tags, v)
    ensures v == ""
  {
    assert Suffix(v, |v|) == v;
    if v != "" {
      PartialPrefix(tags, v, s.carry);
      assert false;
    }
  }

  /** A stretch that meets no tag of the mode keeps the mode's label, however it is cut. */
  lemma {:induction false} StretchKept(tags: Tags, s: Stream, chunks: seq<string>, v: string)
    requires tags.WellFormed() && tags.Held(s) && v <= s.carry + Join(chunks) && NoHold(tags, v)
    requires forall i: nat :: i < |v| ==> !TagAt(tags.Tag(s.mode), s.carry + Join(chunks), i)
    ensures Labels(s.out) + Label(v, s.mode) <= tags.Outcome(tags.FeedAll(s, chunks)).labels
    decreases |chunks|
  {
    hide TagAt, Labels, Tags.Feed, Tags.Held, Tags.Outcome, NoHold, Tags.Tag;
    if chunks == [] {
      assert s.carry + Join(chunks) == s.carry;
      HeldEnds(tags, s, v);
      OutGrows(tags, s, chunks);
      assert Labels(s.out) + [] == Labels(s.out);
    } else {
      var chunk, rest := chunks[0], chunks[1..];
      var x, s' := Join(rest), tags.Feed(s, chunk);
      assert s.carry + Join(chunks) == s.carry + chunk + x;
      hide Label, Join;
      if chunk == "" {
        FeedNothing(tags, s);
        assert s.carry + chunk + x == s.carry + x;
        StretchKept(tags, s, rest, v);
      } else if |s.carry + chunk| <= |v| {
        PlainStep(tags, s, chunk, x, v);
        StretchKept(tags, s', rest, v[|s.carry + chunk| - |tags.PartialThinkTagSuffix(s.carry + chunk)|..]);
      } else {
        forall i: nat | i < |v| ensures !TagAt(tags.Tag(s.mode), s.carry + chunk, i) {
          TagWithin(tags.Tag(s.mode), s.carry + chunk, x, i);
        }
        assert v <= s.carry + chunk by { assert (s.carry + chunk + x)[..|v|] == (s.carry + chunk)[..|v|]; }
        FeedPast(tags, s, chunk, v);
        OutGrows(tags, s', rest);
      }
    }
  }

  lemma TagWithin(tag: string, text: string, rest: string, i: nat)
    requires !TagAt(tag, text + rest, i)
    ensures !TagAt(tag, text, i)
  {
    if i + |tag| <= |text| { TagInside(tag, text, rest, i); }
  }

  // ---------------------------------------------------------------- held text taken for a tag

  /** Feeding a chunk that completes a tag with held-back text is feeding what follows the
      tag in the other mode. */
  lemma FeedTag(tags: Tags, s: Stream, chunk: string, tail: string)
    requires tags.WellFormed() && chunk != "" && s.carry + chunk == tags.Tag(s.mode) + tail
    ensures tags.Feed(s, chunk) == tags.Feed(Stream("", s.kind, Flip(s.mode), s.out), tail)
  {
    var tag, text, after := tags.Tag(s.mode), s.carry + chunk, Stream("", s.kind, Flip(s.mode), s.out);
    TagNotEmpty(tags, s.mode);
    assert TagAt(tag, text, 0) by { assert text[0..|tag|] == tag; }
    assert Find(tag, text) == 0 && After(tag, text) == tail && Before(tag, text) == "";
    SplitStep(tags, text, s.mode);
    hide Find, After, Before, Tags.Split, Tags.Feed, TagAt, Tags.PartialThinkTagSuffix, Tags.Trim, Tags.Tag;
    var (events, last) := tags.Split(tail, Flip(s.mode));
    assert Emit("", s.mode) + events == events;
    FeedCases(tags, s, chunk);
    if tail == "" {
      assert tags.Split("", Flip(s.mode)) == ([], Flip(s.mode)) by { SplitNothing(tags, Flip(s.mode)); }
      FeedNothing(tags, after);
    } else {
      assert "" + tail == tail;
      FeedCases(tags, after, tail);
    }
  }

  lemma SplitNothing(tags: Tags, mode: Mode)
    requires tags.WellFormed()
    ensures tags.Split("", mode) == ([], mode)
  {
  }

  lemma LabelsApart(out: seq<Labelled>, b: seq<Labelled>, v: string, kind: Mode, due: seq<Labelled>, r: string,
                    mode: Mode, more: seq<Labelled>)
    requires b + Label(v, kind) <= out && |due| < |v| && r != "" && kind != mode
    ensures out != b + due + (Label(r, mode) + more)
  {
    LabelAt(v, kind);
    LabelAt(r, mode);
    hide *;
    var i := |b| + |due|;
    assert out[i] == (b + Label(v, kind))[i] == (v[|due|], kind);
    assert (b + due + (Label(r, mode) + more))[i] == (r[0], mode);
  }

  /** What a stream yields after a tag completed by held-back text is too short, or has the
      other mode's label where the rest of the tag should stand. */
  lemma AfterCompleted(tags: Tags, s: Stream, chunks: seq<string>, due: seq<Labelled>, r: string, mode: Mode)
    requires tags.WellFormed() && s.carry == "" && s.mode == Flip(mode)
    requires r != "" && |due| + |r| == |tags.Tag(mode)|
    ensures tags.Outcome(tags.FeedAll(s, chunks)).labels !=
            Labels(s.out) + due + (Label(r, mode) + tags.Read(Join(chunks), mode).labels)
  {
    var x, b, tag := Join(chunks), Labels(s.out), tags.Tag(mode);
    assert "" + x == x && Flip(s.mode) == mode;
    hide *;
    var out := tags.Outcome(tags.FeedAll(s, chunks)).labels;
    LabelAt(r, mode);
    NothingHeld(tags, s);
    OutOfStep(tags, x, mode);
    match Reach(tags, x, mode) {
      case None =>
        LengthBound(tags, s, chunks);
        PendingLabels(tags, s, x);
      case Some(n) =>
        ReachStretches(tags, x, mode);
        StretchNoHold(tags, x, mode, n);
        StretchParts(tags, x, mode, n);
        StretchKept(tags, s, chunks, x[..n]);
        FlipDiffers(mode);
        LabelsApart(out, b, x[..n], s.mode, due, r, mode, tags.Read(x, mode).labels);
    }
  }

  lemma FlipDiffers(mode: Mode)
    ensures Flip(mode) != mode && Flip(Flip(mode)) == mode
  {
  }

  lemma NothingHeld(tags: Tags, s: Stream)
    requires s.carry == ""
    ensures tags.Held(s) && Carries(tags, s)
  {
  }

  lemma PendingLabels(tags: Tags, s: Stream, x: string)
    requires tags.WellFormed() && s.carry == ""
    ensures |tags.Pending(s, x).labels| == |Labels(s.out)| + |tags.Read(x, s.mode).labels|
  {
    assert "" + x == x;
  }

  lemma StretchParts(tags: Tags, text: string, mode: Mode, n: nat)
    requires Stretch(tags.Tag(mode), tags.Tag(Flip(mode)), text, n)
    ensures |tags.Tag(mode)| <= n <= |text| && text[..n] <= text
    ensures forall i: nat :: i < n ==> !TagAt(tags.Tag(Flip(mode)), text, i)
  {
    hide TagAt;
  }

  /** Once held-back text has been taken for the beginning of a tag, nothing makes up for it. */
  lemma CompletedDiffers(tags: Tags, s: Stream, chunk: string, chunks: seq<string>, due: seq<Labelled>)
    requires tags.WellFormed() && s.carry != "" && tags.IsPartial(s.carry) && chunk != "" && |due| == |s.carry|
    requires tags.Tag(s.mode) <= s.carry + chunk
    ensures tags.Outcome(tags.FeedAll(tags.Feed(s, chunk), chunks)).labels !=
            Labels(s.out) + due + tags.Read(chunk + Join(chunks), s.mode).labels
  {
    var mode, after := s.mode, Stream("", s.kind, Flip(s.mode), s.out);
    hide *;
    var r, tail := Completes(tags, s.carry, chunk, mode);
    assert s.carry + chunk == tags.Tag(mode) + tail;
    FeedTag(tags, s, chunk, tail);
    var later := [tail] + chunks;
    FedFirst(tags, after, tail, chunks);
    assert chunk + Join(chunks) == r + tail + Join(chunks);
    PrependIs(Label(r, mode), tags.Read(tail + Join(chunks), mode));
    AfterCompleted(tags, after, later, due, r, mode);
  }

  lemma FedFirst(tags: Tags, s: Stream, chunk: string, chunks: seq<string>)
    requires tags.WellFormed()
    ensures tags.FeedAll(s, [chunk] + chunks) == tags.FeedAll(tags.Feed(s, chunk), chunks)
    ensures Join([chunk] + chunks) == chunk + Join(chunks)
  {
    hide Tags.Feed;
    assert ([chunk] + chunks)[1..] == chunks;
  }

  // ---------------------------------------------------------------- the condition

  /** The labels due to the text held back after a chunk, if that ended in a tag: those of
      the side of the tag the text came from. */
  function DueAfter(tags: Tags, s: Stream, chunk: string): Option<seq<Labelled>>
    requires tags.WellFormed()
  {
    var after := tags.Feed(s, chunk);
    if after.carry != "" && tags.EndsInTag(s.carry + chunk, s.mode) then Some(Label(after.carry, after.kind)) else None
  }

  /** All that was held back still is, and nothing more has been yielded. */
  predicate StillHolds(s: Stream, after: Stream) {
    after.out == s.out && s.carry <= after.carry
  }

  /** Text held back across a tag does no harm: it is never taken for the beginning of a
      tag, and whenever it is released it gets the labels due to it. Each further chunk
      either leaves all of it held back, labels being due to what is held on to besides, or
      releases all of it. */
  predicate Settles(tags: Tags, s: Stream, due: Option<seq<Labelled>>, chunks: seq<string>)
    requires tags.WellFormed()
    decreases |chunks|
  {
    if chunks == [] then due.None? || due.value == Label(s.carry, s.kind)
    else if chunks[0] == "" then Settles(tags, s, due, chunks[1..])
    else
      var after := tags.Feed(s, chunks[0]);
      if due.None? then Settles(tags, after, DueAfter(tags, s, chunks[0]), chunks[1..])
      else if tags.Tag(s.mode) <= s.carry + chunks[0] then false
      else if StillHolds(s, after) then
        Settles(tags, after, Some(due.value + Label(after.carry[|s.carry|..], s.mode)), chunks[1..])
      else
        due.value == Label(s.carry, s.mode) && Settles(tags, after, DueAfter(tags, s, chunks[0]), chunks[1..])
  }

  // ---------------------------------------------------------------- one chunk

  /** How the whole text is read, from what has been yielded, what is due to the held-back
      text and what is to come. */
  ghost function Truth(tags: Tags, s: Stream, due: Option<seq<Labelled>>, x: string): Reading
    requires tags.WellFormed()
  {
    match due
    case None => tags.Pending(s, x)
    case Some(labels) => Prepend(Labels(s.out) + labels, tags.Read(x, s.mode))
  }

  ghost predicate Fits(tags: Tags, s: Stream, due: Option<seq<Labelled>>) {
    match due
    case None => tags.Held(s)
    case Some(labels) => s.carry != "" && tags.IsPartial(s.carry) && |labels| == |s.carry|
  }

  /** Feeding a chunk with nothing due. */
  lemma TruthFed(tags: Tags, s: Stream, chunk: string, x: string)
    requires tags.WellFormed() && chunk != ""
    ensures var after, due := tags.Feed(s, chunk), DueAfter(tags, s, chunk);
            Fits(tags, after, due) && Truth(tags, after, due, x) == tags.Pending(s, chunk + x)
  {
    hide Tags.Feed, Tags.Split, Tags.PartialThinkTagSuffix, Tags.EndsInTag, Labels, Label, Tags.Read, Tags.IsPartial,
         Tags.Trim;
    var text, after := s.carry + chunk, tags.Feed(s, chunk);
    if !tags.EndsInTag(text, s.mode) {
      TextEndFollows(tags, s, chunk, x);
    } else {
      SplitEndingInTag(tags, text, x, s.mode);
      FedLabels(tags, s, chunk);
      assert s.carry + (chunk + x) == text + x;
      LabelAt(after.carry, after.kind);
      if after.carry == "" {
        assert "" + x == x;
        NoLabel(after.kind);
        assert Labels(after.out) + [] == Labels(after.out);
      }
    }
  }

  /** A chunk after held-back text that it does not complete to a tag. */
  lemma HeldFed(tags: Tags, s: Stream, chunk: string)
    requires tags.WellFormed() && s.carry != "" && tags.IsPartial(s.carry) && chunk != ""
    requires !(tags.Tag(s.mode) <= s.carry + chunk)
    ensures var after := tags.Feed(s, chunk);
            && Labels(after.out) + Label(after.carry, after.kind) ==
               Labels(s.out) + Label(s.carry, s.mode) + tags.Read(chunk, s.mode).labels
            && Labels(s.out) <= Labels(after.out) && tags.IsPartial(after.carry)
  {
    hide *;
    HeldPlain(tags, s.carry, chunk, s.mode);
    FedLabels(tags, s, chunk);
    SplitMeansRead(tags, s.carry + chunk, s.mode);
    FeedGrows(tags, s, chunk);
    CarryPartial(tags, tags.Feed(s, chunk).carry);
    PrependIs(Label(s.carry, s.mode), tags.Read(chunk, s.mode));
    Regroup(Labels(s.out), Label(s.carry, s.mode), tags.Read(chunk, s.mode).labels);
  }

  lemma PartialTail(tags: Tags, p: string, n: nat)
    requires tags.WellFormed() && tags.IsPartial(p) && 0 < n < |p|
    ensures !tags.IsPartial(Suffix(p, n))
  {
    assert Suffix(p, n)[0] == p[|p| - n] != '<';
    BracketsInPartial(tags, Suffix(p, n), 0);
  }

  lemma Longer(a: seq<Labelled>, b: seq<Labelled>)
    requires a <= b && b != a
    ensures |a| < |b|
  {
    assert b[..|b|] == b;
  }

  /** Held-back text is released whole or not at all. */
  lemma ReleasedWhole(tags: Tags, s: Stream, chunk: string)
    requires tags.WellFormed() && s.carry != "" && tags.IsPartial(s.carry) && chunk != ""
    requires !(tags.Tag(s.mode) <= s.carry + chunk)
    requires Labels(tags.Feed(s, chunk).out) != Labels(s.out)
    ensures Labels(s.out) + Label(s.carry, s.mode) <= Labels(tags.Feed(s, chunk).out)
  {
    hide *;
    var after, more := tags.Feed(s, chunk), tags.Read(chunk, s.mode).labels;
    HeldFed(tags, s, chunk);
    LabelAt(s.carry, s.mode);
    var a, b, n := Labels(after.out), Labels(s.out), |s.carry|;
    Longer(b, a);
    if |a| < |b| + n {
      Overlaps(tags, a, after.carry, after.kind, b, s.carry, s.mode, more);
      PartialTail(tags, s.carry, |b| + n - |a|);
      assert false;
    }
    PrefixOfBoth(a, Label(after.carry, after.kind), b + Label(s.carry, s.mode), more);
  }

  ghost predicate HaveText(events: seq<Event>) {
    forall i :: 0 <= i < |events| ==> events[i].text != ""
  }

  lemma {:induction false} EventsHaveText(tags: Tags, text: string, mode: Mode)
    requires tags.WellFormed()
    ensures HaveText(tags.Split(text, mode).0)
    decreases |text|
  {
    hide Find, TagAt;
    if text != "" && Has(tags.Tag(mode), text) { EventsHaveText(tags, After(tags.Tag(mode), text), Flip(mode)); }
  }

  lemma TrimHasText(events: seq<Event>, held: nat)
    requires events != [] && HaveText(events)
    ensures HaveText(Tags.Trim(events, held))
  {
  }

  lemma FeedAdds(tags: Tags, s: Stream, chunk: string) returns (added: seq<Event>)
    requires tags.WellFormed() && chunk != ""
    ensures tags.Feed(s, chunk).out == s.out + added
    ensures HaveText(added)
  {
    hide Tags.Split, Tags.PartialThinkTagSuffix, Tags.Feed, Tags.Trim, Tags.WellFormed, HaveText;
    EventsHaveText(tags, s.carry + chunk, s.mode);
    FeedCases(tags, s, chunk);
    var events := tags.Split(s.carry + chunk, s.mode).0;
    if events == [] {
      added := events;
      assert s.out + [] == s.out;
    } else {
      var p := tags.PartialThinkTagSuffix(events[|events| - 1].text);
      TrimHasText(events, |p|);
      added := if p == "" then events else Tags.Trim(events, |p|);
    }
  }

  lemma TextHasLabels(out: seq<Event>, events: seq<Event>)
    requires HaveText(events)
    ensures events == [] || |Labels(out + events)| > |Labels(out)|
  {
    LabelsJoin(out, events);
    if events != [] { LabelAt(events[0].text, events[0].kind); }
  }

  /** A chunk that adds no label adds no event. */
  lemma SameLabelsSameEvents(tags: Tags, s: Stream, chunk: string)
    requires tags.WellFormed() && chunk != "" && Labels(tags.Feed(s, chunk).out) == Labels(s.out)
    ensures tags.Feed(s, chunk).out == s.out
  {
    hide *;
    var added := FeedAdds(tags, s, chunk);
    TextHasLabels(s.out, added);
    assert s.out + [] == s.out;
  }

  /** A chunk that yields nothing keeps all the held-back text and adds plain text to it. */
  lemma KeptWhole(tags: Tags, s: Stream, chunk: string)
    requires tags.WellFormed() && s.carry != "" && tags.IsPartial(s.carry) && chunk != ""
    requires !(tags.Tag(s.mode) <= s.carry + chunk)
    requires Labels(tags.Feed(s, chunk).out) == Labels(s.out)
    ensures var after := tags.Feed(s, chunk);
            && after.out == s.out && s.carry <= after.carry && after.kind == s.mode
            && tags.Read(chunk, s.mode).labels == Label(after.carry[|s.carry|..], s.mode)
  {
    hide *;
    var after, more := tags.Feed(s, chunk), tags.Read(chunk, s.mode).labels;
    HeldFed(tags, s, chunk);
    SameLabelsSameEvents(tags, s, chunk);
    var p, q := s.carry, after.carry;
    Regroup(Labels(s.out), Label(p, s.mode), more);
    SameRest(Labels(s.out), Label(q, after.kind), Label(p, s.mode) + more);
    LabelsInclude(q, after.kind, p, s.mode, more);
  }

  lemma SameRest(a: seq<Labelled>, b: seq<Labelled>, c: seq<Labelled>)
    requires a + b == a + c
    ensures b == c
  {
    assert (a + b)[|a|..] == b && (a + c)[|a|..] == c;
  }

  lemma LabelsInclude(q: string, kind: Mode, p: string, mode: Mode, more: seq<Labelled>)
    requires p != "" && Label(q, kind) == Label(p, mode) + more
    ensures p <= q && kind == mode && more == Label(q[|p|..], mode)
  {
    LabelAt(q, kind);
    LabelAt(p, mode);
    hide Label;
    assert Label(q, kind)[0] == Label(p, mode)[0];
    forall i | 0 <= i < |p| ensures q[i] == p[i] { assert Label(q, kind)[i] == Label(p, mode)[i]; }
    assert q == p + q[|p|..];
    LabelEnd(p, q[|p|..], mode);
    SameRest(Label(p, mode), Label(q[|p|..], mode), more);
  }

  lemma FirstHasLabels(out: seq<Event>, text: string, kind: Mode, rest: seq<Event>)
    requires text != ""
    ensures Labels(out + (Emit(text, kind) + rest)) != Labels(out)
  {
    hide Labels, Emit, Label;
    LabelsJoin(out, Emit(text, kind) + rest);
    LabelsJoin(Emit(text, kind), rest);
    LabelsEmit(text, kind);
    LabelAt(text, kind);
  }

  /** A chunk with a tag and text after the tag yields the text before the tag. */
  lemma YieldsBefore(tags: Tags, s: Stream, chunk: string)
    requires tags.WellFormed() && chunk != "" && Has(tags.Tag(s.mode), s.carry + chunk)
    requires !tags.EndsInTag(s.carry + chunk, s.mode) && Before(tags.Tag(s.mode), s.carry + chunk) != ""
    ensures Labels(tags.Feed(s, chunk).out) != Labels(s.out)
  {
    var text, tag := s.carry + chunk, tags.Tag(s.mode);
    var tail := After(tag, text);
    assert !tags.EndsInTag(tail, Flip(s.mode));
    hide Labels, Tags.Split, Tags.PartialThinkTagSuffix, Tags.Feed, Tags.Trim, Tags.WellFormed, Find, Before, After,
         Emit, Tags.EndsInTag, Tags.Tag;
    SplitStep(tags, text, s.mode);
    SplitEndingInText(tags, tail, "", Flip(s.mode));
    FeedCases(tags, s, chunk);
    var (later, mode) := tags.Split(tail, Flip(s.mode));
    var first := Emit(Before(tag, text), s.mode);
    var p := tags.PartialThinkTagSuffix(later[|later| - 1].text);
    TrimLater(first, later, |p|);
    FirstHasLabels(s.out, Before(tag, text), s.mode, later);
    FirstHasLabels(s.out, Before(tag, text), s.mode, Tags.Trim(later, |p|));
  }

  lemma FoundLater(tag: string, text: string)
    requires Has(tag, text) && !(tag <= text)
    ensures Before(tag, text) != ""
  {
    assert TagAt(tag, text, Find(tag, text));
    if Find(tag, text) == 0 {
      StartsWith(tag, text);
      assert false;
    }
  }

  lemma NoLabelsNoText(text: string, mode: Mode, before: seq<Labelled>)
    requires before + Label(text, mode) == before
    ensures text == ""
  {
    LabelAt(text, mode);
  }

  lemma PartialBrackets(tags: Tags, p: string, i: nat)
    requires tags.WellFormed() && tags.IsPartial(p) && 0 < i < |p|
    ensures p[i] != '<'
  {
  }

  lemma TagInLonger(tag: string, text: string, x: string)
    requires |tag| <= |text| && !(tag <= text)
    ensures !(tag <= text + x)
  {
    assert (text + x)[..|tag|] == text[..|tag|];
  }

  lemma EndsInTagLong(tags: Tags, text: string, mode: Mode)
    requires tags.WellFormed() && text != "" && tags.EndsInTag(text, mode)
    ensures |text| >= |tags.Tag(mode)|
  {
    hide TagAt;
  }

  /** What is held on to besides, when a chunk ends in text: the whole chunk. */
  lemma KeptText(tags: Tags, s: Stream, chunk: string)
    requires tags.WellFormed() && s.carry != "" && tags.IsPartial(s.carry) && chunk != ""
    requires !(tags.Tag(s.mode) <= s.carry + chunk) && !tags.EndsInTag(s.carry + chunk, s.mode)
    requires Labels(tags.Feed(s, chunk).out) == Labels(s.out)
    ensures var after := tags.Feed(s, chunk); after.carry == s.carry + chunk && after.mode == s.mode
  {
    var text, tag := s.carry + chunk, tags.Tag(s.mode);
    hide *;
    if Has(tag, text) {
      FoundLater(tag, text);
      YieldsBefore(tags, s, chunk);
      assert false;
    } else {
      FeedPlain(tags, s, chunk);
      var p := tags.PartialThinkTagSuffix(text);
      NoLabelsNoText(text[..|text| - |p|], s.mode, Labels(s.out));
      SuffixAll(text, p);
    }
  }

  lemma SuffixAll(text: string, p: string)
    requires |p| <= |text| && p == Suffix(text, |p|) && text[..|text| - |p|] == ""
    ensures p == text
  {
  }

  /** When a chunk leaves the held-back text held back, what is held on to besides is
      plain text, whatever follows. */
  lemma KeptRead(tags: Tags, s: Stream, chunk: string, x: string)
    requires tags.WellFormed() && s.carry != "" && tags.IsPartial(s.carry) && chunk != ""
    requires !(tags.Tag(s.mode) <= s.carry + chunk)
    requires Labels(tags.Feed(s, chunk).out) == Labels(s.out)
    ensures var after := tags.Feed(s, chunk);
            && s.carry <= after.carry && tags.IsPartial(after.carry)
            && tags.Read(chunk + x, s.mode) ==
               Prepend(Label(after.carry[|s.carry|..], s.mode), tags.Read(x, after.mode))
  {
    hide *;
    var after, text := tags.Feed(s, chunk), s.carry + chunk;
    HeldFed(tags, s, chunk);
    KeptWhole(tags, s, chunk);
    var g := after.carry[|s.carry|..];
    if tags.EndsInTag(text, s.mode) {
      EndsInTagLong(tags, text, s.mode);
      TagInLonger(tags.Tag(s.mode), text, x);
      assert text + x == s.carry + (chunk + x);
      SplitEndingInTag(tags, text, x, s.mode);
      SplitMeansRead(tags, text, s.mode);
      FedLabels(tags, s, chunk);
      HeldPlain(tags, s.carry, chunk, s.mode);
      HeldPlain(tags, s.carry, chunk + x, s.mode);
      PrependIs(Label(s.carry, s.mode), tags.Read(chunk, s.mode));
      SameAfter(Label(s.carry, s.mode), tags.Read(chunk + x, s.mode), Label(g, s.mode), tags.Read(x, after.mode));
    } else {
      KeptText(tags, s, chunk);
      assert g == chunk;
      forall i | 0 <= i < |g| ensures g[i] != '<' { PartialBrackets(tags, after.carry, |s.carry| + i); }
      NoBracketPlain(tags, g, x, s.mode);
    }
  }

  lemma SameAfter(p: seq<Labelled>, r: Reading, g: seq<Labelled>, rest: Reading)
    requires Prepend(p, r) == Prepend(p + g, rest)
    ensures r == Prepend(g, rest)
  {
    assert p + g + rest.labels == p + (g + rest.labels);
    SameRest(p, r.labels, g + rest.labels);
  }

  // ---------------------------------------------------------------- main result

  lemma KeptTruth(tags: Tags, s: Stream, chunk: string, x: string, due: seq<Labelled>)
    requires tags.WellFormed() && Fits(tags, s, Some(due)) && chunk != ""
    requires !(tags.Tag(s.mode) <= s.carry + chunk) && StillHolds(s, tags.Feed(s, chunk))
    ensures var after := tags.Feed(s, chunk);
            var further := Some(due + Label(after.carry[|s.carry|..], s.mode));
            Fits(tags, after, further) && Truth(tags, after, further, x) == Truth(tags, s, Some(due), chunk + x)
  {
    var after := tags.Feed(s, chunk);
    var g := after.carry[|s.carry|..];
    hide Tags.Feed, Tags.Read, Labels, Label, Tags.IsPartial, Tags.WellFormed, Tags.Tag;
    KeptRead(tags, s, chunk, x);
    LabelAt(g, s.mode);
    Regroup(Labels(s.out), due, Label(g, s.mode));
    Regroup(Labels(s.out) + due, Label(g, s.mode), tags.Read(x, after.mode).labels);
  }

  lemma BeginningHeld(tags: Tags, text: string, mode: Mode)
    requires tags.WellFormed() && text < tags.Tag(mode)
    ensures tags.PartialThinkTagSuffix(text) == text
  {
    assert tags.IsPartial(text);
    hide Tags.PartialThinkTagSuffix, Tags.IsPartial, Tags.WellFormed;
    HeldIsPartial(tags, text);
    assert Suffix(text, |text|) == text;
    if |tags.PartialThinkTagSuffix(text)| < |text| {
      NoLongerPartial(tags, text, |text|);
      assert false;
    }
  }

  lemma TooShort(tag: string, text: string)
    requires |text| < |tag|
    ensures !Has(tag, text)
  {
  }

  /** A chunk that leaves the held-back text no more than the beginning of a tag keeps it. */
  lemma BeginningKept(tags: Tags, s: Stream, chunk: string)
    requires tags.WellFormed() && chunk != "" && s.carry + chunk < tags.Tag(s.mode)
    ensures tags.Feed(s, chunk).out == s.out && s.carry <= tags.Feed(s, chunk).carry
  {
    hide *;
    var text := s.carry + chunk;
    TooShort(tags.Tag(s.mode), text);
    BeginningHeld(tags, text, s.mode);
    FeedPlain(tags, s, chunk);
  }

  lemma NotOnlyBeginning(tags: Tags, s: Stream, chunk: string, x: string)
    requires tags.WellFormed() && chunk != "" && !(tags.Tag(s.mode) <= s.carry + chunk)
    requires !StillHolds(s, tags.Feed(s, chunk))
    ensures !(tags.Tag(s.mode) <= s.carry + (chunk + x))
  {
    hide Tags.Feed, Tags.Tag, Tags.WellFormed;
    var text, tag := s.carry + chunk, tags.Tag(s.mode);
    assert s.carry + (chunk + x) == text + x;
    if tag <= text + x {
      TextOfBoth(text, x);
      Comparable(tag, text, text + x);
      BeginningKept(tags, s, chunk);
      assert false;
    }
  }

  /** Held-back text that a chunk releases is plain, whatever follows. */
  lemma ReleasedPlain(tags: Tags, s: Stream, chunk: string, x: string)
    requires tags.WellFormed() && s.carry != "" && tags.IsPartial(s.carry) && chunk != ""
    requires !(tags.Tag(s.mode) <= s.carry + chunk) && !StillHolds(s, tags.Feed(s, chunk))
    ensures tags.Read(s.carry + (chunk + x), s.mode) ==
            Prepend(Label(s.carry, s.mode), tags.Read(chunk + x, s.mode))
    ensures Labels(s.out) + Label(s.carry, s.mode) <= Labels(tags.Feed(s, chunk).out)
  {
    hide Tags.Feed, Tags.Tag, Tags.WellFormed, Tags.Read, Labels, Label, Tags.IsPartial, Prepend;
    NotOnlyBeginning(tags, s, chunk, x);
    HeldPlain(tags, s.carry, chunk + x, s.mode);
    if Labels(tags.Feed(s, chunk).out) == Labels(s.out) {
      KeptWhole(tags, s, chunk);
      assert false;
    } else {
      ReleasedWhole(tags, s, chunk);
    }
  }

  lemma TextOfBoth(text: string, x: string)
    ensures text <= text + x
  {
  }

  lemma ReleasedTruth(tags: Tags, s: Stream, chunk: string, x: string)
    requires tags.WellFormed() && Fits(tags, s, Some(Label(s.carry, s.mode))) && chunk != ""
    requires !(tags.Tag(s.mode) <= s.carry + chunk) && !StillHolds(s, tags.Feed(s, chunk))
    ensures tags.Pending(s, chunk + x) == Truth(tags, s, Some(Label(s.carry, s.mode)), chunk + x)
  {
    hide Tags.Feed, Tags.Read, Labels, Label, Tags.IsPartial, Tags.WellFormed, Tags.Tag, StillHolds;
    ReleasedPlain(tags, s, chunk, x);
    Regroup(Labels(s.out), Label(s.carry, s.mode), tags.Read(chunk + x, s.mode).labels);
  }

  lemma EndSettles(tags: Tags, s: Stream, due: Option<seq<Labelled>>)
    requires tags.WellFormed() && Fits(tags, s, due)
    ensures Settles(tags, s, due, []) <==> tags.Outcome(s) == Truth(tags, s, due, "")
  {
    hide Labels, Label, Tags.Read, Tags.IsPartial, Tags.Outcome;
    OutcomeLabels(tags, s);
    match due {
      case None =>
        FeedNothing(tags, s);
        LastPiece(tags, s, "");
      case Some(labels) =>
        ReadNothing(tags, s.mode);
        assert labels + [] == labels && Labels(s.out) + labels + [] == Labels(s.out) + labels;
        if Labels(s.out) + Label(s.carry, s.kind) == Labels(s.out) + labels {
          SameRest(Labels(s.out), Label(s.carry, s.kind), labels);
        }
    }
  }

  /** Released with other labels than those due, the text stays mislabelled. */
  lemma ReleasedDiffers(tags: Tags, s: Stream, chunk: string, chunks: seq<string>, due: seq<Labelled>)
    requires tags.WellFormed() && Fits(tags, s, Some(due)) && chunk != "" && due != Label(s.carry, s.mode)
    requires !(tags.Tag(s.mode) <= s.carry + chunk) && !StillHolds(s, tags.Feed(s, chunk))
    ensures tags.Outcome(tags.FeedAll(tags.Feed(s, chunk), chunks)) != Truth(tags, s, Some(due), chunk + Join(chunks))
  {
    hide Tags.Feed, Tags.FeedAll, Tags.Read, Labels, Label, Tags.IsPartial, Tags.WellFormed, Tags.Tag, StillHolds,
         Tags.Outcome, Join;
    var after := tags.Feed(s, chunk);
    ReleasedPlain(tags, s, chunk, Join(chunks));
    OutGrows(tags, after, chunks);
    LabelAt(s.carry, s.mode);
    var out := tags.Outcome(tags.FeedAll(after, chunks)).labels;
    var more := tags.Read(chunk + Join(chunks), s.mode).labels;
    OtherLabels(out, Labels(after.out), Labels(s.out), Label(s.carry, s.mode), due, more);
  }

  lemma OtherLabels(out: seq<Labelled>, a: seq<Labelled>, b: seq<Labelled>, p: seq<Labelled>, due: seq<Labelled>,
                    more: seq<Labelled>)
    requires a <= out && b + p <= a && |p| == |due| && p != due
    ensures out != b + due + more
  {
    assert out[..|a|][..|b + p|] == out[..|b + p|] == b + p;
    assert (b + due + more)[..|b + p|] == b + due;
    assert (b + p)[|b|..] == p && (b + due)[|b|..] == due;
  }

  lemma CompletedTruth(tags: Tags, s: Stream, chunk: string, chunks: seq<string>, due: seq<Labelled>)
    requires tags.WellFormed() && Fits(tags, s, Some(due)) && chunk != "" && tags.Tag(s.mode) <= s.carry + chunk
    ensures tags.Outcome(tags.FeedAll(tags.Feed(s, chunk), chunks)) != Truth(tags, s, Some(due), chunk + Join(chunks))
  {
    hide Tags.Feed, Tags.FeedAll, Tags.Read, Labels, Tags.IsPartial, Tags.WellFormed, Tags.Tag, Tags.Outcome, Join;
    CompletedDiffers(tags, s, chunk, chunks, due);
  }

  /** From any moment on, what is yielded is what the whole text says exactly if the
      held-back text settles. */
  lemma {:induction false} SettlesExactly(tags: Tags, s: Stream, due: Option<seq<Labelled>>, chunks: seq<string>)
    requires tags.WellFormed() && Fits(tags, s, due)
    ensures Settles(tags, s, due, chunks) <==>
            tags.Outcome(tags.FeedAll(s, chunks)) == Truth(tags, s, due, Join(chunks))
    decreases |chunks|
  {
    hide Tags.Feed, Tags.Outcome, Truth, Fits, Tags.Tag, DueAfter, Label, Tags.WellFormed;
    if chunks == [] {
      EndSettles(tags, s, due);
    } else {
      var chunk, rest := chunks[0], chunks[1..];
      var after, x := tags.Feed(s, chunk), Join(rest);
      assert Join(chunks) == chunk + x;
      if chunk == "" {
        FeedNothing(tags, s);
        assert chunk + x == x;
        SettlesExactly(tags, s, due, rest);
      } else if due.None? {
        TruthFed(tags, s, chunk, x);
        TruthOfNothing(tags, s, chunk + x);
        SettlesExactly(tags, after, DueAfter(tags, s, chunk), rest);
      } else if tags.Tag(s.mode) <= s.carry + chunk {
        CompletedTruth(tags, s, chunk, rest, due.value);
      } else if StillHolds(s, after) {
        KeptTruth(tags, s, chunk, x, due.value);
        SettlesExactly(tags, after, Some(due.value + Label(after.carry[|s.carry|..], s.mode)), rest);
      } else if due.value == Label(s.carry, s.mode) {
        ReleasedTruth(tags, s, chunk, x);
        TruthFed(tags, s, chunk, x);
        SettlesExactly(tags, after, DueAfter(tags, s, chunk), rest);
      } else {
        ReleasedDiffers(tags, s, chunk, rest, due.value);
      }
    }
  }

  lemma TruthOfNothing(tags: Tags, s: Stream, x: string)
    requires tags.WellFormed()
    ensures Truth(tags, s, None, x) == tags.Pending(s, x)
  {
  }

  /** A given stream is labelled, and ends in the mode, as one call on its whole text would
      have it, exactly when text held back across a tag always settles. */
  lemma AgreesExactlyWhenSettled(tags: Tags, chunks: seq<string>)
    requires tags.WellFormed()
    ensures tags.Agrees(chunks) <==> Settles(tags, START, None, chunks)
  {
    hide Settles, Tags.FeedAll, Tags.Outcome, Tags.Pending, Tags.Read, Join, Tags.WellFormed;
    StartReads(tags, Join(chunks));
    SettlesExactly(tags, START, None, chunks);
  }

  // ---------------------------------------------------------------- a stream that gets away with it

  /** A bracket held back across a complete tag. */
  lemma BracketHeldAcross(tags: Tags, s: Stream, chunk: string)
    requires tags.WellFormed() && chunk != "" && s.carry + chunk == "<" + tags.Tag(s.mode)
    ensures tags.Feed(s, chunk) == Stream("<", s.mode, Flip(s.mode), s.out)
    ensures DueAfter(tags, s, chunk) == Some([('<', s.mode)])
  {
    hide Tags.Feed, Tags.Split, Tags.EndsInTag, Tags.PartialThinkTagSuffix, Tags.WellFormed, Tags.Tag;
    BracketThenTag(tags, s.mode);
    BracketIsHeld(tags);
    FeedCases(tags, s, chunk);
    assert Tags.Trim([Event(s.mode, "<")], 1) == [];
    assert s.out + [] == s.out;
    assert Label("<", s.mode) == [('<', s.mode)];
  }

  lemma TwoBrackets(tags: Tags, mode: Mode)
    requires tags.WellFormed()
    ensures !Has(tags.Tag(mode), "<<") && !(tags.Tag(mode) <= "<<") && !tags.EndsInTag("<<", mode)
  {
    var tag := tags.Tag(mode);
    assert |tag| >= 2 by { assert !(tag <= tags.Tag(Flip(mode))); }
    assert "<<"[0..2] == "<<";
  }

  lemma TwoBracketsHeld(tags: Tags)
    requires tags.WellFormed()
    ensures tags.PartialThinkTagSuffix("<<") != "<<"
  {
    hide Tags.PartialThinkTagSuffix;
    HeldIsPartial(tags, "<<");
    BracketsInPartial(tags, "<<", 1);
  }

  lemma BracketReleased(tags: Tags, s: Stream)
    requires tags.WellFormed() && s.carry == "<"
    ensures tags.Feed(s, "<").out != s.out && DueAfter(tags, s, "<").None? && !(tags.Tag(s.mode) <= s.carry + "<")
  {
    var text := "<<";
    assert s.carry + "<" == text;
    hide Tags.Feed, Has, Tags.PartialThinkTagSuffix, Tags.WellFormed, Tags.IsPartial, Labels, Label, Tags.Tag,
         Tags.EndsInTag;
    TwoBrackets(tags, s.mode);
    TwoBracketsHeld(tags);
    FeedPlain(tags, s, "<");
    LabelAt(text[..|text| - |tags.PartialThinkTagSuffix(text)|], s.mode);
  }

  lemma SecondBracket(tags: Tags, mode: Mode)
    requires tags.WellFormed()
    ensures !(tags.Tag(mode) <= "<" + tags.Tag(mode))
  {
    var tag := tags.Tag(mode);
    assert |tag| >= 2 by { assert !(tag <= tags.Tag(Flip(mode))); }
    assert ("<" + tag)[..|tag|][1] == '<';
  }

  const HELD := Stream("<", Answer, Thinking, [])

  const HELD_TWICE := Stream("<", Thinking, Answer, [])

  lemma FirstTagFed(tags: Tags, rest: seq<string>)
    requires tags.WellFormed()
    ensures Settles(tags, START, None, ["<" + tags.open] + rest) == Settles(tags, HELD, Some([('<', Answer)]), rest)
  {
    var chunks := ["<" + tags.open] + rest;
    assert START.carry + chunks[0] == "<" + tags.Tag(START.mode) && chunks[1..] == rest;
    hide Tags.Feed, DueAfter, Tags.WellFormed;
    BracketHeldAcross(tags, START, chunks[0]);
  }

  lemma SecondTagFed(tags: Tags, rest: seq<string>)
    requires tags.WellFormed()
    ensures var due := Some([('<', Answer)]);
            Settles(tags, HELD, due, [tags.close] + rest) == Settles(tags, HELD_TWICE, due, rest)
  {
    var chunks, due := [tags.close] + rest, [('<', Answer)];
    TagNotEmpty(tags, Thinking);
    assert chunks[0] != "" && HELD.carry + chunks[0] == "<" + tags.Tag(HELD.mode) && chunks[1..] == rest;
    SecondBracket(tags, Thinking);
    hide Tags.Feed, DueAfter, Tags.WellFormed;
    BracketHeldAcross(tags, HELD, chunks[0]);
    assert due + Label("", Thinking) == due;
    assert StillHolds(HELD, HELD_TWICE) && HELD_TWICE.carry[|HELD.carry|..] == "";
  }

  lemma LastFed(tags: Tags)
    requires tags.WellFormed()
    ensures var due := Some([('<', Answer)]);
            Settles(tags, HELD_TWICE, due, ["<"]) && !Settles(tags, HELD_TWICE, due, [])
  {
    hide Tags.Feed, DueAfter, Tags.WellFormed, Tags.Tag;
    BracketReleased(tags, HELD_TWICE);
    assert ["<"][1..] == [] && Label("<", Answer) == [('<', Answer)];
    assert Label("<", Thinking)[0] == ('<', Thinking);
  }

  /** Two tags crossed by one bracket cancel out: a stream labelled wrongly if it stopped
      after the second is not if it goes on, although its first chunk is unsafe. */
  lemma CrossedTwice(tags: Tags)
    requires tags.WellFormed()
    ensures var chunks := ["<" + tags.open, tags.close, "<"];
            tags.Agrees(chunks) && !tags.Agrees(chunks[..2]) && !tags.SafeStream(START, chunks)
  {
    var first := "<" + tags.open;
    assert [first, tags.close, "<"] == [first] + ([tags.close] + ["<"]);
    assert [first, tags.close, "<"][..2] == [first] + ([tags.close] + []);
    BracketUnsafe(tags);
    hide Tags.Agrees, Tags.SafeChunk, Tags.WellFormed, Settles, Tags.Feed;
    AgreesExactlyWhenSettled(tags, [first] + ([tags.close] + ["<"]));
    AgreesExactlyWhenSettled(tags, [first] + ([tags.close] + []));
    FirstTagFed(tags, [tags.close] + ["<"]);
    FirstTagFed(tags, [tags.close] + []);
    SecondTagFed(tags, ["<"]);
    SecondTagFed(tags, []);
    LastFed(tags);
  }
}
