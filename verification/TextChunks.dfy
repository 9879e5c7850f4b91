/** What the chunks of a text are, without the loops that make them: the pieces between
    longest breaks, groups as large as fit, and windows at multiples of a step. */
module TextChunks {
  import opened Basics
  import opened ChunkGroups
  import opened SplitText
  import opened Text

  // ---------------------------------------------------------------- windows

  /** How far apart the windows of a long paragraph begin. */
  function Step(maxChars: nat, overlap: nat): (step: nat)
    ensures step >= 1
  {
    Max(1, maxChars - overlap)
  }

  /** Where window k begins. */
  function Begin(k: nat, step: nat): nat {
    k * step
  }

  /** Window k of a text, stripped: from its beginning on, as many characters as fit. */
  function Window(s: string, k: nat, maxChars: nat, step: nat): string
    requires Begin(k, step) <= |s|
  {
    Strip(s[Begin(k, step)..Min(|s|, Begin(k, step) + maxChars)])
  }

  ghost predicate WindowIs(window: string, s: string, k: nat, maxChars: nat, step: nat) {
    Begin(k, step) <= |s| && window == Window(s, k, maxChars, step)
  }

  /** One window every step, the last the first that reaches the end. */
  ghost predicate AreWindows(windows: seq<string>, s: string, maxChars: nat, step: nat) {
    && windows != []
    && |s| <= Begin(|windows| - 1, step) + maxChars
    && (|windows| > 1 ==> Begin(|windows| - 2, step) + maxChars < |s|)
    && EachWindowIs(windows, s, maxChars, step)
  }

  ghost predicate EachWindowIs(windows: seq<string>, s: string, maxChars: nat, step: nat) {
    forall k: nat :: k < |windows| ==> WindowIs(windows[k], s, k, maxChars, step)
  }

  lemma BeginOn(k: nat, step: nat)
    ensures Begin(k + 1, step) == Begin(k, step) + step
    ensures Begin(0, step) == 0
  {
  }

  lemma Slices(s: string, start: nat, first: nat, step: nat)
    requires start + first <= |s| && step <= first
    ensures s[start..start + first] == s[start..][..first]
    ensures s[start + step..] == s[start..][step..]
  {
  }

  lemma SliceOn(s: string, step: nat, from: nat, to: nat)
    requires step <= |s| && from <= to <= |s| - step
    ensures s[step..][from..to] == s[step + from..step + to]
  {
  }

  lemma WindowOn(window: string, s: string, k: nat, maxChars: nat, step: nat)
    requires step <= |s| && WindowIs(window, s[step..], k, maxChars, step)
    ensures WindowIs(window, s, k + 1, maxChars, step)
  {
    hide Strip, Begin;
    BeginOn(k, step);
    SliceOn(s, step, Begin(k, step), Min(|s[step..]|, Begin(k, step) + maxChars));
  }

  lemma FirstWindow(s: string, maxChars: nat, step: nat)
    ensures WindowIs(Strip(s[..Min(|s|, maxChars)]), s, 0, maxChars, step)
  {
    hide Strip, Begin;
    BeginOn(0, step);
  }

  lemma OneWindow(s: string, maxChars: nat, step: nat)
    requires |s| <= maxChars
    ensures AreWindows([Strip(s)], s, maxChars, step)
  {
    FirstWindow(s, maxChars, step);
    BeginOn(0, step);
    hide Strip, WindowIs, Begin;
    assert s[..|s|] == s;
  }

  lemma EachOn(first: string, windows: seq<string>, s: string, maxChars: nat, step: nat)
    requires step <= |s| && WindowIs(first, s, 0, maxChars, step)
    requires EachWindowIs(windows, s[step..], maxChars, step)
    ensures EachWindowIs([first] + windows, s, maxChars, step)
  {
    hide WindowIs;
    var all := [first] + windows;
    forall k: nat | k < |all| ensures WindowIs(all[k], s, k, maxChars, step) {
      if k > 0 { WindowOn(windows[k - 1], s, k - 1, maxChars, step); }
    }
  }

  /** One more window in front. */
  lemma WindowsOn(windows: seq<string>, s: string, maxChars: nat, step: nat)
    requires 1 <= step <= |s| && maxChars < |s|
    requires AreWindows(windows, s[step..], maxChars, step)
    ensures AreWindows([Strip(s[..maxChars])] + windows, s, maxChars, step)
  {
    FirstWindow(s, maxChars, step);
    BeginOn(0, step);
    BeginOn(|windows| - 1, step);
    if |windows| > 1 { BeginOn(|windows| - 2, step); }
    hide Strip, WindowIs, Begin, EachWindowIs;
    EachOn(Strip(s[..maxChars]), windows, s, maxChars, step);
  }

  /** The loop's next window. */
  lemma CutOne(paragraph: string, start: nat, maxChars: nat, overlap: nat)
    requires maxChars >= 1 && start < |paragraph|
    ensures Step(maxChars, overlap) <= maxChars
    ensures Windows(paragraph, start, maxChars, overlap) ==
            if |paragraph| <= start + maxChars then [Strip(paragraph[start..])]
            else [Strip(paragraph[start..start + maxChars])]
                 + Windows(paragraph, start + Step(maxChars, overlap), maxChars, overlap)
  {
    hide Strip;
    WindowsStep(paragraph, start, maxChars, overlap);
    hide Windows;
    assert paragraph[start..|paragraph|] == paragraph[start..];
  }

  /** The windows the loop cuts from a position on are those of the rest of the paragraph. */
  lemma {:induction false} CutAreWindows(paragraph: string, start: nat, maxChars: nat, overlap: nat)
    requires maxChars >= 1 && start < |paragraph|
    ensures AreWindows(Windows(paragraph, start, maxChars, overlap), paragraph[start..], maxChars,
                       Step(maxChars, overlap))
    decreases |paragraph| - start
  {
    hide *;
    var step := Step(maxChars, overlap);
    CutOne(paragraph, start, maxChars, overlap);
    if |paragraph| <= start + maxChars {
      OneWindow(paragraph[start..], maxChars, step);
    } else {
      CutAreWindows(paragraph, start + step, maxChars, overlap);
      Slices(paragraph, start, maxChars, step);
      WindowsOn(Windows(paragraph, start + step, maxChars, overlap), paragraph[start..], maxChars, step);
    }
  }

  /** How many windows there are. */
  lemma WindowNumber(windows: seq<string>, s: string, maxChars: nat, step: nat)
    requires 1 <= step && maxChars <= |s| && AreWindows(windows, s, maxChars, step)
    ensures |windows| == 1 + (|s| - maxChars + step - 1) / step
  {
    hide EachWindowIs;
    if |windows| > 1 { BeginOn(|windows| - 2, step); }
    Rounded(|windows| - 1, |s| - maxChars, step);
  }

  lemma Rounded(n: nat, length: nat, step: nat)
    requires step >= 1 && length <= n * step && (n > 0 ==> n * step < length + step)
    ensures (length + step - 1) / step == n
  {
    var spare := n * step - length;
    assert length + step - 1 == n * step + (step - 1 - spare);
    Quotient(n, step - 1 - spare, step);
  }

  lemma Quotient(n: nat, spare: nat, step: nat)
    requires spare < step
    ensures (n * step + spare) / step == n
  {
    var q, r := (n * step + spare) / step, (n * step + spare) % step;
    if q < n {
      Times(q + 1, n, step);
    } else if q > n {
      Times(n + 1, q, step);
    }
  }

  lemma Times(a: int, b: int, step: nat)
    requires a <= b
    ensures a * step <= b * step
  {
  }

  // ---------------------------------------------------------------- pieces

  /** Whitespace from position i up to j that starts and ends with a line break of its own. */
  ghost predicate IsBreak(text: string, i: nat, j: nat) {
    && i + 2 <= j <= |text| && text[i] == '\n' && text[j - 1] == '\n'
    && Blank(text[i..j])
  }

  ghost predicate IsLongestBreak(text: string, i: nat, j: nat) {
    IsBreak(text, i, j) && forall k: nat :: IsBreak(text, i, k) ==> k <= j
  }

  ghost predicate StartsNoBreak(text: string, i: nat) {
    forall j: nat :: !IsBreak(text, i, j)
  }

  datatype Span = Span(start: nat, end: nat)

  ghost predicate NoBreakInside(text: string, span: Span) {
    forall i: nat :: span.start <= i < span.end ==> StartsNoBreak(text, i)
  }

  /** The spans between longest breaks, each break the first after the one before: together
      they make up the text from a position on. */
  ghost predicate Divides(spans: seq<Span>, text: string, start: nat) {
    && spans != [] && spans[0].start == start && spans[|spans| - 1].end == |text|
    && (forall k: nat :: k < |spans| ==> spans[k].start <= spans[k].end && NoBreakInside(text, spans[k]))
    && forall k: nat :: k < |spans| - 1 ==> IsLongestBreak(text, spans[k].end, spans[k + 1].start)
  }

  /** Line breaks that whitespace from position i reaches. */
  ghost predicate Reaches(text: string, i: nat, j: nat) {
    i < j <= |text| && text[j - 1] == '\n' && Blank(text[i..j])
  }

  lemma BlankTail(text: string, i: nat, j: nat)
    requires i < j <= |text|
    ensures Blank(text[i..j]) <==> IsSpace(text[i]) && Blank(text[i + 1..j])
  {
    hide IsSpace;
    var s, t := text[i..j], text[i + 1..j];
    if Blank(s) {
      assert IsSpace(s[0]);
      forall k | 0 <= k < |t| ensures IsSpace(t[k]) { assert t[k] == s[k + 1]; }
    }
    if IsSpace(text[i]) && Blank(t) {
      forall k | 0 <= k < |s| ensures IsSpace(s[k]) {
        assert s[0] == text[i];
        if k > 0 { assert s[k] == t[k - 1]; }
      }
    }
  }

  lemma ReachesOn(text: string, i: nat, j: nat)
    requires i < |text|
    ensures Reaches(text, i, j) <==> IsSpace(text[i]) && (Reaches(text, i + 1, j) || (j == i + 1 && text[i] == '\n'))
  {
    hide IsSpace, Blank;
    if i < j <= |text| { BlankTail(text, i, j); }
    if j == i + 1 { NothingIsBlank(text[i + 1..j]); }
  }

  lemma NothingIsBlank(s: string)
    requires s == ""
    ensures Blank(s)
  {
  }

  /** The last line break of the whitespace is the farthest it reaches. */
  lemma {:induction false} LastBreakIs(text: string, i: nat, j: nat)
    requires i <= |text|
    ensures var end := LastBreak(text, i);
            (end != 0 ==> Reaches(text, i, end)) && (Reaches(text, i, j) ==> j <= end)
    decreases |text| - i
  {
    hide IsSpace, Reaches;
    if i < |text| {
      LastBreakIs(text, i + 1, j);
      var end := LastBreak(text, i);
      ReachesOn(text, i, j);
      ReachesOn(text, i, end);
    }
    NoneReached(text, i, j);
  }

  lemma NoneReached(text: string, i: nat, j: nat)
    ensures Reaches(text, i, j) ==> i < |text| && i < j
  {
  }

  lemma LineBreakIsSpace()
    ensures IsSpace('\n')
  {
  }

  lemma BreakReaches(text: string, i: nat, j: nat)
    requires i < |text|
    ensures IsBreak(text, i, j) <==> text[i] == '\n' && Reaches(text, i + 1, j)
  {
    hide IsSpace, Blank;
    LineBreakIsSpace();
    if i < j <= |text| { BlankTail(text, i, j); }
  }

  /** Where a break is found, the longest one is. */
  lemma BreakEndIs(text: string, i: nat)
    requires i < |text|
    ensures var end := BreakEnd(text, i);
            if end == 0 then StartsNoBreak(text, i) else IsLongestBreak(text, i, end)
  {
    var end := BreakEnd(text, i);
    hide IsBreak, Reaches, LastBreak;
    forall j: nat ensures IsBreak(text, i, j) ==> end != 0 && j <= end {
      BreakReaches(text, i, j);
      LastBreakIs(text, i + 1, j);
      NoneReached(text, i + 1, j);
    }
    if end != 0 {
      BreakReaches(text, i, end);
      LastBreakIs(text, i + 1, end);
    }
  }

  lemma OneMoreInside(text: string, start: nat, i: nat)
    requires start <= i && NoBreakInside(text, Span(start, i)) && StartsNoBreak(text, i)
    ensures NoBreakInside(text, Span(start, i + 1))
  {
    hide StartsNoBreak;
  }

  lemma OneDivides(text: string, start: nat)
    requires start <= |text| && NoBreakInside(text, Span(start, |text|))
    ensures Divides([Span(start, |text|)], text, start)
  {
    hide NoBreakInside, IsLongestBreak;
  }

  lemma DividesMore(span: Span, spans: seq<Span>, text: string)
    requires span.start <= span.end && NoBreakInside(text, span) && spans != []
    requires Divides(spans, text, spans[0].start) && IsLongestBreak(text, span.end, spans[0].start)
    ensures Divides([span] + spans, text, span.start)
  {
    hide NoBreakInside, IsLongestBreak;
    var all := [span] + spans;
    forall k: nat | k < |all| - 1 ensures IsLongestBreak(text, all[k].end, all[k + 1].start) {
      if k > 0 { assert all[k + 1] == spans[k - 1 + 1]; }
    }
  }

  /** The texts of some spans. */
  ghost predicate AreSlices(pieces: seq<string>, text: string, spans: seq<Span>) {
    && |pieces| == |spans|
    && forall k: nat :: k < |spans| ==>
         spans[k].start <= spans[k].end <= |text| && pieces[k] == text[spans[k].start..spans[k].end]
  }

  lemma SlicesMore(piece: string, pieces: seq<string>, text: string, span: Span, spans: seq<Span>)
    requires span.start <= span.end <= |text| && piece == text[span.start..span.end]
    requires AreSlices(pieces, text, spans)
    ensures AreSlices([piece] + pieces, text, [span] + spans)
  {
  }

  /** The pieces are the spans between longest breaks. */
  lemma {:induction false} PiecesDivide(text: string, start: nat, i: nat) returns (spans: seq<Span>)
    requires start <= i <= |text| && NoBreakInside(text, Span(start, i))
    ensures Divides(spans, text, start) && AreSlices(Pieces(text, start, i), text, spans)
    decreases |text| - i
  {
    hide NoBreakInside, Divides, AreSlices, BreakEnd, IsLongestBreak;
    if i == |text| {
      spans := [Span(start, i)];
      OneDivides(text, start);
      assert text[start..] == text[start..i];
      OneSlice(text, start);
    } else {
      BreakEndIs(text, i);
      var end := BreakEnd(text, i);
      hide StartsNoBreak;
      if end == 0 {
        OneMoreInside(text, start, i);
        spans := PiecesDivide(text, start, i + 1);
      } else {
        NothingInside(text, end);
        spans := PiecesDivide(text, end, end);
        DividesFrom(spans, text, end);
        DividesMore(Span(start, i), spans, text);
        SlicesMore(text[start..i], Pieces(text, end, end), text, Span(start, i), spans);
        spans := [Span(start, i)] + spans;
      }
    }
  }

  lemma OneSlice(text: string, start: nat)
    requires start <= |text|
    ensures AreSlices([text[start..]], text, [Span(start, |text|)])
  {
  }

  lemma NothingInside(text: string, i: nat)
    ensures NoBreakInside(text, Span(i, i))
  {
  }

  lemma DividesFrom(spans: seq<Span>, text: string, start: nat)
    requires Divides(spans, text, start)
    ensures spans != [] && spans[0].start == start
  {
  }

  // ---------------------------------------------------------------- paragraphs

  /** The pieces with anything in them, stripped. */
  ghost predicate AreStripped(paragraphs: seq<string>, pieces: seq<string>)
    decreases |pieces|
  {
    if pieces == [] then paragraphs == []
    else if Blank(pieces[0]) then AreStripped(paragraphs, pieces[1..])
    else
      && paragraphs != [] && IsStripped(paragraphs[0], pieces[0])
      && AreStripped(paragraphs[1..], pieces[1..])
  }

  lemma {:induction false} StripAllStrips(pieces: seq<string>)
    ensures AreStripped(StripAll(pieces), pieces)
  {
    hide Strip, Blank, IsStripped;
    if pieces != [] {
      var rest := pieces[1..];
      StripAllStrips(rest);
      StripIs(pieces[0]);
      BlankStrip(pieces[0]);
      if Strip(pieces[0]) == "" {
        assert StripAll(pieces) == [] + StripAll(rest) == StripAll(rest);
      } else {
        assert StripAll(pieces)[1..] == StripAll(rest);
      }
    }
  }

  /** The chunks that are not blank. */
  ghost predicate AreInked(kept: seq<string>, chunks: seq<string>)
    decreases |chunks|
  {
    if chunks == [] then kept == []
    else if Blank(chunks[0]) then AreInked(kept, chunks[1..])
    else kept != [] && kept[0] == chunks[0] && AreInked(kept[1..], chunks[1..])
  }

  lemma {:induction false} KeptAreInked(chunks: seq<string>)
    ensures AreInked(Kept(chunks), chunks)
  {
    hide Strip, Blank;
    if chunks != [] {
      KeptAreInked(chunks[1..]);
      BlankStrip(chunks[0]);
      if Strip(chunks[0]) == "" {
        assert Kept(chunks) == [] + Kept(chunks[1..]) == Kept(chunks[1..]);
      } else {
        assert Kept(chunks)[1..] == Kept(chunks[1..]);
      }
    }
  }

  // ---------------------------------------------------------------- groups

  /** The first paragraph of a group would not have fitted into the group before it. */
  ghost predicate IsFull(groups: seq<seq<string>>, k: nat, maxChars: nat) {
    && k + 1 < |groups| && groups[k + 1] != []
    && |Joined(groups[k])| + 2 + |groups[k + 1][0]| > maxChars
  }

  ghost predicate AllFull(groups: seq<seq<string>>, maxChars: nat) {
    forall k: nat :: k + 1 < |groups| ==> IsFull(groups, k, maxChars)
  }

  /** The paragraphs in consecutive groups, each as large as fits. */
  ghost predicate AreGroups(groups: seq<seq<string>>, paragraphs: seq<string>, maxChars: nat) {
    Layout(groups, paragraphs, maxChars) && AllFull(groups, maxChars)
  }

  lemma LayoutStarts(groups: seq<seq<string>>, paragraphs: seq<string>, maxChars: nat)
    requires Layout(groups, paragraphs, maxChars) && paragraphs != []
    ensures groups != [] && groups[0] != [] && groups[0][0] == paragraphs[0]
  {
    hide Joined;
  }

  lemma FullMore(group: seq<string>, groups: seq<seq<string>>, maxChars: nat)
    requires AllFull(groups, maxChars)
    requires groups != [] ==> groups[0] != [] && |Joined(group)| + 2 + |groups[0][0]| > maxChars
    ensures AllFull([group] + groups, maxChars)
  {
    hide Joined;
    var all := [group] + groups;
    forall k: nat | k + 1 < |all| ensures IsFull(all, k, maxChars) {
      if k > 0 { assert IsFull(groups, k - 1, maxChars); }
    }
  }

  lemma FullOpen(current: seq<string>, groups: seq<seq<string>>, maxChars: nat)
    requires AllFull(groups, maxChars)
    requires current != [] && groups != [] ==> groups[0] != [] && |Joined(current)| + 2 + |groups[0][0]| > maxChars
    ensures AllFull(OpenGroup(current) + groups, maxChars)
  {
    hide Joined, AllFull;
    if current == [] {
      assert OpenGroup(current) + groups == groups;
    } else {
      FullMore(current, groups, maxChars);
    }
  }

  lemma NoneFull(maxChars: nat)
    ensures AllFull([], maxChars)
  {
  }

  /** Greedy packing makes every group as large as fits. */
  lemma {:induction false} GreedyIsFull(paragraphs: seq<string>, current: seq<string>, maxChars: nat)
    requires |Joined(current)| <= maxChars
    ensures AllFull(Groups(paragraphs, current, maxChars), maxChars)
    decreases |paragraphs|
  {
    hide Joined, AllFull, Layout, OpenGroup;
    NoneFull(maxChars);
    NoParagraphs(maxChars, 0);
    if paragraphs == [] {
      FullOpen(current, [], maxChars);
      assert OpenGroup(current) + [] == OpenGroup(current);
    } else {
      var p, rest := paragraphs[0], paragraphs[1..];
      JoinedStep(current, p);
      SingleGroup(p);
      if |p| > maxChars {
        var more := Groups(rest, [], maxChars);
        GreedyIsFull(rest, [], maxChars);
        GreedyLayout(rest, [], maxChars, 0);
        FullMore([p], more, maxChars);
        FullOpen(current, [[p]] + more, maxChars);
        assert OpenGroup(current) + [[p]] + more == OpenGroup(current) + ([[p]] + more);
      } else if Overflows(current, p, maxChars) {
        GreedyIsFull(rest, [p], maxChars);
        GreedyLayout(rest, [p], maxChars, 0);
        LayoutStarts(Groups(rest, [p], maxChars), [p] + rest, maxChars);
        FullOpen(current, Groups(rest, [p], maxChars), maxChars);
      } else {
        GreedyIsFull(rest, current + [p], maxChars);
      }
    }
  }

  // ---------------------------------------------------------------- chunks

  /** A group that fits is one chunk, its paragraphs joined; a longer paragraph is its
      windows, but for blank ones. */
  ghost predicate IsWritten(chunks: seq<string>, group: seq<string>, maxChars: nat, overlap: nat) {
    && group != []
    && if |Joined(group)| <= maxChars then chunks == [Joined(group)]
       else exists windows :: AreWindows(windows, group[0], maxChars, Step(maxChars, overlap))
                              && AreInked(chunks, windows)
  }

  /** Group by group. */
  ghost predicate AreWritten(chunks: seq<string>, groups: seq<seq<string>>, maxChars: nat, overlap: nat)
    decreases |groups|
  {
    if groups == [] then chunks == []
    else
      exists n: nat :: n <= |chunks| && IsWritten(chunks[..n], groups[0], maxChars, overlap)
                       && AreWritten(chunks[n..], groups[1..], maxChars, overlap)
  }

  lemma {:induction false} JoinedTrimmed(group: seq<string>)
    requires group != [] && AllTrimmed(group)
    ensures Trimmed(Joined(group))
  {
    hide IsSpace;
    var n := |group| - 1;
    if n > 0 {
      assert AllTrimmed(group[..n]);
      JoinedTrimmed(group[..n]);
    }
  }

  lemma GroupIsWritten(group: seq<string>, maxChars: nat, overlap: nat)
    requires maxChars >= 1 && group != [] && AllTrimmed(group) && (|group| == 1 || |Joined(group)| <= maxChars)
    ensures IsWritten(Kept(GroupChunks(group, maxChars, overlap)), group, maxChars, overlap)
  {
    JoinedTrimmed(group);
    JoinedIsKept(group);
    StripTrimmed(Joined(group));
    hide Kept, Strip, Trimmed, Windows, AreWindows, AreInked, AllTrimmed;
    if |Joined(group)| > maxChars {
      SingleGroup(group[0]);
      assert group == [group[0]] && group[0][0..] == group[0];
      CutAreWindows(group[0], 0, maxChars, overlap);
      KeptAreInked(Windows(group[0], 0, maxChars, overlap));
    }
  }

  lemma WrittenMore(first: seq<string>, rest: seq<string>, groups: seq<seq<string>>, maxChars: nat, overlap: nat)
    requires groups != [] && IsWritten(first, groups[0], maxChars, overlap)
    requires AreWritten(rest, groups[1..], maxChars, overlap)
    ensures AreWritten(first + rest, groups, maxChars, overlap)
  {
    hide IsWritten;
    var all, n := first + rest, |first|;
    assert all[..n] == first && all[n..] == rest;
  }

  lemma {:induction false} LaidOutIsWritten(groups: seq<seq<string>>, paragraphs: seq<string>, maxChars: nat,
                                            overlap: nat)
    requires maxChars >= 1 && AllTrimmed(paragraphs) && Layout(groups, paragraphs, maxChars)
    requires forall i :: 0 <= i < |groups| ==> groups[i] != []
    ensures AreWritten(Kept(LaidOut(groups, maxChars, overlap)), groups, maxChars, overlap)
    decreases |groups|
  {
    hide Joined, Kept, Windows, Trimmed, Strip, IsWritten, AllTrimmed, GroupChunks;
    if groups == [] {
      NoneKept();
    } else {
      var g, rest := groups[0], paragraphs[|groups[0]|..];
      assert paragraphs == g + rest;
      PartsTrimmed(g, rest);
      hide AreWritten, Layout;
      LaidOutIsWritten(groups[1..], rest, maxChars, overlap);
      GroupIsWritten(g, maxChars, overlap);
      KeptJoin(GroupChunks(g, maxChars, overlap), LaidOut(groups[1..], maxChars, overlap));
      WrittenMore(Kept(GroupChunks(g, maxChars, overlap)), Kept(LaidOut(groups[1..], maxChars, overlap)), groups,
                  maxChars, overlap);
    }
  }

  lemma NoneKept()
    ensures Kept([]) == []
  {
  }

  /** What the chunks of a text are: the text between longest breaks, stripped, in groups
      as large as fit, each joined with blank lines or cut into windows every step. */
  lemma ChunksExactly(text: string, maxChars: nat, overlap: nat)
    returns (spans: seq<Span>, pieces: seq<string>, groups: seq<seq<string>>)
    requires maxChars >= 1
    ensures Divides(spans, text, 0) && AreSlices(pieces, text, spans)
    ensures AreStripped(Paragraphs(text), pieces)
    ensures AreGroups(groups, Paragraphs(text), maxChars)
    ensures AreWritten(Chunks(text, maxChars, overlap), groups, maxChars, overlap)
  {
    pieces := Pieces(text, 0, 0);
    var paragraphs := Paragraphs(text);
    groups := Groups(paragraphs, [], maxChars);
    hide *;
    NothingInside(text, 0);
    spans := PiecesDivide(text, 0, 0);
    ParagraphsAreStripped(text);
    FewestChunks(text, maxChars, overlap);
    NoParagraphs(maxChars, overlap);
    GreedyIsFull(paragraphs, [], maxChars);
    GroupsOf(groups, paragraphs, maxChars);
    LaidOutIsWritten(groups, paragraphs, maxChars, overlap);
  }

  lemma ParagraphsAreStripped(text: string)
    ensures AreStripped(Paragraphs(text), Pieces(text, 0, 0)) && AllTrimmed(Paragraphs(text))
  {
    hide AreStripped, StripAll, AllTrimmed;
    StripAllStrips(Pieces(text, 0, 0));
    StripAllTrims(Pieces(text, 0, 0));
  }

  lemma GroupsOf(groups: seq<seq<string>>, paragraphs: seq<string>, maxChars: nat)
    requires Layout(groups, paragraphs, maxChars) && AllFull(groups, maxChars)
    ensures AreGroups(groups, paragraphs, maxChars)
  {
    hide Layout, AllFull;
  }
}
