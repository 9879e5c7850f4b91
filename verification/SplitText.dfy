/** Splitting a section's text into chunks: paragraphs are packed greedily, a
    paragraph too long for one chunk is cut into overlapping windows. */
module SplitText {
  import opened Basics
  import opened Text

  // ---------------------------------------------------------------- paragraphs

  /** The position after the last line break in the whitespace that starts at i, or
      0 when that whitespace has no line break. */
  function LastBreak(text: string, i: nat): (end: nat)
    requires i <= |text|
    ensures end == 0 || i < end <= |text|
    decreases |text| - i
  {
    if i == |text| || !IsSpace(text[i]) then 0
    else
      var later := LastBreak(text, i + 1);
      if later != 0 then later else if text[i] == '\n' then i + 1 else 0
  }

  /** Where a paragraph break that starts at the line break at i ends: at the last
      line break of the whitespace that follows; 0 when no break starts here. */
  function BreakEnd(text: string, i: nat): (end: nat)
    requires i < |text|
    ensures end == 0 || i + 1 < end <= |text|
  {
    if text[i] == '\n' then LastBreak(text, i + 1) else 0
  }

  /** The pieces between paragraph breaks, from position i of a piece begun at start. */
  function Pieces(text: string, start: nat, i: nat): seq<string>
    requires start <= i <= |text|
    decreases |text| - i
  {
    if i == |text| then [text[start..]]
    else
      var end := BreakEnd(text, i);
      if end == 0 then Pieces(text, start, i + 1)
      else [text[start..i]] + Pieces(text, end, end)
  }

  /** The stripped pieces that are not empty. */
  function StripAll(pieces: seq<string>): seq<string> {
    if pieces == [] then []
    else (if Strip(pieces[0]) == "" then [] else [Strip(pieces[0])]) + StripAll(pieces[1..])
  }

  function Paragraphs(text: string): seq<string> {
    StripAll(Pieces(text, 0, 0))
  }

  // ---------------------------------------------------------------- specification

  /** Paragraphs joined by a blank line. */
  function Joined(paragraphs: seq<string>): string {
    if paragraphs == [] then ""
    else if |paragraphs| == 1 then paragraphs[0]
    else Joined(paragraphs[..|paragraphs| - 1]) + "\n\n" + paragraphs[|paragraphs| - 1]
  }

  /** What flushing the open group emits. */
  function Emitted(current: seq<string>): seq<string> {
    if current == [] then [] else [Strip(Joined(current))]
  }

  /** The windows of a long paragraph from a position on. */
  function Windows(paragraph: string, start: nat, maxChars: nat, overlap: nat): seq<string>
    decreases |paragraph| - start
  {
    if start >= |paragraph| then []
    else
      var end := Min(|paragraph|, start + maxChars);
      [Strip(paragraph[start..end])] +
      if end == |paragraph| then []
      else Windows(paragraph, NextStart(start, end, overlap), maxChars, overlap)
  }

  function NextStart(start: nat, end: nat, overlap: nat): nat {
    if end >= overlap && end - overlap > start + 1 then end - overlap else start + 1
  }

  predicate Overflows(current: seq<string>, paragraph: string, maxChars: nat) {
    current != [] && |Joined(current)| + |paragraph| + 2 > maxChars
  }

  /** The chunks of the remaining paragraphs, given the group still open. */
  function Pack(paragraphs: seq<string>, current: seq<string>, maxChars: nat, overlap: nat): seq<string>
    decreases |paragraphs|
  {
    if paragraphs == [] then Emitted(current)
    else
      var p, rest := paragraphs[0], paragraphs[1..];
      if |p| > maxChars then
              Emitted(current) + Windows(p, 0, maxChars, overlap) + Pack(rest, [], maxChars, overlap)
      else if Overflows(current, p, maxChars) then Emitted(current) + Pack(rest, [p], maxChars, overlap)
      else Pack(rest, current + [p], maxChars, overlap)
  }

  /** Chunks with anything in them. */
  function Kept(chunks: seq<string>): seq<string> {
    if chunks == [] then []
    else (if Strip(chunks[0]) != "" then [chunks[0]] else []) + Kept(chunks[1..])
  }

  function Chunks(text: string, maxChars: nat, overlap: nat): seq<string> {
    Kept(Pack(Paragraphs(text), [], maxChars, overlap))
  }

  ghost predicate AllTrimmed(paragraphs: seq<string>) {
    forall i :: 0 <= i < |paragraphs| ==> Trimmed(paragraphs[i])
  }

  // ---------------------------------------------------------------- the program

  lemma {:induction false} StripAllTrims(pieces: seq<string>)
    ensures AllTrimmed(StripAll(pieces))
  {
    hide Strip, Trimmed;
    if pieces != [] {
      StripAllTrims(pieces[1..]);
      StripTrims(pieces[0]);
    }
  }

  lemma JoinedStep(current: seq<string>, p: string)
    ensures Joined(current + [p]) == if current == [] then p else Joined(current) + "\n\n" + p
    ensures |Joined(current + [p])| == |Joined(current)| + |p| + if current == [] then 0 else 2
  {
    assert (current + [p])[..|current|] == current;
  }

  lemma {:induction false} JoinedNotEmpty(current: seq<string>)
    requires AllTrimmed(current)
    ensures AllTrimmed([])
    ensures Joined(current) == "" <==> current == []
  {
  }

  lemma WindowsStep(paragraph: string, start: nat, maxChars: nat, overlap: nat)
    requires start < |paragraph|
    ensures var end := Min(|paragraph|, start + maxChars);
            var tail := if end == |paragraph| then []
                        else Windows(paragraph, NextStart(start, end, overlap), maxChars, overlap);
            Windows(paragraph, start, maxChars, overlap) == [Strip(paragraph[start..end])] + tail
  {
    hide Strip, NextStart;
  }

  method CutWindows(paragraph: string, maxChars: nat, overlap: nat) returns (chunks: seq<string>)
    requires paragraph != ""
    ensures chunks == Windows(paragraph, 0, maxChars, overlap)
  {
    chunks := [];
    var start: nat := 0;
    hide Strip, Windows;
    while start < |paragraph|
      invariant Windows(paragraph, 0, maxChars, overlap) == chunks + Windows(paragraph, start, maxChars, overlap)
      decreases |paragraph| - start
    {
      WindowsStep(paragraph, start, maxChars, overlap);
      var end := Min(|paragraph|, start + maxChars);
      chunks := chunks + [Strip(paragraph[start..end])];
      if end == |paragraph| {
        return;
      }
      start := NextStart(start, end, overlap);
    }
    assert Windows(paragraph, start, maxChars, overlap) == [] by { NoWindows(paragraph, start, maxChars, overlap); }
  }

  lemma NoWindows(paragraph: string, start: nat, maxChars: nat, overlap: nat)
    requires start >= |paragraph|
    ensures Windows(paragraph, start, maxChars, overlap) == []
  {
  }

  lemma PackAt(paragraphs: seq<string>, i: nat, current: seq<string>, maxChars: nat, overlap: nat)
    requires i < |paragraphs|
    ensures var p, rest := paragraphs[i], paragraphs[i + 1..];
            Pack(paragraphs[i..], current, maxChars, overlap) ==
            if |p| > maxChars then
              Emitted(current) + Windows(p, 0, maxChars, overlap) + Pack(rest, [], maxChars, overlap)
            else if Overflows(current, p, maxChars) then Emitted(current) + Pack(rest, [p], maxChars, overlap)
            else Pack(rest, current + [p], maxChars, overlap)
  {
    hide Emitted, Windows, Overflows;
    assert paragraphs[i..][0] == paragraphs[i] && paragraphs[i..][1..] == paragraphs[i + 1..];
  }

  lemma PackHead(paragraphs: seq<string>, current: seq<string>, maxChars: nat, overlap: nat)
    requires paragraphs != []
    ensures var p, rest := paragraphs[0], paragraphs[1..];
            Pack(paragraphs, current, maxChars, overlap) ==
            if |p| > maxChars then
              Emitted(current) + Windows(p, 0, maxChars, overlap) + Pack(rest, [], maxChars, overlap)
            else if Overflows(current, p, maxChars) then Emitted(current) + Pack(rest, [p], maxChars, overlap)
            else Pack(rest, current + [p], maxChars, overlap)
  {
    assert paragraphs[0..] == paragraphs;
    PackAt(paragraphs, 0, current, maxChars, overlap);
  }

  lemma InkOfHead(paragraphs: seq<string>)
    requires paragraphs != []
    ensures InkOfAll(paragraphs) == Ink(paragraphs[0]) + InkOfAll(paragraphs[1..])
  {
  }

  lemma Regroup(a: seq<string>, b: seq<string>, c: seq<string>, d: seq<string>)
    ensures a + (b + c + d) == a + b + c + d
    ensures a + (b + d) == a + b + d
  {
  }

  /** The paragraph loop with its open group and running length. */
  method Split(text: string, maxChars: nat, overlap: nat) returns (kept: seq<string>)
    ensures kept == Chunks(text, maxChars, overlap)
  {
    var paragraphs := Paragraphs(text);
    StripAllTrims(Pieces(text, 0, 0));
    var chunks, current: seq<string>, currentLen := [], [], 0;
    ghost var result := Pack(paragraphs, [], maxChars, overlap);
    assert paragraphs[0..] == paragraphs;
    JoinedNotEmpty([]);
    hide Paragraphs, Pack, Windows, Strip, Joined, Emitted, AllTrimmed, Trimmed;
    for i: nat := 0 to |paragraphs|
      invariant result == chunks + Pack(paragraphs[i..], current, maxChars, overlap)
      invariant AllTrimmed(current) && currentLen == |Joined(current)|
    {
      var paragraph := paragraphs[i];
      TrimmedAt(paragraphs, i);
      PackAt(paragraphs, i, current, maxChars, overlap);
      ghost var rest := paragraphs[i + 1..];
      if |paragraph| > maxChars {
        var windows := CutWindows(paragraph, maxChars, overlap);
        Regroup(chunks, Emitted(current), windows, Pack(rest, [], maxChars, overlap));
        chunks := chunks + Emitted(current) + windows;
        current, currentLen := [], 0;
        JoinedNotEmpty([]);
        continue;
      }
      var projected := currentLen + |paragraph| + if current != [] then 2 else 0;
      GroupGrows([], paragraph);
      GroupGrows(current, paragraph);
      assert [] + [paragraph] == [paragraph];
      if current != [] && projected > maxChars {
        Regroup(chunks, Emitted(current), [], Pack(rest, [paragraph], maxChars, overlap));
        chunks := chunks + Emitted(current);
        current, currentLen := [], 0;
        JoinedNotEmpty([]);
      }
      current := current + [paragraph];
      currentLen := currentLen + |paragraph| + if currentLen != 0 then 2 else 0;
    }
    PackNone(paragraphs, current, maxChars, overlap);
    chunks := chunks + Emitted(current);
    kept := KeepNonEmpty(chunks);
  }

  lemma PackNone(paragraphs: seq<string>, current: seq<string>, maxChars: nat, overlap: nat)
    ensures Pack(paragraphs[|paragraphs|..], current, maxChars, overlap) == Emitted(current)
  {
  }

  lemma TrimmedAt(paragraphs: seq<string>, i: nat)
    requires AllTrimmed(paragraphs) && i < |paragraphs|
    ensures Trimmed(paragraphs[i]) && paragraphs[i] != ""
  {
  }

  /** The running length, kept by adding to it, stays the length of the open group. */
  lemma GroupGrows(current: seq<string>, p: string)
    requires AllTrimmed(current) && Trimmed(p)
    ensures AllTrimmed(current + [p])
    ensures |Joined(current)| == 0 <==> current == []
    ensures |Joined(current + [p])| == |Joined(current)| + |p| + if |Joined(current)| != 0 then 2 else 0
  {
    JoinedStep(current, p);
    JoinedNotEmpty(current);
  }

  lemma KeptAt(chunks: seq<string>, i: nat)
    requires i < |chunks|
    ensures Kept(chunks[i..]) == (if Strip(chunks[i]) != "" then [chunks[i]] else []) + Kept(chunks[i + 1..])
  {
    hide Strip;
    assert chunks[i..][0] == chunks[i] && chunks[i..][1..] == chunks[i + 1..];
  }

  method KeepNonEmpty(chunks: seq<string>) returns (kept: seq<string>)
    ensures kept == Kept(chunks)
  {
    kept := [];
    hide Strip;
    for i: nat := 0 to |chunks|
      invariant Kept(chunks) == kept + Kept(chunks[i..])
    {
      KeptAt(chunks, i);
      hide Kept;
      if Strip(chunks[i]) != "" {
        kept := kept + [chunks[i]];
      }
    }
  }

  // ---------------------------------------------------------------- size

  ghost predicate AtMost(chunks: seq<string>, maxChars: nat) {
    forall i :: 0 <= i < |chunks| ==> |chunks[i]| <= maxChars
  }

  lemma {:induction false} WindowsBounded(paragraph: string, start: nat, maxChars: nat, overlap: nat)
    ensures AtMost(Windows(paragraph, start, maxChars, overlap), maxChars)
    decreases |paragraph| - start
  {
    hide Strip;
    if start < |paragraph| {
      var end := Min(|paragraph|, start + maxChars);
      InkOfStrip(paragraph[start..end]);
      if end != |paragraph| { WindowsBounded(paragraph, NextStart(start, end, overlap), maxChars, overlap); }
    }
  }

  lemma EmittedBounded(current: seq<string>, maxChars: nat)
    requires |Joined(current)| <= maxChars
    ensures AtMost(Emitted(current), maxChars)
  {
    hide Strip, Joined;
    InkOfStrip(Joined(current));
  }

  lemma {:induction false} PackBounded(paragraphs: seq<string>, current: seq<string>, maxChars: nat, overlap: nat)
    requires |Joined(current)| <= maxChars
    ensures AtMost(Pack(paragraphs, current, maxChars, overlap), maxChars)
    decreases |paragraphs|
  {
    hide Joined, Windows, Emitted;
    EmittedBounded(current, maxChars);
    if paragraphs != [] {
      var p, rest := paragraphs[0], paragraphs[1..];
      JoinedStep([], p);
      assert [] + [p] == [p];
      JoinedStep(current, p);
      WindowsBounded(p, 0, maxChars, overlap);
      if |p| > maxChars {
        NothingJoined();
        PackBounded(rest, [], maxChars, overlap);
      } else if Overflows(current, p, maxChars) {
        PackBounded(rest, [p], maxChars, overlap);
      } else {
        PackBounded(rest, current + [p], maxChars, overlap);
      }
    }
  }

  lemma NothingJoined()
    ensures Joined([]) == ""
  {
  }

  lemma {:induction false} KeptBounded(chunks: seq<string>, maxChars: nat)
    requires AtMost(chunks, maxChars)
    ensures AtMost(Kept(chunks), maxChars)
  {
    hide Strip;
    if chunks != [] { KeptBounded(chunks[1..], maxChars); }
  }

  /** No chunk is longer than the limit, whatever the overlap. */
  lemma ChunksBounded(text: string, maxChars: nat, overlap: nat)
    ensures AtMost(Chunks(text, maxChars, overlap), maxChars)
  {
    hide Joined, Pack, Kept, Paragraphs;
    NothingJoined();
    PackBounded(Paragraphs(text), [], maxChars, overlap);
    KeptBounded(Pack(Paragraphs(text), [], maxChars, overlap), maxChars);
  }

  // ---------------------------------------------------------------- nothing lost

  /** The chunks are consecutive windows of the ink from position done on: each
      starts no later than the last one ended, and the last ends the ink. */
  ghost predicate Covers(chunks: seq<string>, ink: string, done: nat) {
    if chunks == [] then done == |ink|
    else exists lo: nat, hi: nat :: IsWindow(chunks[0], ink, lo, done, hi) && Covers(chunks[1..], ink, hi)
  }

  ghost predicate IsWindow(chunk: string, ink: string, lo: nat, done: nat, hi: nat) {
    lo <= done <= hi <= |ink| && Ink(chunk) == ink[lo..hi]
  }

  /** Like Covers, without overlap: each window starts where the last one ended. */
  ghost function InkOfAll(chunks: seq<string>): string {
    if chunks == [] then "" else Ink(chunks[0]) + InkOfAll(chunks[1..])
  }

  lemma CoversCons(chunk: string, rest: seq<string>, ink: string, lo: nat, done: nat, hi: nat)
    requires IsWindow(chunk, ink, lo, done, hi) && Covers(rest, ink, hi)
    ensures Covers([chunk] + rest, ink, done)
  {
    hide IsWindow;
    assert ([chunk] + rest)[1..] == rest && ([chunk] + rest)[0] == chunk;
  }

  lemma {:induction false} CoversMore(chunks: seq<string>, ink: string, done: nat, before: string)
    requires Covers(chunks, ink, done)
    ensures Covers(chunks, before + ink, |before| + done)
    decreases |chunks|
  {
    hide Ink;
    if chunks != [] {
      var lo: nat, hi: nat :| IsWindow(chunks[0], ink, lo, done, hi) && Covers(chunks[1..], ink, hi);
      CoversMore(chunks[1..], ink, hi, before);
      assert (before + ink)[|before| + lo..|before| + hi] == ink[lo..hi];
      CoversCons(chunks[0], chunks[1..], before + ink, |before| + lo, |before| + done, |before| + hi);
      assert chunks == [chunks[0]] + chunks[1..];
    }
  }

  lemma WindowKept(chunk: string, ink: string, lo: nat, done: nat, hi: nat, after: string)
    requires IsWindow(chunk, ink, lo, done, hi)
    ensures IsWindow(chunk, ink + after, lo, done, hi)
  {
    hide Ink;
    assert (ink + after)[lo..hi] == ink[lo..hi];
  }

  lemma {:induction false} CoversJoin(chunks: seq<string>, ink: string, done: nat, more: seq<string>, after: string)
    requires Covers(chunks, ink, done) && Covers(more, after, 0)
    ensures Covers(chunks + more, ink + after, done)
    decreases |chunks|
  {
    hide IsWindow;
    if chunks == [] {
      assert chunks + more == more;
      CoversMore(more, after, 0, ink);
    } else {
      var lo: nat, hi: nat :| IsWindow(chunks[0], ink, lo, done, hi) && Covers(chunks[1..], ink, hi);
      hide Covers;
      CoversJoin(chunks[1..], ink, hi, more, after);
      WindowKept(chunks[0], ink, lo, done, hi, after);
      CoversCons(chunks[0], chunks[1..] + more, ink + after, lo, done, hi);
      assert chunks + more == [chunks[0]] + (chunks[1..] + more);
    }
  }

  lemma OneCovers(chunk: string, ink: string)
    requires Ink(chunk) == ink
    ensures Covers([chunk], ink, 0)
  {
    hide Ink;
    assert ink[0..|ink|] == ink;
    CoversCons(chunk, [], ink, 0, 0, |ink|);
    assert [chunk] + [] == [chunk];
  }

  lemma InkSlice(s: string, from: nat, to: nat)
    requires from <= to <= |s|
    ensures var lo, hi := |Ink(s[..from])|, |Ink(s[..to])|;
            lo <= hi <= |Ink(s)| && Ink(s[from..to]) == Ink(s)[lo..hi]
  {
    hide Ink;
    assert s[..to] == s[..from] + s[from..to] && s == s[..to] + s[to..];
    InkJoin(s[..from], s[from..to]);
    InkJoin(s[..to], s[to..]);
  }

  /** Windows of a long paragraph leave no gap, however large the overlap. */
  lemma {:induction false} WindowsCover(paragraph: string, start: nat, end0: nat, maxChars: nat, overlap: nat)
    requires maxChars >= 1 && start <= end0 < |paragraph|
    requires end0 <= start + maxChars
    ensures Covers(Windows(paragraph, start, maxChars, overlap), Ink(paragraph), |Ink(paragraph[..end0])|)
    decreases |paragraph| - start
  {
    hide Strip, Ink;
    var end := Min(|paragraph|, start + maxChars);
    var chunk, ink := Strip(paragraph[start..end]), Ink(paragraph);
    var lo, done, hi := |Ink(paragraph[..start])|, |Ink(paragraph[..end0])|, |Ink(paragraph[..end])|;
    InkOfStrip(paragraph[start..end]);
    InkSlice(paragraph, start, end);
    InkSlice(paragraph, start, end0);
    InkSlice(paragraph, end0, end);
    assert IsWindow(chunk, ink, lo, done, hi);
    if end == |paragraph| {
      assert paragraph[..end] == paragraph;
      CoversCons(chunk, [], ink, lo, done, hi);
      assert Windows(paragraph, start, maxChars, overlap) == [chunk] + [];
    } else {
      var next := NextStart(start, end, overlap);
      WindowsCover(paragraph, next, end, maxChars, overlap);
      var rest := Windows(paragraph, next, maxChars, overlap);
      CoversCons(chunk, rest, ink, lo, done, hi);
      assert Windows(paragraph, start, maxChars, overlap) == [chunk] + rest;
    }
  }

  lemma InkOfPair(first: string, last: string)
    ensures Ink(first + "\n\n" + last) == Ink(first) + Ink(last)
  {
    InkJoin(first + "\n\n", last);
    InkJoin(first, "\n\n");
    BlankHasNoInk("\n\n");
    hide Ink;
    assert Ink(first) + "" == Ink(first);
  }

  lemma {:induction false} InkOfJoined(paragraphs: seq<string>)
    ensures Ink(Joined(paragraphs)) == InkOfAll(paragraphs)
    decreases |paragraphs|
  {
    BlankHasNoInk("");
    hide Ink;
    if paragraphs != [] {
      var n := |paragraphs| - 1;
      var init, last := paragraphs[..n], paragraphs[n];
      assert paragraphs == init + [last];
      InkOfJoined(init);
      hide InkOfAll, Joined;
      JoinedStep(init, last);
      InkOfAllSnoc(init, last);
      InkOfPair(Joined(init), last);
      if init == [] { NoInkAtAll(); }
    }
  }

  lemma {:induction false} InkOfAllSnoc(init: seq<string>, last: string)
    ensures InkOfAll(init + [last]) == InkOfAll(init) + Ink(last)
  {
    hide Ink;
    if init == [] {
      assert init + [last] == [last] && [last][1..] == [];
    } else {
      assert (init + [last])[1..] == init[1..] + [last];
      InkOfAllSnoc(init[1..], last);
    }
  }

  lemma InkOfAllJoin(a: seq<string>, b: seq<string>)
    ensures InkOfAll(a + b) == InkOfAll(a) + InkOfAll(b)
    decreases |b|
  {
    hide Ink;
    if b == [] {
      assert a + b == a;
    } else {
      var n := |b| - 1;
      InkOfAllJoin(a, b[..n]);
      InkOfAllSnoc(a + b[..n], b[n]);
      InkOfAllSnoc(b[..n], b[n]);
      assert a + b == (a + b[..n]) + [b[n]] && b == b[..n] + [b[n]];
    }
  }

  /** An open group emits its ink as one window. */
  lemma EmittedCovers(current: seq<string>)
    ensures Covers(Emitted(current), InkOfAll(current), 0)
    ensures InkOfAll(Emitted(current)) == InkOfAll(current)
  {
    hide Strip, Joined, Ink;
    if current != [] {
      InkOfStrip(Joined(current));
      InkOfJoined(current);
      OneCovers(Strip(Joined(current)), InkOfAll(current));
      InkOfAllSnoc([], Strip(Joined(current)));
      assert [] + [Strip(Joined(current))] == [Strip(Joined(current))];
    }
  }

  lemma CoversJoinThree(a: seq<string>, inkA: string, b: seq<string>, inkB: string, c: seq<string>, inkC: string)
    requires Covers(a, inkA, 0) && Covers(b, inkB, 0) && Covers(c, inkC, 0)
    ensures Covers(a + b + c, inkA + (inkB + inkC), 0)
  {
    hide Covers;
    CoversJoin(b, inkB, 0, c, inkC);
    CoversJoin(a, inkA, 0, b + c, inkB + inkC);
    assert a + (b + c) == a + b + c;
  }

  lemma {:induction false} PackCovers(paragraphs: seq<string>, current: seq<string>, maxChars: nat, overlap: nat)
    requires maxChars >= 1
    ensures Covers(Pack(paragraphs, current, maxChars, overlap), InkOfAll(current) + InkOfAll(paragraphs), 0)
    decreases |paragraphs|
  {
    hide Covers, Ink, Emitted, Windows, Overflows;
    EmittedCovers(current);
    if paragraphs == [] {
      assert InkOfAll(current) + InkOfAll(paragraphs) == InkOfAll(current);
    } else {
      var p, rest := paragraphs[0], paragraphs[1..];
      var tail := Pack(rest, [], maxChars, overlap);
      PackHead(paragraphs, current, maxChars, overlap);
      InkOfHead(paragraphs);
      hide *;
      if |p| > maxChars {
        WindowsCover(p, 0, 0, maxChars, overlap);
        EmptyPrefix(p);
        PackCovers(rest, [], maxChars, overlap);
        NoInkAtAll();
        assert "" + InkOfAll(rest) == InkOfAll(rest);
        CoversJoinThree(Emitted(current), InkOfAll(current), Windows(p, 0, maxChars, overlap), Ink(p), tail,
          InkOfAll(rest));
      } else if Overflows(current, p, maxChars) {
        PackCovers(rest, [p], maxChars, overlap);
        InkOfOne(p);
        CoversJoin(Emitted(current), InkOfAll(current), 0, Pack(rest, [p], maxChars, overlap), Ink(p) + InkOfAll(rest));
      } else {
        PackCovers(rest, current + [p], maxChars, overlap);
        InkOfAllSnoc(current, p);
        Assoc(InkOfAll(current), Ink(p), InkOfAll(rest));
      }
    }
  }

  lemma EmptyPrefix(p: string)
    ensures |Ink(p[..0])| == 0
  {
    assert p[..0] == "";
  }

  lemma NoInkAtAll()
    ensures InkOfAll([]) == ""
  {
  }

  lemma InkOfOne(p: string)
    ensures InkOfAll([p]) == Ink(p)
  {
    hide Ink;
    assert [p][1..] == [];
  }

  lemma EmptyWindow(chunk: string, ink: string, lo: nat, done: nat, hi: nat)
    requires IsWindow(chunk, ink, lo, done, hi) && Ink(chunk) == ""
    ensures hi == done
  {
    hide Ink;
    assert |ink[lo..hi]| == hi - lo;
  }

  lemma {:induction false} KeptCovers(chunks: seq<string>, ink: string, done: nat)
    requires Covers(chunks, ink, done)
    ensures Covers(Kept(chunks), ink, done)
    decreases |chunks|
  {
    if chunks != [] {
      hide Strip, Ink, IsWindow;
      var lo: nat, hi: nat :| IsWindow(chunks[0], ink, lo, done, hi) && Covers(chunks[1..], ink, hi);
      hide Covers;
      KeptCovers(chunks[1..], ink, hi);
      EmptyStrip(chunks[0]);
      if Strip(chunks[0]) != "" {
        CoversCons(chunks[0], Kept(chunks[1..]), ink, lo, done, hi);
      } else {
        EmptyWindow(chunks[0], ink, lo, done, hi);
        assert [] + Kept(chunks[1..]) == Kept(chunks[1..]);
      }
    }
  }

  // ---------------------------------------------------------------- paragraph breaks are blank

  lemma {:induction false} BreakIsBlank(text: string, i: nat)
    requires i <= |text|
    ensures var end := LastBreak(text, i); end != 0 ==> Blank(text[i..end])
    decreases |text| - i
  {
    hide IsSpace;
    if i < |text| && IsSpace(text[i]) { BreakIsBlank(text, i + 1); }
  }

  lemma BreakHasNoInk(text: string, i: nat)
    requires i < |text| && BreakEnd(text, i) != 0
    ensures Ink(text[i..BreakEnd(text, i)]) == ""
  {
    var end := BreakEnd(text, i);
    BreakIsBlank(text, i + 1);
    assert Blank(text[i..end]) by {
      forall j | 0 <= j < |text[i..end]|
        ensures IsSpace(text[i..end][j])
      {
        if j > 0 { assert text[i..end][j] == text[i + 1..end][j - 1]; }
      }
    }
    BlankHasNoInk(text[i..end]);
  }

  lemma {:induction false} PiecesInk(text: string, start: nat, i: nat)
    requires start <= i <= |text|
    ensures InkOfAll(Pieces(text, start, i)) == Ink(text[start..])
    decreases |text| - i
  {
    hide Ink, BreakEnd;
    if i == |text| {
      InkOfOne(text[start..]);
    } else {
      var end := BreakEnd(text, i);
      if end == 0 {
        PiecesInk(text, start, i + 1);
      } else {
        PiecesInk(text, end, end);
        var piece, rest := text[start..i], Pieces(text, end, end);
        assert InkOfAll([piece] + rest) == Ink(piece) + InkOfAll(rest) by { assert ([piece] + rest)[1..] == rest; }
        BreakHasNoInk(text, i);
        InkJoin(piece, text[i..end]);
        InkJoin(piece + text[i..end], text[end..]);
        assert text[start..] == piece + text[i..end] + text[end..];
      }
    }
  }

  lemma {:induction false} StripAllInk(pieces: seq<string>)
    ensures InkOfAll(StripAll(pieces)) == InkOfAll(pieces)
  {
    hide Ink, Strip;
    if pieces != [] {
      StripAllInk(pieces[1..]);
      InkOfStrip(pieces[0]);
      EmptyStrip(pieces[0]);
      var s, rest := Strip(pieces[0]), StripAll(pieces[1..]);
      if s != "" { assert ([s] + rest)[1..] == rest; } else { assert [] + rest == rest; }
    }
  }

  lemma ParagraphsInk(text: string)
    ensures InkOfAll(Paragraphs(text)) == Ink(text)
  {
    hide Ink, StripAll, Pieces;
    PiecesInk(text, 0, 0);
    StripAllInk(Pieces(text, 0, 0));
    assert text[0..] == text;
  }

  /** With any overlap, every character that is not whitespace lies in some chunk,
      in order and without a gap. */
  lemma NothingLost(text: string, maxChars: nat, overlap: nat)
    requires maxChars >= 1
    ensures Covers(Chunks(text, maxChars, overlap), Ink(text), 0)
  {
    hide Covers, Ink, Pack, Kept, Paragraphs, InkOfAll;
    var paragraphs := Paragraphs(text);
    ParagraphsInk(text);
    NoInkAtAll();
    PackCovers(paragraphs, [], maxChars, overlap);
    assert "" + InkOfAll(paragraphs) == InkOfAll(paragraphs);
    KeptCovers(Pack(paragraphs, [], maxChars, overlap), Ink(text), 0);
  }

  // ---------------------------------------------------------------- no overlap

  lemma {:induction false} WindowsExact(paragraph: string, start: nat, maxChars: nat)
    requires maxChars >= 1 && start < |paragraph|
    ensures InkOfAll(Windows(paragraph, start, maxChars, 0)) == Ink(paragraph[start..])
    decreases |paragraph| - start
  {
    hide Strip, Ink;
    var end := Min(|paragraph|, start + maxChars);
    var chunk := Strip(paragraph[start..end]);
    InkOfStrip(paragraph[start..end]);
    if end == |paragraph| {
      assert Windows(paragraph, start, maxChars, 0) == [chunk] + [] == [chunk];
      assert paragraph[start..end] == paragraph[start..];
      InkOfOne(chunk);
    } else {
      assert NextStart(start, end, 0) == end;
      WindowsExact(paragraph, end, maxChars);
      var rest := Windows(paragraph, end, maxChars, 0);
      assert ([chunk] + rest)[1..] == rest;
      InkJoin(paragraph[start..end], paragraph[end..]);
      assert paragraph[start..] == paragraph[start..end] + paragraph[end..];
    }
  }

  lemma Assoc(a: string, b: string, c: string)
    ensures a + b + c == a + (b + c)
  {
  }

  lemma {:induction false} PackExact(paragraphs: seq<string>, current: seq<string>, maxChars: nat)
    requires maxChars >= 1
    ensures InkOfAll(Pack(paragraphs, current, maxChars, 0)) == InkOfAll(current) + InkOfAll(paragraphs)
    decreases |paragraphs|
  {
    hide Ink, Emitted, Windows, Overflows;
    EmittedCovers(current);
    if paragraphs == [] {
      assert InkOfAll(current) + InkOfAll(paragraphs) == InkOfAll(current);
    } else {
      var p, rest := paragraphs[0], paragraphs[1..];
      PackHead(paragraphs, current, maxChars, 0);
      InkOfHead(paragraphs);
      hide *;
      if |p| > maxChars {
        WindowsExact(p, 0, maxChars);
        assert p[0..] == p;
        PackExact(rest, [], maxChars);
        NoInkAtAll();
        InkOfAllJoin(Emitted(current), Windows(p, 0, maxChars, 0));
        InkOfAllJoin(Emitted(current) + Windows(p, 0, maxChars, 0), Pack(rest, [], maxChars, 0));
        Assoc(InkOfAll(current), Ink(p), InkOfAll(rest));
        assert "" + InkOfAll(rest) == InkOfAll(rest);
      } else if Overflows(current, p, maxChars) {
        PackExact(rest, [p], maxChars);
        InkOfOne(p);
        InkOfAllJoin(Emitted(current), Pack(rest, [p], maxChars, 0));
      } else {
        PackExact(rest, current + [p], maxChars);
        InkOfAllSnoc(current, p);
        Assoc(InkOfAll(current), Ink(p), InkOfAll(rest));
      }
    }
  }

  lemma {:induction false} KeptInk(chunks: seq<string>)
    ensures InkOfAll(Kept(chunks)) == InkOfAll(chunks)
  {
    hide Ink, Strip;
    if chunks != [] {
      KeptInk(chunks[1..]);
      EmptyStrip(chunks[0]);
      var rest := Kept(chunks[1..]);
      if Strip(chunks[0]) != "" { assert ([chunks[0]] + rest)[1..] == rest; } else { assert [] + rest == rest; }
    }
  }

  /** Without overlap the chunks, whitespace removed, concatenate to the text. */
  lemma LosslessWithoutOverlap(text: string, maxChars: nat)
    requires maxChars >= 1
    ensures InkOfAll(Chunks(text, maxChars, 0)) == Ink(text)
  {
    hide Ink, Pack, Kept, Paragraphs, InkOfAll;
    var paragraphs := Paragraphs(text);
    ParagraphsInk(text);
    NoInkAtAll();
    PackExact(paragraphs, [], maxChars);
    assert "" + InkOfAll(paragraphs) == InkOfAll(paragraphs);
    KeptInk(Pack(paragraphs, [], maxChars, 0));
  }

  // ---------------------------------------------------------------- runs

  ghost predicate AllShort(run: seq<string>, maxChars: nat) {
    forall i :: 0 <= i < |run| ==> |run[i]| <= maxChars
  }

  /** The paragraphs between two long ones are packed on their own. */
  lemma {:induction false} RunsAreIndependent(run: seq<string>, long: string, rest: seq<string>, current: seq<string>,
                                              maxChars: nat, overlap: nat)
    requires AllShort(run, maxChars) && |long| > maxChars
    ensures Pack(run + [long] + rest, current, maxChars, overlap) ==
            Pack(run, current, maxChars, overlap) + Windows(long, 0, maxChars, overlap)
              + Pack(rest, [], maxChars, overlap)
    decreases |run|
  {
    hide Pack, Emitted, Windows, Overflows;
    var all := run + [long] + rest;
    PackHead(all, current, maxChars, overlap);
    if run == [] {
      PackNone(run, current, maxChars, overlap);
      assert all[0] == long && all[1..] == rest && run[|run|..] == run;
    } else {
      var p := run[0];
      PackHead(run, current, maxChars, overlap);
      assert all[0] == p && all[1..] == run[1..] + [long] + rest;
      RunsAreIndependent(run[1..], long, rest, [p], maxChars, overlap);
      RunsAreIndependent(run[1..], long, rest, current + [p], maxChars, overlap);
      Regroup(Emitted(current), Pack(run[1..], [p], maxChars, overlap), Windows(long, 0, maxChars, overlap),
              Pack(rest, [], maxChars, overlap));
    }
  }
}
