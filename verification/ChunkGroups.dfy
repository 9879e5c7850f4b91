/** Greedy packing gives as few chunks as any way of grouping the paragraphs. */
module ChunkGroups {
  import opened SplitText
  import opened Text

  // ---------------------------------------------------------------- layouts

  /** Consecutive non-empty groups that make up the paragraphs: each short enough to join,
      or a paragraph on its own. */
  ghost predicate Layout(groups: seq<seq<string>>, paragraphs: seq<string>, maxChars: nat) {
    if groups == [] then paragraphs == []
    else
      && groups[0] != [] && groups[0] <= paragraphs
      && (|groups[0]| == 1 || |Joined(groups[0])| <= maxChars)
      && Layout(groups[1..], paragraphs[|groups[0]|..], maxChars)
  }

  /** A group that fits is one chunk; a paragraph that does not is cut into windows. */
  ghost function GroupChunks(group: seq<string>, maxChars: nat, overlap: nat): seq<string>
    requires group != []
  {
    if |Joined(group)| <= maxChars then [Strip(Joined(group))] else Windows(group[0], 0, maxChars, overlap)
  }

  ghost function LaidOut(groups: seq<seq<string>>, maxChars: nat, overlap: nat): seq<string>
    requires forall i :: 0 <= i < |groups| ==> groups[i] != []
  {
    if groups == [] then [] else GroupChunks(groups[0], maxChars, overlap) + LaidOut(groups[1..], maxChars, overlap)
  }

  lemma {:induction false} LayoutNonEmpty(groups: seq<seq<string>>, paragraphs: seq<string>, maxChars: nat)
    requires Layout(groups, paragraphs, maxChars)
    ensures forall i :: 0 <= i < |groups| ==> groups[i] != []
  {
    hide Joined;
    if groups != [] {
      LayoutNonEmpty(groups[1..], paragraphs[|groups[0]|..], maxChars);
      forall i | 0 <= i < |groups| ensures groups[i] != [] { assert i > 0 ==> groups[i] == groups[1..][i - 1]; }
    }
  }

  // ---------------------------------------------------------------- counting

  function WindowCount(paragraph: string, maxChars: nat, overlap: nat): nat {
    |Kept(Windows(paragraph, 0, maxChars, overlap))|
  }

  /** The number of chunks a layout comes to. */
  ghost function Cost(groups: seq<seq<string>>, maxChars: nat, overlap: nat): nat
    requires forall i :: 0 <= i < |groups| ==> groups[i] != []
  {
    if groups == [] then 0
    else
      Cost(groups[1..], maxChars, overlap) +
      if |Joined(groups[0])| <= maxChars then 1 else WindowCount(groups[0][0], maxChars, overlap)
  }

  function OpenCount(current: seq<string>): nat {
    if current == [] then 0 else 1
  }

  /** The number of chunks the paragraphs still make, given the group still open. */
  function Count(paragraphs: seq<string>, current: seq<string>, maxChars: nat, overlap: nat): nat
    decreases |paragraphs|
  {
    if paragraphs == [] then OpenCount(current)
    else
      var p, rest := paragraphs[0], paragraphs[1..];
      if |p| > maxChars then OpenCount(current) + WindowCount(p, maxChars, overlap) + Count(rest, [], maxChars, overlap)
      else if Overflows(current, p, maxChars) then OpenCount(current) + Count(rest, [p], maxChars, overlap)
      else Count(rest, current + [p], maxChars, overlap)
  }

  lemma {:induction false} KeptJoin(a: seq<string>, b: seq<string>)
    ensures Kept(a + b) == Kept(a) + Kept(b)
    decreases |a|
  {
    hide Strip;
    if a == [] {
      assert a + b == b;
    } else {
      assert a + b == [a[0]] + (a[1..] + b) && a == [a[0]] + a[1..];
      KeptJoin(a[1..], b);
      hide Kept;
      KeptFirst(a[0], a[1..] + b);
      KeptFirst(a[0], a[1..]);
    }
  }

  lemma KeptFirst(chunk: string, rest: seq<string>)
    ensures Kept([chunk] + rest) == (if Strip(chunk) != "" then [chunk] else []) + Kept(rest)
  {
    hide Strip;
    assert ([chunk] + rest)[1..] == rest;
  }

  /** A joined group of trimmed paragraphs is a chunk that is kept. */
  lemma JoinedIsKept(group: seq<string>)
    requires group != [] && AllTrimmed(group)
    ensures Kept([Strip(Joined(group))]) == [Strip(Joined(group))]
  {
    var text := Joined(group);
    assert Trimmed(group[0]);
    assert Ink(group[0]) != "";
    InkOfHead(group);
    hide Ink, InkOfAll, Joined, Strip, Trimmed;
    InkOfJoined(group);
    InkOfStrip(text);
    EmptyStrip(Strip(text));
    assert [Strip(text)][1..] == [];
  }

  lemma EmittedIsKept(current: seq<string>)
    requires AllTrimmed(current)
    ensures |Kept(Emitted(current))| == OpenCount(current)
  {
    hide Strip, Joined;
    if current != [] { JoinedIsKept(current); }
  }

  /** The count is the number of chunks packing keeps. */
  lemma {:induction false} CountIsPack(paragraphs: seq<string>, current: seq<string>, maxChars: nat, overlap: nat)
    requires AllTrimmed(paragraphs) && AllTrimmed(current)
    ensures |Kept(Pack(paragraphs, current, maxChars, overlap))| == Count(paragraphs, current, maxChars, overlap)
    decreases |paragraphs|
  {
    hide Windows, Overflows, Pack, Kept, Emitted, Trimmed;
    EmittedIsKept(current);
    if paragraphs == [] {
      PackNone(paragraphs, current, maxChars, overlap);
    } else {
      PackHead(paragraphs, current, maxChars, overlap);
      var p, rest := paragraphs[0], paragraphs[1..];
      if |p| > maxChars {
        KeptJoin(Emitted(current) + Windows(p, 0, maxChars, overlap), Pack(rest, [], maxChars, overlap));
        KeptJoin(Emitted(current), Windows(p, 0, maxChars, overlap));
        CountIsPack(rest, [], maxChars, overlap);
      } else if Overflows(current, p, maxChars) {
        KeptJoin(Emitted(current), Pack(rest, [p], maxChars, overlap));
        CountIsPack(rest, [p], maxChars, overlap);
      } else {
        CountIsPack(rest, current + [p], maxChars, overlap);
      }
    }
  }

  // ---------------------------------------------------------------- greedy is least

  lemma {:induction false} JoinedSuffixShorter(x: seq<string>, c: seq<string>)
    ensures |Joined(c)| <= |Joined(x + c)|
    decreases |c|
  {
    if c == [] {
      assert Joined(c) == "";
    } else {
      var n := |c| - 1;
      assert c == c[..n] + [c[n]] && x + c == (x + c[..n]) + [c[n]];
      JoinedSuffixShorter(x, c[..n]);
      hide Joined;
      JoinedStep(c[..n], c[n]);
      JoinedStep(x + c[..n], c[n]);
    }
  }

  lemma {:induction false} JoinedPrefixShorter(c: seq<string>, x: seq<string>)
    ensures |Joined(c)| <= |Joined(c + x)|
    decreases |x|
  {
    if x == [] {
      assert c + x == c;
    } else {
      var n := |x| - 1;
      assert c + x == (c + x[..n]) + [x[n]];
      JoinedPrefixShorter(c, x[..n]);
      hide Joined;
      JoinedStep(c + x[..n], x[n]);
    }
  }

  /** A larger open group costs at most one chunk more, and never less. */
  lemma {:induction false} LargerGroup(paragraphs: seq<string>, x: seq<string>, c: seq<string>, maxChars: nat,
                                       overlap: nat)
    requires c != []
    ensures Count(paragraphs, c, maxChars, overlap) <= Count(paragraphs, x + c, maxChars, overlap)
            <= Count(paragraphs, c, maxChars, overlap) + 1
    decreases |paragraphs|
  {
    hide Joined, WindowCount;
    if paragraphs != [] {
      var p, rest := paragraphs[0], paragraphs[1..];
      JoinedSuffixShorter(x, c);
      assert (x + c) + [p] == x + (c + [p]);
      if |p| <= maxChars {
        if !Overflows(x + c, p, maxChars) {
          LargerGroup(rest, x, c + [p], maxChars, overlap);
        } else if !Overflows(c, p, maxChars) {
          LargerGroup(rest, c, [p], maxChars, overlap);
        }
      }
    }
  }

  /** Starting afresh now costs at most one chunk. */
  lemma FreshGroup(paragraphs: seq<string>, c: seq<string>, maxChars: nat, overlap: nat)
    requires c != []
    ensures Count(paragraphs, c, maxChars, overlap) <= 1 + Count(paragraphs, [], maxChars, overlap)
  {
    hide Joined, WindowCount;
    if paragraphs != [] {
      assert [] + [paragraphs[0]] == [paragraphs[0]];
      LargerGroup(paragraphs[1..], c, [paragraphs[0]], maxChars, overlap);
    }
  }

  /** Greedy packing takes a group that fits whole. */
  lemma {:induction false} TakesGroup(g: seq<string>, rest: seq<string>, c: seq<string>, maxChars: nat, overlap: nat)
    requires |Joined(c + g)| <= maxChars
    ensures Count(g + rest, c, maxChars, overlap) == Count(rest, c + g, maxChars, overlap)
    decreases |g|
  {
    hide Joined, WindowCount;
    if g == [] {
      assert g + rest == rest && c + g == c;
    } else {
      var p := g[0];
      assert (g + rest)[0] == p && (g + rest)[1..] == g[1..] + rest;
      assert c + g == (c + [p]) + g[1..];
      JoinedPrefixShorter(c + [p], g[1..]);
      JoinedStep(c, p);
      TakesGroup(g[1..], rest, c + [p], maxChars, overlap);
    }
  }

  lemma SingleGroup(p: string)
    ensures Joined([p]) == p
  {
  }

  lemma {:induction false} NoLayoutIsSmaller(groups: seq<seq<string>>, paragraphs: seq<string>, maxChars: nat,
                                             overlap: nat)
    requires Layout(groups, paragraphs, maxChars)
    requires forall i :: 0 <= i < |groups| ==> groups[i] != []
    ensures Count(paragraphs, [], maxChars, overlap) <= Cost(groups, maxChars, overlap)
    decreases |groups|
  {
    hide Joined, WindowCount;
    if groups != [] {
      var g, rest := groups[0], paragraphs[|groups[0]|..];
      assert paragraphs == g + rest;
      NoLayoutIsSmaller(groups[1..], rest, maxChars, overlap);
      if |Joined(g)| <= maxChars {
        assert [] + g == g;
        TakesGroup(g, rest, [], maxChars, overlap);
        FreshGroup(rest, g, maxChars, overlap);
      } else {
        SingleGroup(g[0]);
        assert g == [g[0]] && (g + rest)[0] == g[0] && (g + rest)[1..] == rest;
      }
    }
  }

  /** Of trimmed paragraphs a layout keeps as many chunks as it comes to. */
  lemma {:induction false} CostIsKept(groups: seq<seq<string>>, paragraphs: seq<string>, maxChars: nat, overlap: nat)
    requires Layout(groups, paragraphs, maxChars) && AllTrimmed(paragraphs)
    requires forall i :: 0 <= i < |groups| ==> groups[i] != []
    ensures |Kept(LaidOut(groups, maxChars, overlap))| == Cost(groups, maxChars, overlap)
    decreases |groups|
  {
    if groups != [] {
      var g, rest, more := groups[0], paragraphs[|groups[0]|..], LaidOut(groups[1..], maxChars, overlap);
      assert paragraphs == g + rest;
      PartsTrimmed(g, rest);
      hide Joined, Kept, Windows, Trimmed, Strip;
      CostIsKept(groups[1..], rest, maxChars, overlap);
      KeptJoin(GroupChunks(g, maxChars, overlap), more);
      JoinedIsKept(g);
    }
  }

  lemma PartsTrimmed(a: seq<string>, b: seq<string>)
    requires AllTrimmed(a + b)
    ensures AllTrimmed(a) && AllTrimmed(b)
  {
    hide Trimmed;
    forall i | 0 <= i < |a| ensures Trimmed(a[i]) { assert (a + b)[i] == a[i]; }
    forall i | 0 <= i < |b| ensures Trimmed(b[i]) { assert (a + b)[|a| + i] == b[i]; }
  }

  // ---------------------------------------------------------------- greedy is a layout

  ghost function OpenGroup(current: seq<string>): seq<seq<string>> {
    if current == [] then [] else [current]
  }

  /** The groups greedy packing makes of the paragraphs. */
  ghost function Groups(paragraphs: seq<string>, current: seq<string>, maxChars: nat): (groups: seq<seq<string>>)
    decreases |paragraphs|
  {
    if paragraphs == [] then OpenGroup(current)
    else
      var p, rest := paragraphs[0], paragraphs[1..];
      if |p| > maxChars then OpenGroup(current) + [[p]] + Groups(rest, [], maxChars)
      else if Overflows(current, p, maxChars) then OpenGroup(current) + Groups(rest, [p], maxChars)
      else Groups(rest, current + [p], maxChars)
  }

  /** One more group in front of a layout. */
  lemma LayoutMore(group: seq<string>, groups: seq<seq<string>>, paragraphs: seq<string>, maxChars: nat, overlap: nat)
    requires group != [] && (|group| == 1 || |Joined(group)| <= maxChars) && Layout(groups, paragraphs, maxChars)
    requires forall i :: 0 <= i < |groups| ==> groups[i] != []
    ensures Layout([group] + groups, group + paragraphs, maxChars)
    ensures LaidOut([group] + groups, maxChars, overlap) ==
            GroupChunks(group, maxChars, overlap) + LaidOut(groups, maxChars, overlap)
  {
    hide Joined, GroupChunks;
    assert ([group] + groups)[1..] == groups && (group + paragraphs)[|group|..] == paragraphs;
  }

  /** The open group in front of a layout. */
  lemma LayoutOpen(current: seq<string>, groups: seq<seq<string>>, paragraphs: seq<string>, maxChars: nat, overlap: nat)
    requires |Joined(current)| <= maxChars && Layout(groups, paragraphs, maxChars)
    requires forall i :: 0 <= i < |groups| ==> groups[i] != []
    ensures Layout(OpenGroup(current) + groups, current + paragraphs, maxChars)
    ensures forall i :: 0 <= i < |OpenGroup(current) + groups| ==> (OpenGroup(current) + groups)[i] != []
    ensures LaidOut(OpenGroup(current) + groups, maxChars, overlap) ==
            Emitted(current) + LaidOut(groups, maxChars, overlap)
  {
    hide Joined, Strip;
    if current == [] {
      assert OpenGroup(current) + groups == groups && current + paragraphs == paragraphs;
    } else {
      LayoutMore(current, groups, paragraphs, maxChars, overlap);
    }
  }

  lemma NoParagraphs(maxChars: nat, overlap: nat)
    ensures Layout([], [], maxChars) && LaidOut([], maxChars, overlap) == [] && |Joined([])| == 0
  {
  }

  /** Greedy packing writes out a layout of the open group and the paragraphs. */
  lemma {:induction false} GreedyLayout(paragraphs: seq<string>, current: seq<string>, maxChars: nat, overlap: nat)
    requires |Joined(current)| <= maxChars
    ensures var groups := Groups(paragraphs, current, maxChars);
            && Layout(groups, current + paragraphs, maxChars)
            && (forall i :: 0 <= i < |groups| ==> groups[i] != [])
            && Pack(paragraphs, current, maxChars, overlap) == LaidOut(groups, maxChars, overlap)
    decreases |paragraphs|
  {
    hide Joined, Strip, Windows, Layout, LaidOut, OpenGroup, Pack, Emitted;
    NoParagraphs(maxChars, overlap);
    if paragraphs == [] {
      LayoutOpen(current, [], [], maxChars, overlap);
      PackNone(paragraphs, current, maxChars, overlap);
      assert OpenGroup(current) + [] == OpenGroup(current) && Emitted(current) + [] == Emitted(current);
      assert paragraphs == [];
    } else {
      var p, rest := paragraphs[0], paragraphs[1..];
      assert paragraphs == [p] + rest;
      PackHead(paragraphs, current, maxChars, overlap);
      JoinedStep(current, p);
      SingleGroup(p);
      if |p| > maxChars {
        GreedyLayout(rest, [], maxChars, overlap);
        assert [] + rest == rest;
        var more := Groups(rest, [], maxChars);
        LayoutMore([p], more, rest, maxChars, overlap);
        LayoutOpen(current, [[p]] + more, [p] + rest, maxChars, overlap);
        assert OpenGroup(current) + [[p]] + more == OpenGroup(current) + ([[p]] + more);
        Regroup(Emitted(current), [], Windows(p, 0, maxChars, overlap), LaidOut(more, maxChars, overlap));
        assert Emitted(current) + (Windows(p, 0, maxChars, overlap) + LaidOut(more, maxChars, overlap)) ==
               Emitted(current) + Windows(p, 0, maxChars, overlap) + LaidOut(more, maxChars, overlap);
      } else if Overflows(current, p, maxChars) {
        GreedyLayout(rest, [p], maxChars, overlap);
        LayoutOpen(current, Groups(rest, [p], maxChars), [p] + rest, maxChars, overlap);
      } else {
        GreedyLayout(rest, current + [p], maxChars, overlap);
        assert (current + [p]) + rest == current + paragraphs;
      }
    }
  }

  /** The chunks of a text are those of a layout of its paragraphs, and no layout, however
      the short paragraphs are grouped, writes out to fewer. */
  lemma FewestChunks(text: string, maxChars: nat, overlap: nat)
    ensures var paragraphs := Paragraphs(text);
            var groups := Groups(paragraphs, [], maxChars);
            && Layout(groups, paragraphs, maxChars)
            && (forall i :: 0 <= i < |groups| ==> groups[i] != [])
            && Chunks(text, maxChars, overlap) == Kept(LaidOut(groups, maxChars, overlap))
    ensures forall other :: Layout(other, Paragraphs(text), maxChars) ==>
              && (forall i :: 0 <= i < |other| ==> other[i] != [])
              && |Chunks(text, maxChars, overlap)| <= |Kept(LaidOut(other, maxChars, overlap))|
  {
    var paragraphs := Paragraphs(text);
    StripAllTrims(Pieces(text, 0, 0));
    hide Paragraphs, Pack, Kept, Layout, LaidOut, Groups, Joined, Count, Trimmed, Cost;
    NoParagraphs(maxChars, overlap);
    GreedyLayout(paragraphs, [], maxChars, overlap);
    assert [] + paragraphs == paragraphs;
    CountIsPack(paragraphs, [], maxChars, overlap);
    forall other | Layout(other, paragraphs, maxChars)
      ensures forall i :: 0 <= i < |other| ==> other[i] != []
      ensures Count(paragraphs, [], maxChars, overlap) <= |Kept(LaidOut(other, maxChars, overlap))|
    {
      LayoutNonEmpty(other, paragraphs, maxChars);
      NoLayoutIsSmaller(other, paragraphs, maxChars, overlap);
      CostIsKept(other, paragraphs, maxChars, overlap);
    }
  }

  // ---------------------------------------------------------------- one run

  lemma {:induction false} ShortLayout(groups: seq<seq<string>>, run: seq<string>, maxChars: nat, overlap: nat)
    requires AllShort(run, maxChars) && Layout(groups, run, maxChars)
    requires forall i :: 0 <= i < |groups| ==> groups[i] != []
    ensures Cost(groups, maxChars, overlap) == |groups| == |LaidOut(groups, maxChars, overlap)|
  {
    if groups != [] {
      var g, rest := groups[0], run[|groups[0]|..];
      assert AllShort(rest, maxChars) && |g[0]| <= maxChars by { assert g[0] == run[0]; }
      SingleGroup(g[0]);
      assert |g| == 1 ==> g == [g[0]];
      hide Joined, Strip, Windows, AllShort;
      ShortLayout(groups[1..], rest, maxChars, overlap);
    }
  }

  /** A run of short paragraphs is packed into the fewest consecutive groups whose joined
      length fits. */
  lemma FewestGroups(run: seq<string>, maxChars: nat, overlap: nat)
    requires AllShort(run, maxChars)
    ensures var groups := Groups(run, [], maxChars);
            && Layout(groups, run, maxChars)
            && (forall i :: 0 <= i < |groups| ==> groups[i] != [])
            && Pack(run, [], maxChars, overlap) == LaidOut(groups, maxChars, overlap)
            && |Pack(run, [], maxChars, overlap)| == |groups|
            && forall other :: Layout(other, run, maxChars) ==> |groups| <= |other|
  {
    var groups := Groups(run, [], maxChars);
    hide Joined, Pack, Layout, Groups, LaidOut, Count, AllShort, Cost;
    NoParagraphs(maxChars, overlap);
    GreedyLayout(run, [], maxChars, overlap);
    assert [] + run == run;
    ShortLayout(groups, run, maxChars, overlap);
    CountIsCost(run, [], maxChars, overlap);
    assert OpenGroup([]) == [];
    forall other | Layout(other, run, maxChars) ensures |groups| <= |other| {
      LayoutNonEmpty(other, run, maxChars);
      NoLayoutIsSmaller(other, run, maxChars, overlap);
      ShortLayout(other, run, maxChars, overlap);
    }
  }

  /** The count is what the greedy layout comes to. */
  lemma {:induction false} CountIsCost(paragraphs: seq<string>, current: seq<string>, maxChars: nat, overlap: nat)
    requires |Joined(current)| <= maxChars
    ensures forall i :: 0 <= i < |Groups(paragraphs, current, maxChars)| ==>
            Groups(paragraphs, current, maxChars)[i] != []
    ensures Cost(Groups(paragraphs, current, maxChars), maxChars, overlap) ==
            Count(paragraphs, current, maxChars, overlap)
    decreases |paragraphs|
  {
    hide Joined, WindowCount;
    if paragraphs == [] {
      CostOpen(current, [], maxChars, overlap);
      assert OpenGroup(current) + [] == OpenGroup(current);
    } else {
      var p, rest := paragraphs[0], paragraphs[1..];
      JoinedStep(current, p);
      JoinedStep([], p);
      assert [] + [p] == [p];
      NoParagraphs(maxChars, overlap);
      hide Cost, OpenGroup;
      if |p| > maxChars {
        CountIsCost(rest, [], maxChars, overlap);
        CostLong(p, Groups(rest, [], maxChars), maxChars, overlap);
        CostOpen(current, [[p]] + Groups(rest, [], maxChars), maxChars, overlap);
        assert OpenGroup(current) + [[p]] + Groups(rest, [], maxChars) ==
               OpenGroup(current) + ([[p]] + Groups(rest, [], maxChars));
      } else if Overflows(current, p, maxChars) {
        CountIsCost(rest, [p], maxChars, overlap);
        CostOpen(current, Groups(rest, [p], maxChars), maxChars, overlap);
      } else {
        CountIsCost(rest, current + [p], maxChars, overlap);
      }
    }
  }

  lemma CostOpen(current: seq<string>, groups: seq<seq<string>>, maxChars: nat, overlap: nat)
    requires |Joined(current)| <= maxChars && forall i :: 0 <= i < |groups| ==> groups[i] != []
    ensures forall i :: 0 <= i < |OpenGroup(current) + groups| ==> (OpenGroup(current) + groups)[i] != []
    ensures Cost(OpenGroup(current) + groups, maxChars, overlap) == OpenCount(current) + Cost(groups, maxChars, overlap)
  {
    hide Joined, WindowCount;
    if current == [] {
      assert OpenGroup(current) + groups == groups;
    } else {
      assert ([current] + groups)[1..] == groups;
    }
  }

  lemma CostLong(p: string, groups: seq<seq<string>>, maxChars: nat, overlap: nat)
    requires |p| > maxChars && forall i :: 0 <= i < |groups| ==> groups[i] != []
    ensures Cost([[p]] + groups, maxChars, overlap) ==
            WindowCount(p, maxChars, overlap) + Cost(groups, maxChars, overlap)
  {
    SingleGroup(p);
    hide Joined, WindowCount;
    assert ([[p]] + groups)[1..] == groups;
  }
}
