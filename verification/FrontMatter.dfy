/** Dropping a leading table of contents from extracted text. */
module FrontMatter {

  /** What the patterns make of a line: an entry that starts with a section number, a
      page number or lecture marker on its own, or anything else. */
  datatype Line = Blank | Numbered(leading: nat) | Marker | Prose

  // ---------------------------------------------------------------- specification

  /** How many numbered lines. */
  function Entries(lines: seq<Line>): nat {
    if lines == [] then 0
    else Entries(lines[..|lines| - 1]) + if lines[|lines| - 1].Numbered? then 1 else 0
  }

  /** The number of the last numbered line, 0 without one. */
  function LastNumber(lines: seq<Line>): nat {
    if lines == [] then 0
    else if lines[|lines| - 1].Numbered? then lines[|lines| - 1].leading
    else LastNumber(lines[..|lines| - 1])
  }

  /** No prose after the first numbered line, and the numbers never go back. */
  predicate Contents(lines: seq<Line>) {
    lines == [] ||
    var before, last := lines[..|lines| - 1], lines[|lines| - 1];
    Contents(before) && (last.Prose? ==> Entries(before) == 0)
      && (last.Numbered? ==> last.leading >= LastNumber(before))
  }

  /** The numbering goes back at line s. */
  predicate Restarts(lines: seq<Line>, s: nat) {
    s < |lines| && lines[s].Numbered? && lines[s].leading < LastNumber(lines[..s])
  }

  /** The numbered lines end just before line s. */
  predicate Ends(lines: seq<Line>, s: nat) {
    0 < s <= |lines| && lines[s - 1].Numbered? && Entries(lines[..s]) >= 2 && Entries(lines) == Entries(lines[..s])
  }

  /** A table of contents stretches exactly to line s. */
  predicate Block(lines: seq<Line>, s: nat) {
    0 < s <= |lines| && Contents(lines[..s]) && Entries(lines[..s]) > 0 && (Restarts(lines, s) || Ends(lines, s))
  }

  // ---------------------------------------------------------------- the scan

  lemma {:induction false} PrefixFacts(lines: seq<Line>, i: nat, j: nat)
    requires i <= j <= |lines|
    ensures Contents(lines[..j]) ==> Contents(lines[..i])
    ensures Entries(lines[..i]) <= Entries(lines[..j])
    decreases j
  {
    if i < j {
      assert lines[..j][..j - 1] == lines[..j - 1];
      PrefixFacts(lines, i, j - 1);
    }
  }

  lemma Step(lines: seq<Line>, i: nat)
    requires i < |lines|
    ensures Entries(lines[..i + 1]) == Entries(lines[..i]) + if lines[i].Numbered? then 1 else 0
    ensures LastNumber(lines[..i + 1]) == if lines[i].Numbered? then lines[i].leading else LastNumber(lines[..i])
    ensures Contents(lines[..i + 1]) <==>
            Contents(lines[..i]) && (lines[i].Prose? ==> Entries(lines[..i]) == 0)
            && (lines[i].Numbered? ==> lines[i].leading >= LastNumber(lines[..i]))
  {
    assert lines[..i + 1][..i] == lines[..i];
  }

  lemma {:induction false} NoneNumbered(lines: seq<Line>)
    requires Entries(lines) == 0
    ensures LastNumber(lines) == 0
  {
    if lines != [] { NoneNumbered(lines[..|lines| - 1]); }
  }

  /** Where the text kept starts: 0 keeps everything. */
  method StripFrontMatter(lines: seq<Line>) returns (start: nat)
    ensures start > 0 ==> Block(lines, start)
    ensures start == 0 ==> forall s :: !Block(lines, s)
  {
    var tocEnd: nat := 0;
    var lastNumber: nat := 0;
    var numberedSeen: nat := 0;
    var proseSinceHeading := false;
    for index: nat := 0 to |lines|
      invariant numberedSeen == Entries(lines[..index]) && lastNumber == LastNumber(lines[..index])
      invariant tocEnd <= index && (numberedSeen == 0 <==> tocEnd == 0)
      invariant tocEnd > 0 ==> lines[tocEnd - 1].Numbered? && Entries(lines[..tocEnd]) == numberedSeen
      invariant Contents(lines[..tocEnd]) && (proseSinceHeading <==> !Contents(lines[..index]))
      invariant proseSinceHeading ==> numberedSeen > 0
    {
      Step(lines, index);
      hide Entries, LastNumber, Contents;
      match lines[index] {
        case Blank =>
        case Numbered(leading) =>
          if numberedSeen >= 1 {
            if proseSinceHeading {
              NothingStripped(lines, tocEnd, index);
              return 0;
            }
            if leading < lastNumber {
              EntriesLeaveLines(lines[..index]);
              return index;
            }
          } else {
            NoneNumbered(lines[..index]);
          }
          numberedSeen := numberedSeen + 1;
          lastNumber := leading;
          tocEnd := index + 1;
          proseSinceHeading := false;
        case Marker =>
        case Prose =>
          if numberedSeen > 0 { proseSinceHeading := true; }
      }
    }
    assert lines[..|lines|] == lines;
    hide Entries, LastNumber, Contents;
    if numberedSeen >= 2 && tocEnd > 0 { return tocEnd; }
    forall s: nat ensures !Block(lines, s) { TooFew(lines, s); }
    return 0;
  }

  lemma EntriesLeaveLines(lines: seq<Line>)
    ensures Entries(lines) > 0 ==> lines != []
  {
  }

  /** Prose between two numbered lines of a run rules out any block. */
  lemma NothingStripped(lines: seq<Line>, tocEnd: nat, index: nat)
    requires 0 < tocEnd <= index < |lines| && lines[index].Numbered?
    requires Contents(lines[..tocEnd]) && !Contents(lines[..index])
    requires Entries(lines[..tocEnd]) == Entries(lines[..index])
    requires lines[tocEnd - 1].Numbered?
    ensures forall s :: !Block(lines, s)
  {
    hide Entries, LastNumber, Contents;
    forall s: nat | s <= |lines| ensures !Block(lines, s) {
      if s > index - 1 {
        if index <= s { PrefixFacts(lines, index, s); }
      } else {
        Between(lines, tocEnd, index, s);
      }
    }
  }

  lemma Between(lines: seq<Line>, tocEnd: nat, index: nat, s: nat)
    requires 0 < tocEnd <= index < |lines| && lines[index].Numbered? && lines[tocEnd - 1].Numbered?
    requires Contents(lines[..tocEnd]) && Entries(lines[..tocEnd]) == Entries(lines[..index]) && s < index
    ensures !Block(lines, s)
  {
    hide Entries, LastNumber, Contents;
    Step(lines, index);
    Step(lines, s);
    PrefixFacts(lines, index + 1, |lines|);
    PrefixFacts(lines, s, index);
    assert lines[..|lines|] == lines;
    if s < tocEnd {
      PrefixFacts(lines, s + 1, tocEnd);
    } else {
      PrefixFacts(lines, tocEnd, s);
      PrefixFacts(lines, s + 1, index);
    }
  }

  lemma TooFew(lines: seq<Line>, s: nat)
    requires Entries(lines) < 2
    ensures !Block(lines, s)
  {
    hide Contents;
    if 0 < s < |lines| {
      Step(lines, s);
      PrefixFacts(lines, s + 1, |lines|);
      assert lines[..|lines|] == lines;
    }
  }

  // ---------------------------------------------------------------- what is dropped

  /** A text has at most one block. */
  lemma BlockUnique(lines: seq<Line>, s: nat, t: nat)
    requires Block(lines, s) && Block(lines, t)
    ensures s == t
  {
    if s < t { NotTwo(lines, s, t); } else if t < s { NotTwo(lines, t, s); }
  }

  lemma NotTwo(lines: seq<Line>, s: nat, t: nat)
    requires s < t && Block(lines, s)
    ensures !Block(lines, t)
  {
    hide Contents, Entries, LastNumber;
    if t <= |lines| {
      Step(lines, s);
      PrefixFacts(lines, s + 1, t);
      assert lines[..|lines|] == lines;
      PrefixFacts(lines, s, t);
      PrefixFacts(lines, t, |lines|);
      Step(lines, t - 1);
      PrefixFacts(lines, s, t - 1);
      if t < |lines| {
        Step(lines, t);
        PrefixFacts(lines, t + 1, |lines|);
      }
    }
  }

  /** Of what is dropped, only lines before the first entry can be prose. */
  lemma DroppedProse(lines: seq<Line>, s: nat, i: nat)
    requires Block(lines, s) && i < s && lines[i].Prose?
    ensures Entries(lines[..i]) == 0
  {
    hide Entries, LastNumber;
    Step(lines, i);
    PrefixFacts(lines, i + 1, s);
  }

  ghost predicate LosesProse(lines: seq<Line>, s: nat)
    requires s <= |lines|
  {
    exists i :: 0 <= i < s && lines[i].Prose?
  }

  /** Prose before the first numbered line. */
  ghost predicate HasPreamble(lines: seq<Line>) {
    exists i :: 0 <= i < |lines| && lines[i].Prose? && Entries(lines[..i]) == 0
  }

  /** Stripping a contents block loses prose exactly when the text opens with some. */
  lemma PreambleLost(lines: seq<Line>, s: nat)
    requires Block(lines, s)
    ensures LosesProse(lines, s) <==> HasPreamble(lines)
  {
    hide Entries, Contents, LastNumber;
    if i :| 0 <= i < s && lines[i].Prose? {
      DroppedProse(lines, s, i);
    }
    if i :| 0 <= i < |lines| && lines[i].Prose? && Entries(lines[..i]) == 0 {
      if i >= s { PrefixFacts(lines, s, i); }
    }
  }

  /** A title line above a contents list of two entries goes with the list. */
  lemma TitleDropped()
    ensures var lines := [Prose, Numbered(1), Numbered(2)];
            Block(lines, 3) && LosesProse(lines, 3)
  {
    var lines := [Prose, Numbered(1), Numbered(2)];
    Step(lines, 0);
    Step(lines, 1);
    Step(lines, 2);
    assert lines[..3] == lines && lines[0].Prose?;
  }

  // ---------------------------------------------------------------- what a block is

  predicate IsNumbered(lines: seq<Line>, i: nat) {
    i < |lines| && lines[i].Numbered?
  }

  predicate IsProse(lines: seq<Line>, i: nat) {
    i < |lines| && lines[i].Prose?
  }

  /** The numbers up to line s never go back, and no prose comes after the first. */
  ghost predicate RunsUpTo(lines: seq<Line>, s: nat) {
    && (forall i: nat, j: nat :: i < j < s && IsNumbered(lines, i) ==> !IsProse(lines, j))
    && (forall i: nat, j: nat :: i < j < s && IsNumbered(lines, i) && IsNumbered(lines, j) ==>
          lines[i].leading <= lines[j].leading)
  }

  /** Some number before line s is larger than the one there. */
  ghost predicate GoesBack(lines: seq<Line>, s: nat) {
    IsNumbered(lines, s) && exists i: nat :: i < s && IsNumbered(lines, i) && lines[i].leading > lines[s].leading
  }

  /** Line s comes after the last of at least two numbers. */
  ghost predicate IsLast(lines: seq<Line>, s: nat) {
    && s > 0 && IsNumbered(lines, s - 1)
    && (exists i: nat :: i < s - 1 && IsNumbered(lines, i))
    && forall i: nat :: i >= s ==> !IsNumbered(lines, i)
  }

  /** Numbered lines there are, and how many can be told apart. */
  lemma {:induction false} EntriesAre(lines: seq<Line>, n: nat)
    requires n <= |lines|
    ensures Entries(lines[..n]) >= 1 <==> exists i: nat :: i < n && IsNumbered(lines, i)
    decreases n
  {
    if n > 0 {
      Step(lines, n - 1);
      EntriesAre(lines, n - 1);
      hide Entries;
      if IsNumbered(lines, n - 1) {
      } else if i: nat :| i < n && IsNumbered(lines, i) {
        assert i < n - 1;
      }
    }
  }

  lemma {:induction false} NoneFrom(lines: seq<Line>, s: nat, n: nat)
    requires s <= n <= |lines|
    ensures Entries(lines[..n]) == Entries(lines[..s]) <==> forall i: nat :: s <= i < n ==> !IsNumbered(lines, i)
    decreases n
  {
    if s < n {
      Step(lines, n - 1);
      NoneFrom(lines, s, n - 1);
      PrefixFacts(lines, s, n - 1);
      hide Entries;
      if !IsNumbered(lines, n - 1) {
        assert forall i: nat :: s <= i < n ==> (!IsNumbered(lines, i) <==> i == n - 1 || !IsNumbered(lines, i));
      }
    }
  }

  /** While the numbers do not go back the last is the largest. */
  ghost predicate IsLargest(lines: seq<Line>, s: nat, last: nat) {
    && (forall i: nat :: i < s && IsNumbered(lines, i) ==> lines[i].leading <= last)
    && ((exists i: nat :: i < s && IsNumbered(lines, i)) ==>
          exists i: nat :: i < s && IsNumbered(lines, i) && lines[i].leading == last)
  }

  lemma LargestNext(lines: seq<Line>, s: nat, last: nat, next: nat)
    requires s < |lines| && IsLargest(lines, s, last)
    requires next == if lines[s].Numbered? then lines[s].leading else last
    requires lines[s].Numbered? ==> next >= last
    ensures IsLargest(lines, s + 1, next)
  {
    if lines[s].Numbered? {
      assert IsNumbered(lines, s);
    } else if i: nat :| i < s + 1 && IsNumbered(lines, i) {
      assert i < s;
    }
  }

  lemma RunsNext(lines: seq<Line>, s: nat, last: nat)
    requires s < |lines| && RunsUpTo(lines, s) && IsLargest(lines, s, last)
    ensures RunsUpTo(lines, s + 1) <==>
            && (lines[s].Prose? ==> forall i: nat :: i < s ==> !IsNumbered(lines, i))
            && (lines[s].Numbered? && (exists i: nat :: i < s && IsNumbered(lines, i)) ==> lines[s].leading >= last)
  {
    if RunsUpTo(lines, s + 1) {
      if IsProse(lines, s) {
        forall i: nat | i < s ensures !IsNumbered(lines, i) {}
      }
      if IsNumbered(lines, s) && exists i: nat :: i < s && IsNumbered(lines, i) {
        var i: nat :| i < s && IsNumbered(lines, i) && lines[i].leading == last;
      }
    }
  }

  lemma RunsShorter(lines: seq<Line>, s: nat)
    ensures RunsUpTo(lines, s + 1) ==> RunsUpTo(lines, s)
  {
  }

  lemma {:induction false} ContentsRun(lines: seq<Line>, s: nat)
    requires s <= |lines|
    ensures Contents(lines[..s]) <==> RunsUpTo(lines, s)
    ensures Contents(lines[..s]) ==> IsLargest(lines, s, LastNumber(lines[..s]))
    decreases s
  {
    if s > 0 {
      Step(lines, s - 1);
      ContentsRun(lines, s - 1);
      EntriesAre(lines, s - 1);
      NoneIsZero(lines, s - 1);
      RunsShorter(lines, s - 1);
      hide Contents, LastNumber, Entries, RunsUpTo;
      if Contents(lines[..s - 1]) {
        RunsNext(lines, s - 1, LastNumber(lines[..s - 1]));
        if Contents(lines[..s]) { LargestNext(lines, s - 1, LastNumber(lines[..s - 1]), LastNumber(lines[..s])); }
      }
    }
  }

  lemma NoneIsZero(lines: seq<Line>, s: nat)
    requires s <= |lines|
    ensures Entries(lines[..s]) == 0 ==> LastNumber(lines[..s]) == 0
  {
    if Entries(lines[..s]) == 0 { NoneNumbered(lines[..s]); }
  }

  lemma RestartsGoBack(lines: seq<Line>, s: nat)
    requires s <= |lines| && Contents(lines[..s]) && Entries(lines[..s]) > 0
    ensures Restarts(lines, s) <==> GoesBack(lines, s)
  {
    ContentsRun(lines, s);
    EntriesAre(lines, s);
    hide Contents, LastNumber, Entries, RunsUpTo;
  }

  lemma EndsIsLast(lines: seq<Line>, s: nat)
    requires s <= |lines|
    ensures Ends(lines, s) <==> IsLast(lines, s)
  {
    if s > 0 && lines[s - 1].Numbered? {
      Step(lines, s - 1);
      EntriesAre(lines, s - 1);
      NoneFrom(lines, s, |lines|);
      assert lines[..|lines|] == lines;
      hide Entries;
      assert forall i: nat :: i >= |lines| ==> !IsNumbered(lines, i);
    }
  }

  /** A contents block: up to it at least one number, none that goes back and no prose
      after the first; then a number that goes back, or no further number after two. */
  lemma BlockMeans(lines: seq<Line>, s: nat)
    ensures Block(lines, s) <==>
            && s <= |lines| && RunsUpTo(lines, s)
            && (exists i: nat :: i < s && IsNumbered(lines, i))
            && (GoesBack(lines, s) || IsLast(lines, s))
  {
    if s <= |lines| {
      ContentsRun(lines, s);
      EntriesAre(lines, s);
      EndsIsLast(lines, s);
      if Contents(lines[..s]) && Entries(lines[..s]) > 0 { RestartsGoBack(lines, s); }
      hide Contents, Entries, RunsUpTo, GoesBack, IsLast, Restarts, Ends;
    }
  }
}
