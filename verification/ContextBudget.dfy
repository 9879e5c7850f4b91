/** Cutting a context block to a token budget by binary search. */
module ContextBudget {
  import opened Text

  const OVERHEAD := 64
  const MIN_BLOCK := 96
  const NOTICE := "\n\n[Context truncated to fit prompt budget.]"

  // ---------------------------------------------------------------- estimates

  /** A token for every four characters begun. */
  function TextTokens(length: nat): nat {
    (length + 3) / 4
  }

  function ContextTokens(length: nat): nat {
    TextTokens(length) + OVERHEAD
  }

  // ---------------------------------------------------------------- what fits

  /** The length of a prefix once stripped on the right. */
  function Kept(text: string, m: nat): nat
    requires m <= |text|
  {
    |RStrip(text[..m])|
  }

  /** The stripped prefix with the notice, nothing if nothing is left of it. */
  function Candidate(text: string, m: nat): string
    requires m <= |text|
  {
    var prefix := RStrip(text[..m]);
    if prefix == "" then "" else prefix + NOTICE
  }

  /** The longest stripped prefix that leaves room for the notice. */
  function Bound(budget: nat): int {
    4 * (budget - OVERHEAD) - |NOTICE|
  }

  predicate Fits(text: string, budget: nat, m: nat)
    requires m <= |text|
  {
    Candidate(text, m) != "" && ContextTokens(|Candidate(text, m)|) <= budget
  }

  /** The result is the longest stripped prefix with its notice that fits. */
  ghost predicate IsLongest(text: string, budget: nat, result: string) {
    if result == "" then forall m: nat :: m <= |text| ==> !Fits(text, budget, m)
    else exists m: nat :: m <= |text| && IsLongestAt(text, budget, result, m)
  }

  ghost predicate IsLongestAt(text: string, budget: nat, result: string, m: nat)
    requires m <= |text|
  {
    && result == Candidate(text, m) && Fits(text, budget, m)
    && forall other: nat :: other <= |text| && Fits(text, budget, other) ==> |Candidate(text, other)| <= |result|
  }

  /** How much whitespace the text starts with. */
  function Leading(text: string): nat {
    if text == "" || !IsSpace(text[0]) then 0 else 1 + Leading(text[1..])
  }

  /** The last prefix, of at most m characters, that is not too long. */
  function CutFrom(text: string, m: nat, bound: nat): nat
    requires m <= |text|
  {
    if m == 0 || Kept(text, m) <= bound then m else CutFrom(text, m - 1, bound)
  }

  function Cut(text: string, budget: nat): nat
    requires budget >= MIN_BLOCK
  {
    CutFrom(text, |text|, Bound(budget))
  }

  /** The first length at or below the cut that halving from high arrives at. */
  function FirstProbe(high: nat, cut: nat): nat
    requires cut <= high
  {
    if high / 2 <= cut then high / 2 else FirstProbe(high / 2 - 1, cut)
  }

  // ---------------------------------------------------------------- facts

  /** The fewest tokens of four characters that hold the text. */
  lemma TokensAre(length: nat, tokens: nat)
    ensures tokens >= TextTokens(length) <==> 4 * tokens >= length
  {
  }

  lemma NoticeLength()
    ensures |NOTICE| == 43
  {
  }

  /** A cut block: the text up to its last character before the cut that is not whitespace,
      with the notice; nothing if there is none. */
  lemma CandidateIs(text: string, m: nat, j: nat)
    requires j <= m <= |text| && Blank(text[j..m]) && (j > 0 ==> !IsSpace(text[j - 1]))
    ensures Candidate(text, m) ==
            if j == 0 then "" else text[..j] + "\n\n[Context truncated to fit prompt budget.]"
  {
    RStripTo(text[..m], j);
    assert text[..m][j..] == text[j..m] && text[..m][..j] == text[..j];
    hide RStrip, IsSpace;
  }

  lemma {:induction false} RStripTo(s: string, j: nat)
    requires j <= |s| && Blank(s[j..]) && (j > 0 ==> !IsSpace(s[j - 1]))
    ensures RStrip(s) == s[..j]
  {
    hide IsSpace;
    if j < |s| {
      var front := s[..|s| - 1];
      assert s[j..][|s| - 1 - j] == s[|s| - 1] && front[j..] == s[j..][..|s| - 1 - j] && front[..j] == s[..j];
      RStripTo(front, j);
    } else {
      assert s[..j] == s;
    }
  }

  lemma FitsIsBound(text: string, budget: nat, m: nat)
    requires m <= |text|
    ensures Fits(text, budget, m) <==> 0 < Kept(text, m) <= Bound(budget)
  {
    NoticeLength();
    hide RStrip;
  }

  lemma {:induction false} KeptGrows(text: string, i: nat, j: nat)
    requires i <= j <= |text|
    ensures Kept(text, i) <= Kept(text, j) <= j
    decreases j
  {
    hide IsSpace;
    if i < j {
      KeptGrows(text, i, j - 1);
      assert text[..j][..j - 1] == text[..j - 1];
    } else if j > 0 {
      KeptGrows(text, j - 1, j - 1);
      assert text[..j][..j - 1] == text[..j - 1];
    }
  }

  lemma {:induction false} LeadingIs(text: string)
    ensures Leading(text) <= |text|
    ensures forall i :: 0 <= i < Leading(text) ==> IsSpace(text[i])
    ensures Leading(text) < |text| ==> !IsSpace(text[Leading(text)])
  {
    hide IsSpace;
    if text != "" && IsSpace(text[0]) {
      LeadingIs(text[1..]);
      forall i | 0 <= i < Leading(text) ensures IsSpace(text[i]) { assert i == 0 || text[i] == text[1..][i - 1]; }
    }
  }

  lemma {:induction false} BlankPrefix(text: string, m: nat)
    requires m <= Leading(text)
    ensures m <= |text| && Kept(text, m) == 0
  {
    LeadingIs(text);
    hide IsSpace, Leading;
    if m > 0 {
      BlankPrefix(text, m - 1);
      assert text[..m][..m - 1] == text[..m - 1];
    }
  }

  /** A stripped prefix is empty exactly while it is within the leading whitespace. */
  lemma KeptNothing(text: string, m: nat)
    requires m <= |text|
    ensures Kept(text, m) == 0 <==> m <= Leading(text)
  {
    LeadingIs(text);
    hide IsSpace, Leading, Kept;
    if m <= Leading(text) {
      BlankPrefix(text, m);
    } else {
      KeptGrows(text, Leading(text) + 1, m);
      EndsInInk(text, Leading(text));
    }
  }

  lemma EndsInInk(text: string, at: nat)
    requires at < |text| && !IsSpace(text[at])
    ensures Kept(text, at + 1) == at + 1
  {
    hide IsSpace;
  }

  lemma {:induction false} CutIs(text: string, m: nat, bound: nat)
    requires m <= |text|
    ensures CutFrom(text, m, bound) <= m && Kept(text, CutFrom(text, m, bound)) <= bound
    ensures forall i: nat :: CutFrom(text, m, bound) < i <= m ==> Kept(text, i) > bound
    ensures m >= bound ==> CutFrom(text, m, bound) >= bound
  {
    KeptGrows(text, m, m);
    hide Kept;
    if m == 0 {
      KeptGrows(text, 0, 0);
    } else if Kept(text, m) > bound {
      CutIs(text, m - 1, bound);
    }
  }

  lemma BoundRoom(budget: nat)
    requires budget >= MIN_BLOCK
    ensures Bound(budget) >= 85
  {
    NoticeLength();
  }

  /** Exactly the prefixes past the leading whitespace and up to the cut fit. */
  lemma FitsBetween(text: string, budget: nat, m: nat)
    requires budget >= MIN_BLOCK && m <= |text|
    ensures Cut(text, budget) <= |text|
    ensures Fits(text, budget, m) <==> Leading(text) < m <= Cut(text, budget)
  {
    hide Kept, Fits, Leading, CutFrom;
    BoundRoom(budget);
    FitsIsBound(text, budget, m);
    KeptNothing(text, m);
    CutIs(text, |text|, Bound(budget));
    if m <= Cut(text, budget) { KeptGrows(text, m, Cut(text, budget)); }
  }

  lemma {:induction false} ProbeBetween(high: nat, cut: nat)
    requires cut <= high
    ensures cut / 2 <= FirstProbe(high, cut) <= cut
  {
    if high / 2 > cut { ProbeBetween(high / 2 - 1, cut); }
  }

  // ---------------------------------------------------------------- the program

  /** The block as is when it fits, else cut; with whether it was cut and its tokens. */
  method FitTextToContextBudget(text: string, tokenBudget: int) returns (fitted: string, cutShort: bool, tokens: nat)
    ensures var budget: nat := if tokenBudget > 0 then tokenBudget else 0;
            && tokens <= budget
            && (fitted != "" || !cutShort ==> tokens == ContextTokens(|fitted|))
            && (cutShort <==> ContextTokens(|text|) > budget)
            && (!cutShort ==> fitted == text)
            && (cutShort && budget < MIN_BLOCK ==> fitted == "")
            && (cutShort && budget >= MIN_BLOCK ==>
                  var cut := Cut(text, budget);
                  && cut <= |text|
                  && fitted == if FirstProbe(|text|, cut) > Leading(text) then Candidate(text, cut) else "")
  {
    var budget: nat := if tokenBudget > 0 then tokenBudget else 0;
    var currentTokens := ContextTokens(|text|);
    if currentTokens <= budget { return text, false, currentTokens; }
    if budget < MIN_BLOCK { return "", true, 0; }
    FitsBetween(text, budget, 0);
    fitted, tokens := Halve(text, budget);
    cutShort := true;
  }

  lemma ProbeStep(high: nat, cut: nat)
    requires cut <= high
    ensures if high / 2 <= cut then FirstProbe(high, cut) == high / 2
            else cut <= high / 2 - 1 && FirstProbe(high, cut) == FirstProbe(high / 2 - 1, cut)
  {
  }

  lemma FitsAgain(text: string, budget: nat, m: nat)
    requires m <= |text|
    ensures Candidate(text, m) != "" && ContextTokens(|Candidate(text, m)|) <= budget <==> Fits(text, budget, m)
  {
  }

  /** How far the search is: still above the cut, past the leading whitespace for good, or
      lost in it. */
  datatype Phase = Above | Found | Lost

  ghost predicate Searching(phase: Phase, text: string, low: int, high: int, best: string, cut: nat, spaces: nat,
                            probe: nat)
    requires cut <= |text|
  {
    match phase
    case Above => low == 0 && best == "" && cut <= high && probe == FirstProbe(high, cut)
    case Found => spaces < probe && spaces < low - 1 <= cut <= high && best == Candidate(text, low - 1)
    case Lost => probe <= spaces && high <= spaces && best == ""
  }

  /** The binary search over prefix lengths. */
  method Halve(text: string, budget: nat) returns (best: string, tokens: nat)
    requires budget >= MIN_BLOCK
    ensures var cut := Cut(text, budget);
            cut <= |text| && best == if FirstProbe(|text|, cut) > Leading(text) then Candidate(text, cut) else ""
    ensures tokens <= budget && (best != "" ==> tokens == ContextTokens(|best|))
  {
    hide *;
    best, tokens := "", 0;
    var low: int, high: int := 0, |text|;
    ghost var cut, spaces := Cut(text, budget), Leading(text);
    FitsBetween(text, budget, 0);
    ghost var probe, phase := FirstProbe(|text|, cut), Above;
    assert Searching(phase, text, low, high, best, cut, spaces, probe) by { StartSearch(text, cut, spaces); }
    while low <= high
      invariant 0 <= low && -1 <= high <= |text|
      invariant tokens <= budget && (best != "" ==> tokens == ContextTokens(|best|))
      invariant Searching(phase, text, low, high, best, cut, spaces, probe)
      decreases high - low
    {
      var middle := (low + high) / 2;
      FitsBetween(text, budget, middle);
      FitsAgain(text, budget, middle);
      var candidate := Candidate(text, middle);
      ghost var before := phase;
      if phase == Above && middle <= cut { phase := if middle > spaces then Found else Lost; }
      SearchStep(before, phase, text, low, high, best, cut, spaces, probe, middle);
      if candidate != "" && ContextTokens(|candidate|) <= budget {
        best, tokens := candidate, ContextTokens(|candidate|);
        low := middle + 1;
      } else {
        high := middle - 1;
      }
    }
    SearchDone(phase, text, low, high, best, cut, spaces, probe);
  }

  lemma StartSearch(text: string, cut: nat, spaces: nat)
    requires cut <= |text|
    ensures Searching(Above, text, 0, |text|, "", cut, spaces, FirstProbe(|text|, cut))
  {
  }

  lemma SearchStep(before: Phase, phase: Phase, text: string, low: int, high: int, best: string,
                   cut: nat, spaces: nat, probe: nat, middle: nat)
    requires cut <= |text| && 0 <= low <= high <= |text| && middle == (low + high) / 2
    requires Searching(before, text, low, high, best, cut, spaces, probe)
    requires phase == if before == Above && middle <= cut then (if middle > spaces then Found else Lost) else before
    ensures low <= middle <= high
    ensures if spaces < middle <= cut
            then Searching(phase, text, middle + 1, high, Candidate(text, middle), cut, spaces, probe)
            else Searching(phase, text, low, middle - 1, best, cut, spaces, probe)
  {
    hide Candidate, FirstProbe;
    if before == Above { ProbeStep(high, cut); }
  }

  lemma SearchDone(phase: Phase, text: string, low: int, high: int, best: string, cut: nat, spaces: nat, probe: nat)
    requires cut <= |text| && low > high && Searching(phase, text, low, high, best, cut, spaces, probe)
    ensures best == if probe > spaces then Candidate(text, cut) else ""
  {
    hide Candidate, FirstProbe;
  }

  // ---------------------------------------------------------------- when it is the longest

  lemma CandidateGrows(text: string, i: nat, j: nat)
    requires i <= j <= |text|
    ensures |Candidate(text, i)| <= |Candidate(text, j)|
  {
    KeptGrows(text, i, j);
    hide RStrip;
  }

  lemma CutIsLongest(text: string, budget: nat)
    requires budget >= MIN_BLOCK
    ensures Cut(text, budget) <= |text|
    ensures Leading(text) < Cut(text, budget) ==> IsLongest(text, budget, Candidate(text, Cut(text, budget)))
    ensures IsLongest(text, budget, "") <==> Cut(text, budget) <= Leading(text)
  {
    hide Candidate, Leading, CutFrom, Cut;
    FitsBetween(text, budget, 0);
    var cut := Cut(text, budget);
    FitsBetween(text, budget, cut);
    forall m: nat | m <= |text| ensures Fits(text, budget, m) <==> Leading(text) < m <= cut {
      FitsBetween(text, budget, m);
    }
    if Leading(text) < cut {
      forall m: nat | m <= |text| && Fits(text, budget, m) ensures |Candidate(text, m)| <= |Candidate(text, cut)| {
        CandidateGrows(text, m, cut);
      }
      assert IsLongestAt(text, budget, Candidate(text, cut), cut);
    }
  }

  /** What the search returns for a text over a budget of at least MIN_BLOCK. */
  function SearchResult(text: string, budget: nat): string
    requires budget >= MIN_BLOCK && Cut(text, budget) <= |text|
  {
    if FirstProbe(|text|, Cut(text, budget)) > Leading(text) then Candidate(text, Cut(text, budget)) else ""
  }

  /** The search finds the longest prefix that fits exactly when nothing fits or its first
      probe at or below the cut lies past the leading whitespace. */
  lemma LongestExactlyWhen(text: string, budget: nat)
    requires budget >= MIN_BLOCK
    ensures var cut := Cut(text, budget);
            && cut <= |text|
            && (IsLongest(text, budget, SearchResult(text, budget)) <==>
                cut <= Leading(text) || FirstProbe(|text|, cut) > Leading(text))
  {
    hide Candidate, Leading, Cut, FirstProbe, IsLongest;
    CutIsLongest(text, budget);
    ProbeBetween(|text|, Cut(text, budget));
  }

  /** A text with at most 41 leading whitespace characters is always cut to the longest. */
  lemma FewSpacesLongest(text: string, budget: nat)
    requires budget >= MIN_BLOCK && ContextTokens(|text|) > budget && Leading(text) <= 41
    ensures Cut(text, budget) <= |text| && SearchResult(text, budget) != ""
    ensures IsLongest(text, budget, SearchResult(text, budget))
  {
    hide Candidate, Leading, Kept, CutFrom, FirstProbe, IsLongest, Fits;
    BoundRoom(budget);
    NoticeLength();
    CutIs(text, |text|, Bound(budget));
    LongestExactlyWhen(text, budget);
    ProbeBetween(|text|, Cut(text, budget));
    FitsBetween(text, budget, Cut(text, budget));
    FitsAgain(text, budget, Cut(text, budget));
  }

  /** Sixty-five spaces and as many letters, at the least budget, come back empty
      although eighty-five characters would fit. */
  lemma SpacesLoseTheText(text: string)
    requires |text| == 130 && (forall i :: 0 <= i < 65 ==> text[i] == ' ')
             && (forall i :: 65 <= i < 130 ==> text[i] == 'x')
    ensures ContextTokens(|text|) > MIN_BLOCK
    ensures Cut(text, MIN_BLOCK) == 85 && Fits(text, MIN_BLOCK, 85) && SearchResult(text, MIN_BLOCK) == ""
  {
    LeadingIs(text);
    assert text[64] == ' ' && text[65] == 'x';
    assert IsSpace(' ') && !IsSpace('x');
    var spaces := Leading(text);
    assert spaces == 65 by { assert spaces < 130 ==> !IsSpace(text[spaces]); }
    NoticeLength();
    assert Bound(MIN_BLOCK) == 85;
    hide IsSpace, Leading, Kept, Candidate, Fits, CutFrom;
    assert !IsSpace(text[84]) && !IsSpace(text[85]);
    EndsInInk(text, 85);
    CutIs(text, |text|, 85);
    var cut := Cut(text, MIN_BLOCK);
    if cut > 85 { KeptGrows(text, 86, cut); }
    FitsBetween(text, MIN_BLOCK, 85);
    assert FirstProbe(130, 85) == 65;
  }
}
