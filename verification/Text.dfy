/** Whitespace, stripping and the ink of a text: its characters that are not whitespace. */
module Text {

  /** The characters that strip() and the pattern \s treat as whitespace. */
  predicate IsSpace(c: char) {
    || c == ' ' || '\t' <= c <= '\r' || '\U{1c}' <= c <= '\U{1f}'
    || c == '\U{85}' || c == '\U{a0}' || c == '\U{1680}' || '\U{2000}' <= c <= '\U{200a}'
    || c == '\U{2028}' || c == '\U{2029}' || c == '\U{202f}' || c == '\U{205f}' || c == '\U{3000}'
  }

  ghost predicate Blank(s: string) {
    forall i :: 0 <= i < |s| ==> IsSpace(s[i])
  }

  function LStrip(s: string): string {
    if s == "" || !IsSpace(s[0]) then s else LStrip(s[1..])
  }

  function RStrip(s: string): string {
    if s == "" || !IsSpace(s[|s| - 1]) then s else RStrip(s[..|s| - 1])
  }

  function Strip(s: string): string {
    RStrip(LStrip(s))
  }

  /** The text with whitespace removed. */
  ghost function Ink(s: string): string {
    if s == "" then ""
    else (if IsSpace(s[0]) then "" else [s[0]]) + Ink(s[1..])
  }

  lemma {:induction false} InkJoin(s: string, t: string)
    ensures Ink(s + t) == Ink(s) + Ink(t)
  {
    hide IsSpace;
    if s == "" {
      assert s + t == t;
    } else {
      assert (s + t)[1..] == s[1..] + t;
      InkJoin(s[1..], t);
    }
  }

  lemma {:induction false} BlankHasNoInk(s: string)
    requires Blank(s)
    ensures Ink(s) == ""
  {
    hide IsSpace;
    if s != "" { BlankHasNoInk(s[1..]); }
  }

  lemma {:induction false} NoInkIsBlank(s: string)
    requires Ink(s) == ""
    ensures Blank(s)
  {
    hide IsSpace;
    if s != "" {
      NoInkIsBlank(s[1..]);
      assert forall i :: 1 <= i < |s| ==> s[i] == s[1..][i - 1];
    }
  }

  lemma {:induction false} InkOfLStrip(s: string)
    ensures Ink(LStrip(s)) == Ink(s) && |LStrip(s)| <= |s|
  {
    hide IsSpace;
    if s != "" && IsSpace(s[0]) { InkOfLStrip(s[1..]); }
  }

  lemma {:induction false} InkOfRStrip(s: string)
    ensures Ink(RStrip(s)) == Ink(s) && |RStrip(s)| <= |s|
  {
    hide IsSpace;
    if s != "" && IsSpace(s[|s| - 1]) {
      var n := |s| - 1;
      InkOfRStrip(s[..n]);
      InkJoin(s[..n], s[n..]);
      assert s == s[..n] + s[n..];
      BlankHasNoInk(s[n..]);
    }
  }

  /** Stripping removes whitespace only. */
  lemma InkOfStrip(s: string)
    ensures Ink(Strip(s)) == Ink(s) && |Strip(s)| <= |s|
  {
    hide LStrip, RStrip, Ink;
    InkOfLStrip(s);
    InkOfRStrip(LStrip(s));
  }

  lemma {:induction false} LStripStart(s: string)
    ensures LStrip(s) != "" ==> !IsSpace(LStrip(s)[0])
  {
    hide IsSpace;
    if s != "" && IsSpace(s[0]) { LStripStart(s[1..]); }
  }

  lemma {:induction false} RStripKeepsStart(s: string)
    ensures RStrip(s) <= s
    ensures RStrip(s) != "" ==> !IsSpace(RStrip(s)[|RStrip(s)| - 1])
  {
    hide IsSpace;
    if s != "" && IsSpace(s[|s| - 1]) { RStripKeepsStart(s[..|s| - 1]); }
  }

  /** A text that neither starts nor ends with whitespace. */
  predicate Trimmed(s: string) {
    s != "" && !IsSpace(s[0]) && !IsSpace(s[|s| - 1])
  }

  lemma StripTrims(s: string)
    ensures Strip(s) == "" || Trimmed(Strip(s))
  {
    hide IsSpace, LStrip, RStrip;
    LStripStart(s);
    RStripKeepsStart(LStrip(s));
  }

  /** Nothing is left of a text after stripping exactly when it has no ink. */
  lemma EmptyStrip(s: string)
    ensures Strip(s) == "" <==> Ink(s) == ""
  {
    hide LStrip, RStrip, IsSpace, Strip;
    InkOfStrip(s);
    StripTrims(s);
    if Strip(s) != "" {
      var t := Strip(s);
      assert Ink(t) == [t[0]] + Ink(t[1..]);
    }
  }

  lemma {:induction false} LStripDrops(s: string) returns (i: nat)
    ensures i <= |s| && LStrip(s) == s[i..] && Blank(s[..i])
  {
    hide IsSpace;
    if s == "" || !IsSpace(s[0]) {
      i := 0;
    } else {
      i := LStripDrops(s[1..]);
      assert s[1..][i..] == s[i + 1..];
      var blank, more := s[1..][..i], s[..i + 1];
      forall k | 0 <= k < |more| ensures IsSpace(more[k]) {
        if k > 0 { assert more[k] == blank[k - 1]; }
      }
      i := i + 1;
    }
  }

  lemma {:induction false} RStripDrops(s: string) returns (j: nat)
    ensures j <= |s| && RStrip(s) == s[..j] && Blank(s[j..])
  {
    hide IsSpace;
    if s == "" || !IsSpace(s[|s| - 1]) {
      j := |s|;
    } else {
      var front := s[..|s| - 1];
      j := RStripDrops(front);
      assert front[..j] == s[..j];
      forall k | 0 <= k < |s[j..]| ensures IsSpace(s[j..][k]) {
        if k < |s[j..]| - 1 { assert s[j..][k] == front[j..][k]; }
      }
    }
  }

  /** What is left of a text without the whitespace at its ends. */
  ghost predicate IsStripped(t: string, s: string) {
    (t == "" || Trimmed(t)) && exists i: nat, j: nat :: IsWithin(t, s, i, j)
  }

  ghost predicate IsWithin(t: string, s: string, i: nat, j: nat) {
    i <= j <= |s| && t == s[i..j] && Blank(s[..i]) && Blank(s[j..])
  }

  /** Stripping takes the whitespace at both ends, all of it and nothing else. */
  lemma StripIs(s: string)
    ensures IsStripped(Strip(s), s)
  {
    hide IsSpace, LStrip, RStrip, Blank;
    StripTrims(s);
    var i := LStripDrops(s);
    var j := RStripDrops(LStrip(s));
    assert s[i..][..j] == s[i..i + j] && s[i..][j..] == s[i + j..];
    assert IsWithin(Strip(s), s, i, i + j);
  }

  /** A text without whitespace at its ends is left alone. */
  lemma StripTrimmed(s: string)
    requires Trimmed(s)
    ensures Strip(s) == s
  {
  }

  /** Nothing is left of a text exactly when it is blank. */
  lemma BlankStrip(s: string)
    ensures Strip(s) == "" <==> Blank(s)
  {
    hide *;
    EmptyStrip(s);
    if Blank(s) { BlankHasNoInk(s); }
    if Ink(s) == "" { NoInkIsBlank(s); }
  }
}
