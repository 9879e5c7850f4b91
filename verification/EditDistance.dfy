/** Edit distance of the OCR evaluation script: the two-row dynamic program,
    the recursive distance it refines, and the edit scripts that give both a meaning. */
module EditDistance {
  import opened Basics

  /** One edit of a string, at a position of the string it is applied to. */
  datatype Edit =
    | Insert(at: nat, c: char)
    | Delete(at: nat)
    | Substitute(at: nat, c: char)
  {
    predicate Applies(s: string) {
      match this
      case Insert(at, _) => at <= |s|
      case Delete(at) => at < |s|
      case Substitute(at, _) => at < |s|
    }

    function Apply(s: string): string
      requires Applies(s)
    {
      match this
      case Insert(at, c) => s[..at] + [c] + s[at..]
      case Delete(at) => s[..at] + s[at + 1..]
      case Substitute(at, c) => s[..at] + [c] + s[at + 1..]
    }
  }

  /** The script, edit by edit, turns a into b. */
  ghost predicate Turns(script: seq<Edit>, a: string, b: string) {
    if script == [] then a == b
    else script[0].Applies(a) && Turns(script[1..], script[0].Apply(a), b)
  }

  function Init(s: string): string
    requires s != ""
  {
    s[..|s| - 1]
  }

  function Last(s: string): char
    requires s != ""
  {
    s[|s| - 1]
  }

  lemma InitLast(s: string)
    requires s != ""
    ensures s == Init(s) + [Last(s)]
  {
  }

  function Mismatch(x: char, y: char): nat { if x == y then 0 else 1 }

  /** The full recursive distance, by last characters. */
  ghost function Distance(a: string, b: string): nat
    decreases |a| + |b|
  {
    if a == "" then |b|
    else if b == "" then |a|
    else Min(Min(Distance(Init(a), b) + 1, Distance(a, Init(b)) + 1),
             Distance(Init(a), Init(b)) + Mismatch(Last(a), Last(b)))
  }

  // ---------------------------------------------------------------- metric

  lemma Unfold(a: string, b: string)
    requires a != "" && b != ""
    ensures Distance(a, b) == Min(Min(Distance(Init(a), b) + 1, Distance(a, Init(b)) + 1),
                                  Distance(Init(a), Init(b)) + Mismatch(Last(a), Last(b)))
  {
    hide Min, Init, Last, Mismatch;
  }

  lemma FromEmpty(a: string, b: string)
    requires a == "" || b == ""
    ensures Distance(a, b) == |a| + |b|
  {
  }

  lemma {:induction false} DistanceToSelf(a: string)
    ensures Distance(a, a) == 0
  {
    if a != "" { DistanceToSelf(Init(a)); }
  }

  lemma {:induction false} ZeroOnlyIfEqual(a: string, b: string)
    requires Distance(a, b) == 0
    ensures a == b
    decreases |a| + |b|
  {
    if a != "" && b != "" {
      ZeroOnlyIfEqual(Init(a), Init(b));
      assert a == Init(a) + [Last(a)] && b == Init(b) + [Last(b)];
    }
  }

  lemma {:induction false} ZeroIffEqual(a: string, b: string)
    ensures Distance(a, b) == 0 <==> a == b
  {
    DistanceToSelf(a);
    if Distance(a, b) == 0 { ZeroOnlyIfEqual(a, b); }
  }

  lemma {:induction false} Symmetric(a: string, b: string)
    ensures Distance(a, b) == Distance(b, a)
    decreases |a| + |b|
  {
    if a != "" && b != "" {
      Symmetric(Init(a), b);
      Symmetric(a, Init(b));
      Symmetric(Init(a), Init(b));
    }
  }

  lemma {:induction false} BetweenLengths(a: string, b: string)
    ensures |a| <= |b| + Distance(a, b)
    ensures |b| <= |a| + Distance(a, b)
    ensures Distance(a, b) <= Max(|a|, |b|)
    decreases |a| + |b|
  {
    if a != "" && b != "" {
      BetweenLengths(Init(a), b);
      BetweenLengths(a, Init(b));
      BetweenLengths(Init(a), Init(b));
    }
  }

  lemma {:induction false} Triangle(a: string, b: string, c: string)
    ensures Distance(a, c) <= Distance(a, b) + Distance(b, c)
    decreases |a| + |b| + |c|
  {
    hide Distance;
    if a == "" || b == "" || c == "" {
      BetweenLengths(a, b);
      BetweenLengths(b, c);
      BetweenLengths(a, c);
      if a == "" { FromEmpty(a, c); }
      if c == "" { FromEmpty(a, c); }
      if b == "" { FromEmpty(a, b); FromEmpty(b, c); }
    } else {
      Unfold(a, b);
      Unfold(b, c);
      Unfold(a, c);
      if Distance(a, b) == Distance(Init(a), b) + 1 {
        Triangle(Init(a), b, c);
      } else if Distance(b, c) == Distance(b, Init(c)) + 1 {
        Triangle(a, b, Init(c));
      } else {
        Triangle(a, Init(b), c);
        Triangle(a, Init(b), Init(c));
        Triangle(Init(a), Init(b), c);
        Triangle(Init(a), Init(b), Init(c));
      }
    }
  }

  // ---------------------------------------------------------------- scripts

  lemma SharedLast(a: string, b: string, c: char)
    ensures Distance(a + [c], b + [c]) <= Distance(a, b)
  {
    hide Distance;
    assert Init(a + [c]) == a && Init(b + [c]) == b;
    Unfold(a + [c], b + [c]);
  }

  lemma {:induction false} SharedSuffix(a: string, b: string, s: string)
    ensures Distance(a + s, b + s) <= Distance(a, b)
    decreases |s|
  {
    hide Distance;
    if s == "" {
      assert a + s == a && b + s == b;
    } else {
      SharedSuffix(a, b, Init(s));
      SharedLast(a + Init(s), b + Init(s), Last(s));
      InitLast(s);
      assert a + s == a + Init(s) + [Last(s)] && b + s == b + Init(s) + [Last(s)];
    }
  }

  lemma LastCharacter(p: string, x: string, y: string)
    requires |x| <= 1 && |y| <= 1
    ensures Distance(p + x, p + y) <= 1
  {
    hide Distance;
    DistanceToSelf(p);
    assert p + "" == p;
    if x != "" { assert Init(p + x) == p; }
    if y != "" { assert Init(p + y) == p; }
    if p + x == "" || p + y == "" { FromEmpty(p + x, p + y); } else { Unfold(p + x, p + y); }
  }

  lemma OneEditCostsAtMostOne(e: Edit, a: string)
    requires e.Applies(a)
    ensures Distance(a, e.Apply(a)) <= 1
  {
    var p := a[..e.at];
    var x := if e.Insert? then "" else [a[e.at]];
    var y := if e.Delete? then "" else [e.c];
    var s := a[e.at + |x|..];
    assert a == p + x + s && e.Apply(a) == p + y + s;
    LastCharacter(p, x, y);
    SharedSuffix(p + x, p + y, s);
  }

  lemma {:induction false} NoScriptIsShorter(script: seq<Edit>, a: string, b: string)
    requires Turns(script, a, b)
    ensures Distance(a, b) <= |script|
    decreases |script|
  {
    if script == [] {
      DistanceToSelf(a);
    } else {
      var next := script[0].Apply(a);
      OneEditCostsAtMostOne(script[0], a);
      NoScriptIsShorter(script[1..], next, b);
      Triangle(a, next, b);
    }
  }

  lemma {:induction false} TurnsThenEdit(script: seq<Edit>, a: string, m: string, e: Edit)
    requires Turns(script, a, m) && e.Applies(m)
    ensures Turns(script + [e], a, e.Apply(m))
    decreases |script|
  {
    if script == [] {
      assert Turns([], e.Apply(m), e.Apply(m));
      assert (script + [e])[1..] == [];
    } else {
      TurnsThenEdit(script[1..], script[0].Apply(a), m, e);
      assert (script + [e])[1..] == script[1..] + [e];
    }
  }

  lemma EditBeforeSuffix(e: Edit, a: string, c: char)
    requires e.Applies(a)
    ensures e.Applies(a + [c]) && e.Apply(a + [c]) == e.Apply(a) + [c]
  {
  }

  lemma {:induction false} TurnsBeforeSuffix(script: seq<Edit>, a: string, b: string, c: char)
    requires Turns(script, a, b)
    ensures Turns(script, a + [c], b + [c])
    decreases |script|
  {
    if script != [] {
      EditBeforeSuffix(script[0], a, c);
      TurnsBeforeSuffix(script[1..], script[0].Apply(a), b, c);
      hide Edit.Apply;
    }
  }

  lemma KeepOrSubstitute(rest: seq<Edit>, a: string, b: string) returns (script: seq<Edit>)
    requires a != "" && b != "" && Turns(rest, Init(a), Init(b))
    ensures Turns(script, a, b) && |script| == |rest| + Mismatch(Last(a), Last(b))
  {
    TurnsBeforeSuffix(rest, Init(a), Init(b), Last(a));
    InitLast(a);
    InitLast(b);
    script := rest;
    if Last(a) != Last(b) {
      var e := Substitute(|b| - 1, Last(b));
      assert e.Apply(Init(b) + [Last(a)]) == b;
      hide *;
      TurnsThenEdit(rest, a, Init(b) + [Last(a)], e);
      script := rest + [e];
    }
  }

  lemma DeleteLast(rest: seq<Edit>, a: string, b: string)
    requires a != "" && Turns(rest, Init(a), b)
    ensures Turns([Delete(|a| - 1)] + rest, a, b)
  {
    var script := [Delete(|a| - 1)] + rest;
    assert script[0].Apply(a) == Init(a) && script[1..] == rest;
  }

  lemma InsertLast(rest: seq<Edit>, a: string, b: string)
    requires b != "" && Turns(rest, a, Init(b))
    ensures Turns(rest + [Insert(|b| - 1, Last(b))], a, b)
  {
    var e := Insert(|b| - 1, Last(b));
    assert e.Apply(Init(b)) == b;
    TurnsThenEdit(rest, a, Init(b), e);
  }

  lemma {:induction false} SomeScriptIsAsShort(a: string, b: string) returns (script: seq<Edit>)
    ensures Turns(script, a, b) && |script| == Distance(a, b)
    decreases |a| + |b|
  {
    hide Distance, Turns, Last;
    if a == "" || b == "" { FromEmpty(a, b); } else { Unfold(a, b); }
    if a != "" && (b == "" || Distance(a, b) == Distance(Init(a), b) + 1) {
      FromEmpty(Init(a), "");
      var rest := SomeScriptIsAsShort(Init(a), b);
      DeleteLast(rest, a, b);
      script := [Delete(|a| - 1)] + rest;
    } else if b != "" && (a == "" || Distance(a, b) == Distance(a, Init(b)) + 1) {
      FromEmpty("", Init(b));
      var rest := SomeScriptIsAsShort(a, Init(b));
      InsertLast(rest, a, b);
      script := rest + [Insert(|b| - 1, Last(b))];
    } else if a != "" {
      var rest := SomeScriptIsAsShort(Init(a), Init(b));
      script := KeepOrSubstitute(rest, a, b);
    } else {
      script := [];
      assert Turns([], "", "") by { NoEdits(""); }
    }
  }

  lemma NoEdits(a: string)
    ensures Turns([], a, a)
  {
  }

  /** The distance is the least length of a script of insertions, deletions and
      substitutions that turns a into b. */
  lemma LeastScript(a: string, b: string)
    ensures exists script :: Turns(script, a, b) && |script| == Distance(a, b)
    ensures forall script :: Turns(script, a, b) ==> Distance(a, b) <= |script|
  {
    var script := SomeScriptIsAsShort(a, b);
    forall script | Turns(script, a, b)
      ensures Distance(a, b) <= |script|
    {
      NoScriptIsShorter(script, a, b);
    }
  }

  // ---------------------------------------------------------------- the program

  lemma PrefixEnd(s: string, i: nat)
    requires 1 <= i <= |s|
    ensures Init(s[..i]) == s[..i - 1] && Last(s[..i]) == s[i - 1]
  {
  }

  lemma Cell(a: string, b: string, i: nat, j: nat)
    requires 1 <= i <= |a| && 1 <= j <= |b|
    ensures Distance(a[..i], b[..j]) ==
            Min(Min(Distance(a[..i - 1], b[..j]) + 1, Distance(a[..i], b[..j - 1]) + 1),
                Distance(a[..i - 1], b[..j - 1]) + Mismatch(a[i - 1], b[j - 1]))
  {
    hide *;
    PrefixEnd(a, i);
    PrefixEnd(b, j);
    Unfold(a[..i], b[..j]);
  }

  /** The row holds the distances from a to the first prefixes of b. */
  ghost predicate IsRow(row: seq<nat>, a: string, b: string) {
    |row| <= |b| + 1 && forall j :: 0 <= j < |row| ==> row[j] == Distance(a, b[..j])
  }

  function NextCell(previous: seq<nat>, current: seq<nat>, x: char, y: char): nat
    requires 0 < |current| < |previous|
  {
    var j := |current|;
    Min(Min(previous[j] + 1, current[j - 1] + 1), previous[j - 1] + Mismatch(x, y))
  }

  lemma FirstRow(row: seq<nat>, b: string)
    requires |row| == |b| + 1 && forall j :: 0 <= j < |row| ==> row[j] == j
    ensures IsRow(row, "", b)
  {
  }

  lemma FirstCell(a: string, b: string)
    ensures IsRow([|a|], a, b)
  {
  }

  lemma ExtendRow(previous: seq<nat>, current: seq<nat>, a: string, b: string, i: nat)
    requires 1 <= i <= |a| && 0 < |current| < |previous| == |b| + 1
    requires IsRow(previous, a[..i - 1], b) && IsRow(current, a[..i], b)
    ensures IsRow(current + [NextCell(previous, current, a[i - 1], b[|current| - 1])], a[..i], b)
  {
    hide Distance;
    var j, x := |current|, NextCell(previous, current, a[i - 1], b[|current| - 1]);
    assert x == Distance(a[..i], b[..j]) by {
      Cell(a, b, i, j);
    }
    hide NextCell;
    forall k | 0 <= k <= j
      ensures (current + [x])[k] == Distance(a[..i], b[..k])
    {
    }
  }

  /** The early exits and the two rolling rows compute the recursive distance. */
  method Levenshtein(a: string, b: string) returns (d: nat)
    ensures d == Distance(a, b)
  {
    if a == b {
      DistanceToSelf(a);
      return 0;
    }
    if a == "" { return |b|; }
    if b == "" { return |a|; }
    hide Distance, IsRow, NextCell;
    var previous: seq<nat> := seq(|b| + 1, j => j);
    FirstRow(previous, b);
    assert a[..0] == "";
    for i := 1 to |a| + 1
      invariant |previous| == |b| + 1 && IsRow(previous, a[..i - 1], b)
    {
      var current: seq<nat> := [i];
      FirstCell(a[..i], b);
      for j := 1 to |b| + 1
        invariant |current| == j && IsRow(current, a[..i], b)
      {
        ExtendRow(previous, current, a, b, i);
        current := current + [NextCell(previous, current, a[i - 1], b[j - 1])];
      }
      previous := current;
    }
    FullRow(previous, a, b);
    return previous[|b|];
  }

  lemma FullRow(row: seq<nat>, a: string, b: string)
    requires IsRow(row, a[..|a|], b) && |row| == |b| + 1
    ensures row[|b|] == Distance(a, b)
  {
    assert a[..|a|] == a && b[..|b|] == b;
  }

  /** Character error rate under any normalisation: zero exactly when the texts normalise to
      the same, and otherwise the least number of edits per character of the reference. */
  method Cer(reference: string, hypothesis: string, normalize: string -> string) returns (rate: real)
    ensures rate == 0.0 <==> normalize(reference) == normalize(hypothesis)
    ensures normalize(reference) != "" ==>
              rate == Distance(normalize(reference), normalize(hypothesis)) as real / |normalize(reference)| as real
    ensures normalize(reference) == "" && normalize(hypothesis) != "" ==> rate == 1.0
  {
    var ref, hyp := normalize(reference), normalize(hypothesis);
    if ref == "" {
      return if hyp == "" then 0.0 else 1.0;
    }
    ZeroIffEqual(ref, hyp);
    var d := Levenshtein(ref, hyp);
    hide Distance;
    rate := d as real / |ref| as real;
    assert d != 0 ==> rate > 0.0;
  }
}
