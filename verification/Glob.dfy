/** The file-name matcher of `pcd_playlist.cpp`: a two-pointer loop that, on a
    mismatch, returns to the last `*` only. */
module Glob {
  import opened Prelude

  /** The documented meaning: `*` is any run of characters, `?` exactly one. */
  predicate Matches(pattern: string, text: string)
    decreases |pattern| + |text|
  {
    if pattern == "" then text == ""
    else if pattern[0] == '*' then
      Matches(pattern[1..], text) || (text != "" && Matches(pattern, text[1..]))
    else
      && text != ""
      && (pattern[0] == '?' || pattern[0] == text[0])
      && Matches(pattern[1..], text[1..])
  }

  predicate AllStars(s: string) {
    forall i :: 0 <= i < |s| ==> s[i] == '*'
  }

  /** What the loop knows between iterations about the last star seen. */
  predicate Reachable(pattern: string, text: string, p: nat, t: nat, star: Option<nat>, starT: nat) {
    && p <= |pattern| && t <= |text| && starT <= t
    && (star.Some? ==> star.value < p && pattern[star.value] == '*')
  }

  /** The outcome of the loop when it is about to test `t < text.size()`. */
  function Scan(pattern: string, text: string, p: nat, t: nat, star: Option<nat>, starT: nat): bool
    requires Reachable(pattern, text, p, t, star, starT)
    decreases if star.Some? then |pattern| - star.value else |pattern| + 1, |text| - starT, |text| - t
  {
    if t == |text| then AllStars(pattern[p..])
    else if p < |pattern| && (pattern[p] == '?' || pattern[p] == text[t]) then
      Scan(pattern, text, p + 1, t + 1, star, starT)
    else if p < |pattern| && pattern[p] == '*' then
      Scan(pattern, text, p + 1, t, Some(p), t)
    else if star.Some? then
      Scan(pattern, text, star.value + 1, starT + 1, star, starT + 1)
    else false
  }

  /** Iterations the loop makes from here on; the last one may give up. */
  function Iterations(pattern: string, text: string, p: nat, t: nat, star: Option<nat>, starT: nat): nat
    requires Reachable(pattern, text, p, t, star, starT)
    decreases if star.Some? then |pattern| - star.value else |pattern| + 1, |text| - starT, |text| - t
  {
    if t == |text| then 0
    else if p < |pattern| && (pattern[p] == '?' || pattern[p] == text[t]) then
      1 + Iterations(pattern, text, p + 1, t + 1, star, starT)
    else if p < |pattern| && pattern[p] == '*' then
      1 + Iterations(pattern, text, p + 1, t, Some(p), t)
    else if star.Some? then
      1 + Iterations(pattern, text, star.value + 1, starT + 1, star, starT + 1)
    else 1
  }

  function Outcome(pattern: string, text: string): bool {
    Scan(pattern, text, 0, 0, None, 0)
  }

  /** Iterations allowed by the time the loop stands at `p` behind a star that
      has been moved to `starT`, for a pattern of length `n`. */
  ghost function Allowance(starT: nat, p: nat, n: nat): nat {
    starT * (n + 1) + p
  }

  lemma AllowanceGrows(starT: nat, t: nat, p: nat, q: nat, n: nat)
    requires starT <= t && (p < q || (starT < t && p <= n))
    ensures Allowance(starT, p, n) + 1 <= Allowance(t, q, n)
  {
    Distribute(starT, t - starT, n + 1);
    if starT < t { AtLeastOnce(t - starT, n + 1); }
  }

  lemma Distribute(a: nat, b: nat, k: nat)
    ensures (a + b) * k == a * k + b * k
  {
  }

  lemma AtLeastOnce(a: nat, k: nat)
    requires a >= 1
    ensures a * k >= k
  {
  }

  lemma {:induction false} IterationsFit(pattern: string, text: string, p: nat, t: nat, star: Option<nat>, starT: nat)
    requires Reachable(pattern, text, p, t, star, starT)
    ensures Iterations(pattern, text, p, t, star, starT) + Allowance(starT, p, |pattern|) <=
            Allowance(|text| + 1, 0, |pattern|)
    decreases if star.Some? then |pattern| - star.value else |pattern| + 1, |text| - starT, |text| - t
  {
    hide Allowance;
    if t == |text| {
      AllowanceGrows(starT, |text| + 1, p, 0, |pattern|);
    } else if p < |pattern| && (pattern[p] == '?' || pattern[p] == text[t]) {
      IterationsFit(pattern, text, p + 1, t + 1, star, starT);
      AllowanceGrows(starT, starT, p, p + 1, |pattern|);
    } else if p < |pattern| && pattern[p] == '*' {
      IterationsFit(pattern, text, p + 1, t, Some(p), t);
      AllowanceGrows(starT, t, p, p + 1, |pattern|);
    } else if star.Some? {
      IterationsFit(pattern, text, star.value + 1, starT + 1, star, starT + 1);
      AllowanceGrows(starT, starT + 1, p, star.value + 1, |pattern|);
    } else {
      AllowanceGrows(starT, |text| + 1, p, 0, |pattern|);
    }
  }

  /** The work is bounded by the product of the two lengths, although the loop may
      return to a star many times. */
  lemma IterationsBounded(pattern: string, text: string)
    ensures Iterations(pattern, text, 0, 0, None, 0) <= (|text| + 1) * (|pattern| + 1)
  {
    IterationsFit(pattern, text, 0, 0, None, 0);
    assert Allowance(|text| + 1, 0, |pattern|) == (|text| + 1) * (|pattern| + 1);
  }

  /** The loop itself, with a ghost count of its iterations. */
  method WildcardMatch(pattern: string, text: string) returns (result: bool, ghost steps: nat)
    ensures result == Outcome(pattern, text)
    ensures result ==> Matches(pattern, text)
    ensures '*' !in text ==> result == Matches(pattern, text)
    ensures steps == Iterations(pattern, text, 0, 0, None, 0)
  {
    hide Matches;
    Judged(pattern, text);
    var p: nat, t: nat := 0, 0;
    var star: Option<nat> := None;
    var starT: nat := 0;
    steps := 0;
    while t < |text|
      invariant Reachable(pattern, text, p, t, star, starT)
      invariant Outcome(pattern, text) == Scan(pattern, text, p, t, star, starT)
      invariant steps + Iterations(pattern, text, p, t, star, starT) == Iterations(pattern, text, 0, 0, None, 0)
      decreases if star.Some? then |pattern| - star.value else |pattern| + 1, |text| - starT, |text| - t
    {
      steps := steps + 1;
      if p < |pattern| && (pattern[p] == '?' || pattern[p] == text[t]) {
        p := p + 1;
        t := t + 1;
      } else if p < |pattern| && pattern[p] == '*' {
        star, p := Some(p), p + 1;
        starT := t;
      } else if star.Some? {
        p := star.value + 1;
        starT := starT + 1;
        t := starT;
      } else {
        return false, steps;
      }
    }
    var end := SkipStars(pattern, p);
    return end == |pattern|, steps;
  }

  /** The second loop: trailing stars may match nothing. */
  method SkipStars(pattern: string, start: nat) returns (p: nat)
    requires start <= |pattern|
    ensures start <= p <= |pattern|
    ensures p == |pattern| <==> AllStars(pattern[start..])
  {
    p := start;
    while p < |pattern| && pattern[p] == '*'
      invariant start <= p <= |pattern|
      invariant forall k :: start <= k < p ==> pattern[k] == '*'
    {
      p := p + 1;
    }
    if p < |pattern| { assert pattern[start..][p - start] == pattern[p]; }
  }

  lemma Whole(pattern: string, text: string)
    ensures pattern[0..] == pattern && text[0..] == text
  {
  }

  // ---------------------------------------------------------------- meaning

  /** A star may take any number of characters. */
  lemma {:induction false} StarAbsorbs(pattern: string, text: string, m: nat)
    requires pattern != "" && pattern[0] == '*' && m <= |text|
    requires Matches(pattern, text[m..])
    ensures Matches(pattern, text)
  {
    if m == 0 {
      assert text[0..] == text;
    } else {
      assert text[1..][m - 1..] == text[m..];
      StarAbsorbs(pattern, text[1..], m - 1);
    }
  }

  lemma {:induction false} OnlyStarsMatchNothing(pattern: string)
    ensures Matches(pattern, "") <==> AllStars(pattern)
  {
    if pattern != "" {
      OnlyStarsMatchNothing(pattern[1..]);
      assert pattern == [pattern[0]] + pattern[1..];
    }
  }

  /** One step of the recursive meaning, read at positions. */
  lemma Unfold(pattern: string, text: string, p: nat, t: nat)
    requires p < |pattern| && t <= |text|
    ensures pattern[p] == '*' ==>
              (Matches(pattern[p..], text[t..]) <==>
               Matches(pattern[p + 1..], text[t..]) || (t < |text| && Matches(pattern[p..], text[t + 1..])))
    ensures pattern[p] != '*' ==>
              (Matches(pattern[p..], text[t..]) <==>
               t < |text| && (pattern[p] == '?' || pattern[p] == text[t]) && Matches(pattern[p + 1..], text[t + 1..]))
  {
    assert pattern[p..][1..] == pattern[p + 1..];
    if t < |text| { assert text[t..][1..] == text[t + 1..]; }
  }

  lemma NothingLeft(pattern: string, text: string, t: nat)
    requires t < |text|
    ensures !Matches(pattern[|pattern|..], text[t..])
  {
  }

  // -------------------------------------------------------------- soundness

  lemma {:induction false} Sound(pattern: string, text: string, p: nat, t: nat, star: Option<nat>, starT: nat)
    requires Reachable(pattern, text, p, t, star, starT)
    requires Scan(pattern, text, p, t, star, starT)
    ensures || Matches(pattern[p..], text[t..])
            || (star.Some? && Matches(pattern[star.value..], text[starT..]))
    decreases if star.Some? then |pattern| - star.value else |pattern| + 1, |text| - starT, |text| - t
  {
    if t == |text| {
      OnlyStarsMatchNothing(pattern[p..]);
    } else if p < |pattern| && (pattern[p] == '?' || pattern[p] == text[t]) {
      Sound(pattern, text, p + 1, t + 1, star, starT);
      Unfold(pattern, text, p, t);
      Unfold(pattern, text, p, t + 1);
    } else if p < |pattern| && pattern[p] == '*' {
      Sound(pattern, text, p + 1, t, Some(p), t);
      Unfold(pattern, text, p, t);
    } else {
      Sound(pattern, text, star.value + 1, starT + 1, star, starT + 1);
      Unfold(pattern, text, star.value, starT);
      Unfold(pattern, text, star.value, starT + 1);
    }
  }

  // ----------------------------------------------------------- completeness

  lemma Judged(pattern: string, text: string)
    ensures Outcome(pattern, text) ==> Matches(pattern, text)
    ensures '*' !in text ==> Outcome(pattern, text) == Matches(pattern, text)
  {
    Whole(pattern, text);
    if Outcome(pattern, text) { Sound(pattern, text, 0, 0, None, 0); }
    if '*' !in text && Matches(pattern, text) { Complete(pattern, text, 0, 0, None, 0); }
  }

  predicate StarFree(s: string) {
    '*' !in s
  }

  /** A star-free stretch of the pattern consumes exactly its own length, so
      what follows it matches at or after the shifted position. */
  lemma {:induction false} StretchShifts(pattern: string, text: string, p: nat, q: nat, t: nat)
    requires p <= q <= |pattern| && t <= |text|
    requires StarFree(pattern[p..q])
    requires Matches(pattern[p..], text[t..])
    ensures t + (q - p) <= |text| && Matches(pattern[q..], text[t + (q - p)..])
    decreases q - p
  {
    if p < q {
      assert pattern[p] == pattern[p..q][0];
      Unfold(pattern, text, p, t);
      assert pattern[p + 1..q] == pattern[p..q][1..];
      StretchShifts(pattern, text, p + 1, q, t + 1);
    }
  }

  lemma {:induction false} StarThenStretchShifts(pattern: string, text: string, s: nat, q: nat, t: nat)
    returns (m: nat)
    requires s < q <= |pattern| && t <= |text| && pattern[s] == '*'
    requires StarFree(pattern[s + 1..q])
    requires Matches(pattern[s..], text[t..])
    ensures t + (q - s - 1) <= m <= |text| && Matches(pattern[q..], text[m..])
    decreases |text| - t
  {
    Unfold(pattern, text, s, t);
    if Matches(pattern[s + 1..], text[t..]) {
      StretchShifts(pattern, text, s + 1, q, t);
      m := t + (q - s - 1);
    } else {
      m := StarThenStretchShifts(pattern, text, s, q, t + 1);
    }
  }

  /** Since the last star, pattern and text advanced in step over a star-free
      stretch: the fact that makes every earlier star redundant. */
  predicate InStep(pattern: string, p: nat, t: nat, star: Option<nat>, starT: nat) {
    star.Some? && star.value < p <= |pattern| ==>
      t - starT == p - star.value - 1 && StarFree(pattern[star.value + 1..p])
  }

  /** From here the rest still matches, or it will once the last star takes more. */
  predicate Alive(pattern: string, text: string, p: nat, t: nat, star: Option<nat>, starT: nat)
    requires Reachable(pattern, text, p, t, star, starT)
  {
    || Matches(pattern[p..], text[t..])
    || (star.Some? && starT < |text| && Matches(pattern[star.value..], text[starT + 1..]))
  }

  lemma AliveAtEnd(pattern: string, text: string, p: nat, t: nat, star: Option<nat>, starT: nat)
    requires Reachable(pattern, text, p, t, star, starT) && InStep(pattern, p, t, star, starT)
    requires Alive(pattern, text, p, t, star, starT) && t == |text|
    ensures AllStars(pattern[p..])
  {
    hide Matches, AllStars;
    if !Matches(pattern[p..], text[t..]) {
      var m := StarThenStretchShifts(pattern, text, star.value, p, starT + 1);
      assert false;
    }
    assert text[t..] == "";
    OnlyStarsMatchNothing(pattern[p..]);
  }

  lemma AliveOverCharacter(pattern: string, text: string, p: nat, t: nat, star: Option<nat>, starT: nat)
    requires '*' !in text
    requires Reachable(pattern, text, p, t, star, starT) && InStep(pattern, p, t, star, starT)
    requires Alive(pattern, text, p, t, star, starT)
    requires t < |text| && p < |pattern| && (pattern[p] == '?' || pattern[p] == text[t])
    ensures InStep(pattern, p + 1, t + 1, star, starT) && Alive(pattern, text, p + 1, t + 1, star, starT)
  {
    hide Matches;
    Unfold(pattern, text, p, t);
    if star.Some? { assert pattern[star.value + 1..p + 1] == pattern[star.value + 1..p] + [pattern[p]]; }
  }

  lemma AliveOverStar(pattern: string, text: string, p: nat, t: nat, star: Option<nat>, starT: nat)
    requires Reachable(pattern, text, p, t, star, starT) && InStep(pattern, p, t, star, starT)
    requires Alive(pattern, text, p, t, star, starT)
    requires t < |text| && p < |pattern| && pattern[p] == '*'
    ensures InStep(pattern, p + 1, t, Some(p), t) && Alive(pattern, text, p + 1, t, Some(p), t)
  {
    hide Matches;
    if !Matches(pattern[p..], text[t..]) {
      var m := StarThenStretchShifts(pattern, text, star.value, p, starT + 1);
      assert text[t..][m - t..] == text[m..];
      StarAbsorbs(pattern[p..], text[t..], m - t);
    }
    Unfold(pattern, text, p, t);
  }

  lemma AliveOnReturn(pattern: string, text: string, p: nat, t: nat, star: Option<nat>, starT: nat)
    requires Reachable(pattern, text, p, t, star, starT) && Alive(pattern, text, p, t, star, starT)
    requires t < |text|
    requires p < |pattern| ==> pattern[p] != '?' && pattern[p] != '*' && pattern[p] != text[t]
    ensures star.Some? && Alive(pattern, text, star.value + 1, starT + 1, star, starT + 1)
    ensures InStep(pattern, star.value + 1, starT + 1, star, starT + 1)
  {
    hide Matches;
    if p < |pattern| { Unfold(pattern, text, p, t); } else { NothingLeft(pattern, text, t); }
    Unfold(pattern, text, star.value, starT + 1);
  }

  /** Whatever state the loop is in, as long as a match is alive it is found. */
  lemma {:induction false} Complete(pattern: string, text: string, p: nat, t: nat, star: Option<nat>, starT: nat)
    requires '*' !in text
    requires Reachable(pattern, text, p, t, star, starT) && InStep(pattern, p, t, star, starT)
    requires Alive(pattern, text, p, t, star, starT)
    ensures Scan(pattern, text, p, t, star, starT)
    decreases if star.Some? then |pattern| - star.value else |pattern| + 1, |text| - starT, |text| - t
  {
    hide Alive, InStep, AllStars;
    if t == |text| {
      AliveAtEnd(pattern, text, p, t, star, starT);
    } else if p < |pattern| && (pattern[p] == '?' || pattern[p] == text[t]) {
      AliveOverCharacter(pattern, text, p, t, star, starT);
      Complete(pattern, text, p + 1, t + 1, star, starT);
    } else if p < |pattern| && pattern[p] == '*' {
      AliveOverStar(pattern, text, p, t, star, starT);
      Complete(pattern, text, p + 1, t, Some(p), t);
    } else {
      AliveOnReturn(pattern, text, p, t, star, starT);
      Complete(pattern, text, star.value + 1, starT + 1, star, starT + 1);
    }
  }

  // ------------------------------------------- where the two meanings differ

  /** Characters that agree position by position are consumed one for one,
      stars included: the literal test comes before the star test. */
  lemma {:induction false} LiteralRun(pattern: string, text: string, i: nat)
    requires i <= |pattern| && i <= |text| && pattern[..i] == text[..i]
    ensures Outcome(pattern, text) == Scan(pattern, text, i, i, None, 0)
  {
    if i > 0 {
      assert pattern[..i][i - 1] == text[..i][i - 1];
      assert pattern[..i - 1] == pattern[..i][..i - 1] && text[..i - 1] == text[..i][..i - 1];
      LiteralRun(pattern, text, i - 1);
    }
  }

  lemma {:induction false} MatchesAfterItself(u: string, pattern: string, text: string)
    requires Matches(pattern, text)
    ensures Matches(u + pattern, u + text)
  {
    if u == "" {
      assert u + pattern == pattern && u + text == text;
    } else {
      MatchesAfterItself(u[1..], pattern, text);
      assert (u + pattern)[1..] == u[1..] + pattern && (u + text)[1..] == u[1..] + text;
      if u[0] == '*' {
        StarAbsorbs(u + pattern, u + text, 1);
      }
    }
  }

  lemma StarMatchesAll(text: string)
    ensures Matches("*", text)
  {
    assert text[|text|..] == "";
    OnlyStarsMatchNothing("*");
    StarAbsorbs("*", text, |text|);
  }

  /** For a text holding a `*`, this pattern is matched by the documentation
      and refused by the loop. */
  function WitnessPattern(text: string): string
    requires '*' in text
  {
    var i := FindLast(text, '*').value;
    text[..i] + (['*'] + if i + 1 < |text| then "" else "?")
  }

  lemma QuestionTakesStar()
    ensures Matches(['*'] + "?", ['*'] + "")
  {
    assert (['*'] + "?")[1..] == "?" && "?"[1..] == "" && (['*'] + "")[1..] == "";
    assert Matches("?", ['*'] + "");
  }

  lemma WitnessMatches(text: string)
    requires '*' in text
    ensures Matches(WitnessPattern(text), text)
  {
    hide Matches;
    var i := FindLast(text, '*').value;
    var u, w := text[..i], text[i + 1..];
    var q := if w == "" then "?" else "";
    assert text == u + (['*'] + w);
    if w == "" {
      QuestionTakesStar();
    } else {
      StarMatchesAll(['*'] + w);
      assert "*" == ['*'] + q;
    }
    MatchesAfterItself(u, ['*'] + q, ['*'] + w);
  }

  lemma TextRefuted(text: string)
    requires '*' in text
    ensures Matches(WitnessPattern(text), text) && !Outcome(WitnessPattern(text), text)
  {
    hide Matches, Outcome, FindLast;
    WitnessMatches(text);
    var i := FindLast(text, '*').value;
    var q := if text[i + 1..] == "" then "?" else "";
    SplitAt(text, i);
    PrefixThrough(text[..i], '*', q);
    LiteralRun(WitnessPattern(text), text, i + 1);
    assert WitnessPattern(text)[i + 1..] == q;
    if q != "" { assert q[0] == '?' && !AllStars(q); }
  }

  /** The matcher means what its documentation says on every pattern exactly
      for the texts without a `*`. */
  lemma AgreesOnTextIff(text: string)
    ensures (forall pattern :: Outcome(pattern, text) == Matches(pattern, text)) <==> '*' !in text
  {
    if '*' in text {
      TextRefuted(text);
    } else {
      forall pattern ensures Outcome(pattern, text) == Matches(pattern, text) {
        Judged(pattern, text);
      }
    }
  }

  lemma {:induction false} StarFreeKeepsLength(pattern: string, text: string)
    requires StarFree(pattern) && Matches(pattern, text)
    ensures |pattern| == |text|
  {
    if pattern != "" {
      assert pattern[0] in pattern;
      StarFreeKeepsLength(pattern[1..], text[1..]);
    }
  }

  /** For a pattern holding a `*`: repeat the pattern, with one more character
      behind its last star. */
  function WitnessText(pattern: string): string
    requires '*' in pattern
  {
    var j := FindLast(pattern, '*').value;
    pattern[..j] + (['*'] + (['x'] + pattern[j + 1..]))
  }

  lemma PrefixThrough(u: string, c: char, rest: string)
    ensures (u + ([c] + rest))[..|u| + 1] == u + [c]
    ensures (u + ([c] + rest))[|u| + 1..] == rest
  {
  }

  lemma StarTakesTwo(w: string)
    ensures Matches(['*'] + w, ['*'] + (['x'] + w))
  {
    var p, t := ['*'] + w, ['*'] + (['x'] + w);
    assert p[1..] == w && t[2..] == w && w + "" == w;
    MatchesAfterItself(w, "", "");
    StarAbsorbs(p, t, 2);
  }

  lemma PatternMatchesWitness(pattern: string)
    requires '*' in pattern
    ensures Matches(pattern, WitnessText(pattern))
  {
    hide Matches;
    var j := FindLast(pattern, '*').value;
    var u, w := pattern[..j], pattern[j + 1..];
    assert pattern == u + (['*'] + w);
    StarTakesTwo(w);
    MatchesAfterItself(u, ['*'] + w, ['*'] + (['x'] + w));
  }

  /** Behind the star both were read through, pattern and text differ in length. */
  lemma WitnessSplits(pattern: string)
    requires '*' in pattern
    ensures var j, text := FindLast(pattern, '*').value, WitnessText(pattern);
            && j + 1 <= |text| && pattern[..j + 1] == text[..j + 1]
            && StarFree(pattern[j + 1..]) && text[j + 1..] == ['x'] + pattern[j + 1..]
  {
    hide FindLast, StarFree;
    var j := FindLast(pattern, '*').value;
    var u, w := pattern[..j], pattern[j + 1..];
    SplitAt(pattern, j);
    PrefixThrough(u, '*', ['x'] + w);
    assert StarFree(w) by { ShowStarFree(w); }
  }

  lemma SplitAt(s: string, j: nat)
    requires j < |s|
    ensures s[..j + 1] == s[..j] + [s[j]]
  {
  }

  lemma ShowStarFree(w: string)
    requires '*' !in w
    ensures StarFree(w)
  {
  }

  lemma PatternRefuted(pattern: string)
    requires '*' in pattern
    ensures Matches(pattern, WitnessText(pattern)) && !Outcome(pattern, WitnessText(pattern))
  {
    hide Matches, Scan, Outcome, WitnessText, StarFree;
    var j, text := FindLast(pattern, '*').value, WitnessText(pattern);
    PatternMatchesWitness(pattern);
    WitnessSplits(pattern);
    LiteralRun(pattern, text, j + 1);
    if Outcome(pattern, text) {
      Sound(pattern, text, j + 1, j + 1, None, 0);
      StarFreeKeepsLength(pattern[j + 1..], text[j + 1..]);
      assert false;
    }
  }

  /** ... and on every text exactly for the patterns without a `*`. */
  lemma AgreesOnPatternIff(pattern: string)
    ensures (forall text :: Outcome(pattern, text) == Matches(pattern, text)) <==> '*' !in pattern
  {
    if '*' in pattern {
      PatternRefuted(pattern);
    } else {
      forall text ensures Outcome(pattern, text) == Matches(pattern, text) {
        Judged(pattern, text);
        Whole(pattern, text);
        if Matches(pattern, text) { PlainPattern(pattern, text, 0); }
      }
    }
  }

  lemma {:induction false} PlainPattern(pattern: string, text: string, i: nat)
    requires StarFree(pattern) && i <= |pattern| && i <= |text|
    requires Matches(pattern[i..], text[i..])
    ensures Scan(pattern, text, i, i, None, 0)
    decreases |pattern| - i
  {
    StarFreeKeepsLength(pattern[i..], text[i..]);
    if i < |pattern| {
      Unfold(pattern, text, i, i);
      PlainPattern(pattern, text, i + 1);
    }
  }
}
