/**
 The port patterns of the serial bridge (engine/src/serial.rs): `*` and `?`, matched by a loop with one
 backtrack point, against what the wildcards mean.
 */
module Glob {

  datatype Option<+T> = None | Some(value: T)

  /** `?` is any character, `*` any number of them. */
  predicate Matches(p: string, t: string)
    decreases |p| + |t|
  {
    if p == "" then t == ""
    else if p[0] == '*' then Matches(p[1..], t) || (t != "" && Matches(p, t[1..]))
    else t != "" && (p[0] == '?' || p[0] == t[0]) && Matches(p[1..], t[1..])
  }

  predicate AllStars(p: string) { forall i :: 0 <= i < |p| ==> p[i] == '*' }

  predicate Sound(p: string, t: string, pi: nat, ti: nat, star: Option<nat>, mark: nat) {
    pi <= |p| && mark <= ti <= |t| && (star.Some? ==> star.value < pi)
  }

  /** The loop, from a state of its four cursors. */
  predicate Run(p: string, t: string, pi: nat, ti: nat, star: Option<nat>, mark: nat)
    requires Sound(p, t, pi, ti, star, mark)
    decreases |t| - mark, |p| - pi
  {
    if ti == |t| then AllStars(p[pi..])
    else if pi < |p| && (p[pi] == '?' || p[pi] == t[ti]) then Run(p, t, pi + 1, ti + 1, star, mark)
    else if pi < |p| && p[pi] == '*' then Run(p, t, pi + 1, ti, Some(pi), ti)
    else if star.Some? then Run(p, t, star.value + 1, mark + 1, star, mark + 1)
    else false
  }

  method Match(pattern: string, text: string) returns (r: bool)
    ensures r == Run(pattern, text, 0, 0, None, 0)
    ensures '*' !in text ==> r == Matches(pattern, text)
  {
    if '*' !in text { RunIsMatches(pattern, text); }
    var pi: nat, ti: nat, star: Option<nat>, mark: nat := 0, 0, None, 0;
    while ti < |text|
      invariant Sound(pattern, text, pi, ti, star, mark)
      invariant Run(pattern, text, pi, ti, star, mark) == Run(pattern, text, 0, 0, None, 0)
      decreases |text| - mark, |pattern| - pi
    {
      if pi < |pattern| && (pattern[pi] == '?' || pattern[pi] == text[ti]) {
        pi, ti := pi + 1, ti + 1;
      } else if pi < |pattern| && pattern[pi] == '*' {
        star, mark, pi := Some(pi), ti, pi + 1;
      } else if star.Some? {
        pi, mark := star.value + 1, mark + 1;
        ti := mark;
      } else {
        return false;
      }
    }
    ghost var rest := pattern[pi..];
    while pi < |pattern| && pattern[pi] == '*'
      invariant pi <= |pattern| && AllStars(rest) == AllStars(pattern[pi..])
    {
      assert pattern[pi..] == ['*'] + pattern[pi + 1..];
      pi := pi + 1;
    }
    r := pi == |pattern|;
  }

  // ---- the meaning ------------------------------------------------------------------------------------

  /** What is left of a match after a part without `*`: as many characters less. */
  lemma {:induction false} SkipFixed(p: string, n: nat, t: string)
    requires n <= |p| && '*' !in p[..n] && Matches(p, t)
    ensures n <= |t| && Matches(p[n..], t[n..])
    decreases n
  {
    if n > 0 {
      assert p[0] in p[..n] && p[1..][..n - 1] == p[..n][1..];
      SkipFixed(p[1..], n - 1, t[1..]);
      assert p[1..][n - 1..] == p[n..] && t[1..][n - 1..] == t[n..];
    } else {
      assert p[0..] == p && t[0..] == t;
    }
  }

  /** A `*` that matches from later on matches from here. */
  lemma {:induction false} StarTakesMore(p: string, t: string, k: nat)
    requires p != "" && p[0] == '*' && k <= |t| && Matches(p, t[k..])
    ensures Matches(p, t)
    decreases k
  {
    if k > 0 {
      assert t[1..][k - 1..] == t[k..];
      StarTakesMore(p, t[1..], k - 1);
    } else {
      assert t[0..] == t;
    }
  }

  /** What follows a `*` matches from somewhere. */
  lemma {:induction false} StarSkips(p: string, t: string) returns (k: nat)
    requires p != "" && p[0] == '*' && Matches(p, t)
    ensures k <= |t| && Matches(p[1..], t[k..])
    decreases |t|
  {
    if Matches(p[1..], t) {
      k := 0;
      assert t[0..] == t;
    } else {
      var j := StarSkips(p, t[1..]);
      k := j + 1;
      assert t[1..][j..] == t[k..];
    }
  }

  lemma {:induction false} StarsMatchNothing(p: string)
    ensures Matches(p, "") <==> AllStars(p)
    decreases |p|
  {
    if p != "" {
      StarsMatchNothing(p[1..]);
      assert p == [p[0]] + p[1..];
    }
  }

  // ---- the loop against it ------------------------------------------------------------------------------

  /** What the star passed last could still do: start one character later. */
  predicate Later(p: string, t: string, star: Option<nat>, mark: nat) {
    star.Some? && star.value < |p| && mark < |t| && Matches(p[star.value..], t[mark + 1..])
  }

  /** Since that star the pattern went on without another, one character each. */
  predicate Backtracks(p: string, t: string, pi: nat, ti: nat, star: Option<nat>, mark: nat) {
    Sound(p, t, pi, ti, star, mark) &&
    (star.Some? ==> p[star.value] == '*' && '*' !in p[star.value + 1..pi] && pi - star.value - 1 == ti - mark)
  }

  /** Starting later at the old star leads past where the pattern is now. */
  lemma {:induction false} LaterSkips(p: string, t: string, pi: nat, ti: nat, star: Option<nat>, mark: nat)
      returns (k: nat)
    requires Backtracks(p, t, pi, ti, star, mark) && Later(p, t, star, mark)
    ensures ti < k <= |t| && Matches(p[pi..], t[k..])
  {
    var s := star.value;
    var j := StarSkips(p[s..], t[mark + 1..]);
    assert p[s..][1..] == p[s + 1..] && t[mark + 1..][j..] == t[mark + 1 + j..];
    assert p[s + 1..][..pi - s - 1] == p[s + 1..pi];
    SkipFixed(p[s + 1..], pi - s - 1, t[mark + 1 + j..]);
    k := mark + 1 + j + (pi - s - 1);
    assert p[s + 1..][pi - s - 1..] == p[pi..] && t[mark + 1 + j..][pi - s - 1..] == t[k..];
  }

  /** From any state the loop can be in: it accepts if the rest matches, or would from a later start. */
  lemma {:induction false} RunMeans(p: string, t: string, pi: nat, ti: nat, star: Option<nat>, mark: nat)
    requires '*' !in t && Backtracks(p, t, pi, ti, star, mark)
    ensures Run(p, t, pi, ti, star, mark) == (Matches(p[pi..], t[ti..]) || Later(p, t, star, mark))
    decreases |t| - mark, |p| - pi
  {
    if ti == |t| {
      StarsMatchNothing(p[pi..]);
      assert t[ti..] == "";
      if Later(p, t, star, mark) { var k := LaterSkips(p, t, pi, ti, star, mark); }
    } else if pi < |p| && (p[pi] == '?' || p[pi] == t[ti]) {
      assert p[pi] != '*' by { assert t[ti] in t; }
      RunMeans(p, t, pi + 1, ti + 1, star, mark);
      assert p[pi..][1..] == p[pi + 1..] && t[ti..][1..] == t[ti + 1..];
    } else if pi < |p| && p[pi] == '*' {
      RunMeans(p, t, pi + 1, ti, Some(pi), ti);
      assert p[pi..][1..] == p[pi + 1..] && t[ti..][1..] == t[ti + 1..];
      if Later(p, t, star, mark) {
        var k := LaterSkips(p, t, pi, ti, star, mark);
        assert t[ti..][k - ti..] == t[k..];
        StarTakesMore(p[pi..], t[ti..], k - ti);
      }
    } else if star.Some? {
      RunMeans(p, t, star.value + 1, mark + 1, star, mark + 1);
      assert p[star.value..][1..] == p[star.value + 1..] && (mark + 1 < |t| ==> t[mark + 1..][1..] == t[mark + 2..]);
    }
  }

  lemma {:induction false} RunIsMatches(p: string, t: string)
    requires '*' !in t
    ensures Run(p, t, 0, 0, None, 0) == Matches(p, t)
  {
    RunMeans(p, t, 0, 0, None, 0);
    assert p[0..] == p && t[0..] == t;
  }

  // ---- texts with a star in them --------------------------------------------------------------------------

  function Questions(n: nat): (r: string)
    ensures |r| == n && forall i :: 0 <= i < n ==> r[i] == '?'
  {
    seq(n, _ => '?')
  }

  lemma {:induction false} QuestionsMatch(t: string)
    ensures Matches(Questions(|t|), t)
    decreases |t|
  {
    if t != "" {
      QuestionsMatch(t[1..]);
      assert Questions(|t|)[1..] == Questions(|t| - 1);
    }
  }

  /** `?`s up to a star of the text, `*`, and `?`s for all the rest, that star included. */
  function Trap(t: string, k: nat): string
    requires k < |t|
  {
    Questions(k) + "*" + Questions(|t| - k)
  }

  lemma {:induction false} TrapMatches(t: string, k: nat)
    requires k < |t|
    ensures Matches(Trap(t, k), t)
    decreases k
  {
    var p := Trap(t, k);
    if k == 0 {
      QuestionsMatch(t);
      assert p[1..] == Questions(|t|);
    } else {
      TrapMatches(t[1..], k - 1);
      assert p[1..] == Trap(t[1..], k - 1);
    }
  }

  lemma {:induction false} TrapFails(t: string, k: nat, i: nat)
    requires k < |t| && t[k] == '*' && i <= |t|
    ensures !Run(Trap(t, k), t, i, i, None, 0)
    decreases |t| - i
  {
    var p := Trap(t, k);
    if i == |t| {
      assert p[i..][0] == '?';
    } else {
      TrapFails(t, k, i + 1);
    }
  }

  /** The loop means what the wildcards mean, for every pattern, exactly on the texts without a `*`. */
  lemma {:induction false} ExactOnTextsWithoutStars(t: string)
    ensures (forall p: string :: Run(p, t, 0, 0, None, 0) == Matches(p, t)) <==> '*' !in t
  {
    if '*' in t {
      var k :| 0 <= k < |t| && t[k] == '*';
      TrapMatches(t, k);
      TrapFails(t, k, 0);
    } else {
      forall p: string ensures Run(p, t, 0, 0, None, 0) == Matches(p, t) { RunIsMatches(p, t); }
    }
  }
}
