/** Stretches of runs of the claim protocol: from any state, and put one after the other. */
module LeaseRuns {
  import opened LeaseProtocol

  ghost predicate CanRun(s: State, steps: seq<Step>)
    decreases |steps|, 0
  {
    steps != [] ==>
      var n := |steps| - 1;
      CanRun(s, steps[..n]) && Enabled(RunFrom(s, steps[..n]), steps[n])
  }

  ghost function RunFrom(s: State, steps: seq<Step>): State
    requires CanRun(s, steps)
    decreases |steps|, 1
  {
    if steps == [] then s
    else
      var n := |steps| - 1;
      Next(RunFrom(s, steps[..n]), steps[n])
  }

  ghost predicate Reaches(s: State, steps: seq<Step>, s': State) {
    CanRun(s, steps) && RunFrom(s, steps) == s'
  }

  lemma Reached(s: State, steps: seq<Step>, mid: State, step: Step)
    requires Reaches(s, steps, mid) && Enabled(mid, step)
    ensures Reaches(s, steps + [step], Next(mid, step))
  {
    assert (steps + [step])[..|steps|] == steps;
  }

  lemma {:induction false} Joined(s: State, a: seq<Step>, mid: State, b: seq<Step>, s': State)
    requires Reaches(s, a, mid) && Reaches(mid, b, s')
    ensures Reaches(s, a + b, s')
    decreases |b|
  {
    if b == [] {
      assert a + b == a;
    } else {
      var n := |b| - 1;
      Joined(s, a, mid, b[..n], RunFrom(mid, b[..n]));
      Reached(s, a + b[..n], RunFrom(mid, b[..n]), b[n]);
      assert a + b == (a + b[..n]) + [b[n]];
    }
  }

  /** A run and one step more. */
  lemma OneMore(r: Run, step: Step) returns (r': Run)
    requires IsRun(r) && Enabled(r.states[|r.states| - 1], step)
    ensures r' == Run(r.states + [Next(r.states[|r.states| - 1], step)], r.steps + [step])
    ensures IsRun(r') && |r'.states| == |r.states| + 1 && |r'.steps| == |r.steps| + 1
    ensures r'.states[|r'.steps| - 1] == r.states[|r.states| - 1] && r'.steps[|r'.steps| - 1] == step
    ensures r'.states[|r'.steps|] == Next(r.states[|r.states| - 1], step)
  {
    r' := Run(r.states + [Next(r.states[|r.states| - 1], step)], r.steps + [step]);
    hide LeaseProtocol.Next, Enabled;
    forall i | 0 <= i < |r'.steps|
      ensures Enabled(r'.states[i], r'.steps[i]) && r'.states[i + 1] == Next(r'.states[i], r'.steps[i])
    {
      if i < |r.steps| {
        assert r'.states[i] == r.states[i] && r'.states[i + 1] == r.states[i + 1];
      }
    }
  }

  /** A run followed by a reachable stretch is a run. */
  lemma {:induction false} Extends(r: Run, steps: seq<Step>) returns (r': Run)
    requires IsRun(r) && CanRun(r.states[|r.states| - 1], steps)
    ensures IsRun(r') && r'.steps == r.steps + steps
    ensures r'.states[|r'.states| - 1] == RunFrom(r.states[|r.states| - 1], steps)
    decreases |steps|
  {
    if steps == [] {
      r' := r;
    } else {
      var n := |steps| - 1;
      var before := Extends(r, steps[..n]);
      hide LeaseProtocol.Next, Enabled, IsRun;
      r' := OneMore(before, steps[n]);
    }
  }

  lemma FromTheStart(steps: seq<Step>, s: State) returns (r: Run)
    requires Reaches(INITIAL, steps, s)
    ensures IsRun(r) && r.steps == steps && |r.states| == |steps| + 1 && r.states[|steps|] == s
  {
    r := Extends(Run([INITIAL], []), steps);
  }
}
