/** Runs given by a schedule: a list of steps, each enabled in its turn. */
module ProtocolSchedule {
  import opened Base
  import opened Protocol

  /** The state after `steps`, if each of them is enabled in its turn. */
  ghost function RunFrom(c: Config, s: State, steps: seq<Step>): Option<State>
    decreases |steps|
  {
    if steps == [] then Some(s)
    else if Shape(c, s) && Enabled(c, s, steps[0]) then RunFrom(c, Apply(c, s, steps[0]), steps[1..])
    else None
  }

  lemma {:induction false} RunAppend(c: Config, s: State, a: seq<Step>, b: seq<Step>)
    requires RunFrom(c, s, a).Some?
    ensures RunFrom(c, s, a + b) == RunFrom(c, RunFrom(c, s, a).value, b)
    decreases |a|
  {
    if a == [] {
      assert a + b == b;
    } else {
      RunStep(c, s, a);
      RunStep(c, s, a + b);
      RunAppend(c, Apply(c, s, a[0]), a[1..], b);
      assert (a + b)[1..] == a[1..] + b;
    }
  }

  lemma RunStep(c: Config, s: State, steps: seq<Step>)
    requires steps != []
    ensures RunFrom(c, s, steps) ==
      if Shape(c, s) && Enabled(c, s, steps[0]) then RunFrom(c, Apply(c, s, steps[0]), steps[1..]) else None
  {
  }

  /** A schedule that runs gives a run. */
  lemma {:induction false} RunIsBehavior(c: Config, s: State, steps: seq<Step>) returns (states: seq<State>)
    requires RunFrom(c, s, steps).Some?
    ensures |states| == |steps| + 1 && states[0] == s && Some(states[|steps|]) == RunFrom(c, s, steps)
    ensures forall n :: 0 <= n < |steps| ==> Next(c, states[n], steps[n], states[n + 1])
    decreases |steps|
  {
    if steps == [] {
      states := [s];
    } else {
      var tail := RunIsBehavior(c, Apply(c, s, steps[0]), steps[1..]);
      states := [s] + tail;
      forall n | 0 <= n < |steps| ensures Next(c, states[n], steps[n], states[n + 1]) {
        if n > 0 { assert Next(c, tail[n - 1], steps[1..][n - 1], tail[n]); }
      }
    }
  }

  lemma Three(c: Config, s0: State, a: Step, s1: State, b: Step, s2: State, d: Step, s3: State)
    requires Next(c, s0, a, s1) && Next(c, s1, b, s2) && Next(c, s2, d, s3)
    ensures RunFrom(c, s0, [a, b, d]) == Some(s3)
  {
    assert [a, b, d][1..] == [b, d] && [b, d][1..] == [d] && [d][1..] == [];
    assert RunFrom(c, s2, [d]) == RunFrom(c, s3, []);
    assert RunFrom(c, s1, [b, d]) == RunFrom(c, s2, [d]);
  }

  lemma Four(c: Config, s0: State, a: Step, s1: State, b: Step, s2: State, d: Step, s3: State, e: Step, s4: State)
    requires Next(c, s0, a, s1) && Next(c, s1, b, s2) && Next(c, s2, d, s3) && Next(c, s3, e, s4)
    ensures RunFrom(c, s0, [a, b, d, e]) == Some(s4)
  {
    Three(c, s1, b, s2, d, s3, e, s4);
    assert [a, b, d, e][1..] == [b, d, e];
  }
}
