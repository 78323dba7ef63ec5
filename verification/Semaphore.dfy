/** Counting semaphores: P and V as steps under the semaphore's spinlock, any number of threads. */
module Semaphore {
  const WORD := 0x1_0000_0000

  /** `asleep` is the wait channel, first in line first; `woken` are threads taken off it that have not looked at the
      count again yet; `vs` and `ps` count completed operations. */
  datatype State = State(count: nat, initial: nat, vs: nat, ps: nat, asleep: seq<nat>, woken: set<nat>)

  /** P's loop body, entered afresh or after waking; V. */
  datatype Step = P(t: nat) | V

  predicate Enabled(s: State, a: Step)
  {
    match a
    case P(t) => t !in s.asleep
    // The count is 32 bits; V's assertion stops the system when it wraps to zero.
    case V => s.count + 1 < WORD
  }

  function Next(s: State, a: Step): State
    requires Enabled(s, a)
  {
    match a
    case P(t) =>
      if s.count == 0 then s.(asleep := s.asleep + [t], woken := s.woken - {t})
      else s.(count := s.count - 1, ps := s.ps + 1, woken := s.woken - {t})
    case V =>
      var s2 := s.(count := s.count + 1, vs := s.vs + 1);
      if s.asleep == [] then s2 else s2.(asleep := s.asleep[1..], woken := s.woken + {s.asleep[0]})
  }

  ghost predicate Start(s: State)
  {
    s.count == s.initial < WORD && s.vs == s.ps == 0 && s.asleep == [] && s.woken == {}
  }

  ghost predicate Inv(s: State)
  {
    && s.count < WORD && s.count + s.ps == s.initial + s.vs
    && (forall i, j :: 0 <= i < j < |s.asleep| ==> s.asleep[i] != s.asleep[j])
    && (forall i :: 0 <= i < |s.asleep| ==> s.asleep[i] !in s.woken)
    && (s.asleep != [] ==> s.count <= |s.woken|)
  }

  lemma StepKeeps(s: State, a: Step)
    requires Inv(s) && Enabled(s, a)
    ensures Inv(Next(s, a))
  {
    var s2 := Next(s, a);
    match a
    case P(t) =>
      if t in s.woken { assert |s2.woken| == |s.woken| - 1; } else { assert s2.woken == s.woken; }
    case V =>
      if s.asleep != [] {
        assert s.asleep[0] !in s.woken;
        assert |s2.woken| == |s.woken| + 1;
      }
  }

  ghost predicate Run(run: seq<State>, steps: seq<Step>)
  {
    |run| == |steps| + 1 && Start(run[0]) && forall n :: 0 <= n < |steps| ==> Taken(run, steps, n)
  }

  /** Step `n` of the run. */
  ghost predicate Taken(run: seq<State>, steps: seq<Step>, n: nat)
  {
    n < |steps| && |run| == |steps| + 1 && Enabled(run[n], steps[n]) && run[n + 1] == Next(run[n], steps[n])
  }

  lemma {:induction false} RunInv(run: seq<State>, steps: seq<Step>, n: nat)
    requires Run(run, steps) && n < |run|
    ensures Inv(run[n]) && run[n].initial == run[0].initial
    decreases n
  {
    if n > 0 {
      RunInv(run, steps, n - 1);
      assert Taken(run, steps, n - 1);
      StepKeeps(run[n - 1], steps[n - 1]);
    }
  }


  /** The number of Ps among the first `n` steps that got through, counted from the run itself. */
  ghost function Passed(run: seq<State>, steps: seq<Step>, n: nat): nat
    requires |run| == |steps| + 1 && n <= |steps|
  {
    if n == 0 then 0 else Passed(run, steps, n - 1) + if steps[n - 1].P? && run[n - 1].count > 0 then 1 else 0
  }

  /** The number of Vs among the first `n` steps. */
  function Posted(steps: seq<Step>, n: nat): nat
    requires n <= |steps|
  {
    if n == 0 then 0 else Posted(steps, n - 1) + if steps[n - 1].V? then 1 else 0
  }

  /** In every run the count is what it started at, plus the Vs, minus the Ps that have completed. */
  lemma {:induction false} CountIsConserved(run: seq<State>, steps: seq<Step>, n: nat)
    requires Run(run, steps) && n <= |steps|
    ensures run[n].count + Passed(run, steps, n) == run[0].count + Posted(steps, n)
    decreases n
  {
    if n > 0 {
      assert Taken(run, steps, n - 1);
      CountIsConserved(run, steps, n - 1);
    }
  }

  /** No wakeup is lost: while anybody sleeps, every unit of the count is matched by a woken thread that has still to
      look at it, barging and going back to sleep included. */
  lemma NoLostWakeup(run: seq<State>, steps: seq<Step>, n: nat)
    requires Run(run, steps) && n < |run| && run[n].asleep != []
    ensures run[n].count <= |run[n].woken|
    ensures run[n].count > 0 ==> exists t :: t in run[n].woken && t !in run[n].asleep
  {
    RunInv(run, steps, n);
    if run[n].count > 0 {
      var t :| t in run[n].woken;
    }
  }

  /** The threads that went to sleep in steps `m` to `n`, and those woken, in order. */
  ghost function Slept(run: seq<State>, steps: seq<Step>, m: nat, n: nat): seq<nat>
    requires m <= n <= |steps| < |run|
  {
    if m == n then []
    else Slept(run, steps, m, n - 1) +
         if steps[n - 1].P? && run[n - 1].count == 0 then [steps[n - 1].t] else []
  }

  ghost function WokenUp(run: seq<State>, steps: seq<Step>, m: nat, n: nat): seq<nat>
    requires m <= n <= |steps| < |run|
  {
    if m == n then []
    else WokenUp(run, steps, m, n - 1) +
         if steps[n - 1].V? && run[n - 1].asleep != [] then [run[n - 1].asleep[0]] else []
  }

  /** First to sleep, first woken: over any stretch of any run those asleep before and then those who went to sleep are
      those woken and then those still asleep. A P that finds the count 0 sleeps, and a V wakes one if any sleeps. */
  lemma {:induction false} SleepersInOrder(run: seq<State>, steps: seq<Step>, m: nat, n: nat)
    requires Run(run, steps) && m <= n <= |steps| < |run|
    ensures run[m].asleep + Slept(run, steps, m, n) == WokenUp(run, steps, m, n) + run[n].asleep
    decreases n
  {
    if m < n {
      assert Taken(run, steps, n - 1);
      SleepersInOrder(run, steps, m, n - 1);
      OneSleeper(run[n - 1], steps[n - 1]);
      hide Next, Enabled, Taken, Run;
      Joined(run[m].asleep, Slept(run, steps, m, n - 1), WokenUp(run, steps, m, n - 1), run[n - 1].asleep,
          if steps[n - 1].P? && run[n - 1].count == 0 then [steps[n - 1].t] else [],
          if steps[n - 1].V? && run[n - 1].asleep != [] then [run[n - 1].asleep[0]] else [], run[n].asleep);
    }
  }

  lemma OneSleeper(s: State, a: Step)
    requires Enabled(s, a)
    ensures s.asleep + (if a.P? && s.count == 0 then [a.t] else []) ==
            (if a.V? && s.asleep != [] then [s.asleep[0]] else []) + Next(s, a).asleep
  {
  }

  lemma Joined(q: seq<nat>, slept: seq<nat>, woken: seq<nat>, q1: seq<nat>, x: seq<nat>, y: seq<nat>, q2: seq<nat>)
    requires q + slept == woken + q1 && q1 + x == y + q2
    ensures q + (slept + x) == (woken + y) + q2
  {
    assert q + (slept + x) == (q + slept) + x == woken + (q1 + x) == (woken + y) + q2;
  }

  /** A thread V wakes is to look at the count again, and does so in its next P. */
  lemma WokenLooksAgain(run: seq<State>, steps: seq<Step>, n: nat)
    requires Run(run, steps) && n < |steps| && Taken(run, steps, n)
    ensures steps[n].V? ==>
            run[n + 1].woken == run[n].woken + if run[n].asleep == [] then {} else {run[n].asleep[0]}
    ensures steps[n].P? ==> run[n + 1].woken == run[n].woken - {steps[n].t}
  {
  }
}
