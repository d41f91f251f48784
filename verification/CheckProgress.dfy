/** Progress of the check queue: waiting cannot go on for ever (src/checkqueue.h). */
module CheckProgress {
  import opened Results
  import opened Sums
  import opened CheckQueue

  /** What a thread may still do by itself: run its checks and hand them back, wake up, or come in. */
  function Weight(l: Local): int {
    match l
    case Out => 1
    case Asleep(notified) => if notified then 1 else 0
    case Busy(batch, next, _) => |batch| - next + 2
  }

  ghost function Weights(threads: map<nat, Local>): map<int, int> {
    map t: int | t in threads :: Weight(threads[t])
  }

  /** A bound on the steps to come. */
  ghost function Potential(s: State): int {
    4 * |s.queue| + Total(Weights(s.threads))
  }

  lemma {:induction false} WeightMoves(threads: map<nat, Local>, t: nat, l: Local)
    requires t in threads
    ensures Total(Weights(threads[t := l])) == Total(Weights(threads)) - Weight(threads[t]) + Weight(l)
  {
    assert Weights(threads[t := l]) == Weights(threads)[t := Weight(l)];
    TotalPut(Weights(threads), t, Weight(l));
  }

  lemma {:induction false} PotentialPositive(s: State)
    requires Inv(s)
    ensures Potential(s) >= 0
  {
    hide DistinctSeq, InFlight, Elements;
    TotalPositive(Weights(s.threads));
  }

  // ---- One step ----

  /** A step of a thread, other than waking up without having been notified. */
  predicate Genuine(s: State, step: Step) {
    Enabled(s, step) && !step.Add? && (step.Wake? ==> s.threads[step.t].notified)
  }

  /** A thread that looks at the queue either returns or uses up its turn. */
  lemma {:induction false} InspectCost(s: State, t: nat, limit: nat)
    requires t in s.threads && s.threads[t].Out? && Inspect(s, t, limit).1.None?
    ensures Potential(Inspect(s, t, limit).0) <= Potential(s) - 1
  {
    hide BatchSize, Batch;
    if s.queue == [] {
      WeightMoves(s.threads, t, Asleep(false));
    } else {
      var total, idle := if s.nTotal < 0 then 0 else s.nTotal, if s.nIdle < 0 then 0 else s.nIdle;
      var n := BatchSize(|s.queue|, total, idle, limit);
      WeightMoves(s.threads, t, Busy(Batch(s.queue, n), 0, s.allOk));
    }
  }

  lemma {:induction false} FinishCost(s: State, t: nat)
    requires t in s.threads && s.threads[t].Busy? && s.threads[t].next == |s.threads[t].batch|
    ensures t in Finished(s, t).threads && Finished(s, t).threads[t].Out?
    ensures Potential(Finished(s, t)) <= Potential(s)
  {
    var threads := s.threads[t := Out];
    WeightMoves(s.threads, t, Out);
    if MASTER in threads && threads[MASTER].Asleep? {
      WeightMoves(threads, MASTER, Asleep(true));
    }
  }

  /** Every step of a thread that does not end the wait uses up some of the potential; waking up without notice at least
      adds nothing. */
  lemma {:induction false} StepCost(s: State, step: Step, limit: nat)
    requires Enabled(s, step) && !step.Add? && Take(s, step, limit).1.None?
    ensures Potential(Take(s, step, limit).0) <= Potential(s) - (if Genuine(s, step) then 1 else 0)
  {
    hide Inspect, Potential, Finished;
    match step {
      case Enter(t) =>
        SamePotential(s, Entered(s));
        InspectCost(Entered(s), t, limit);
      case Wake(t) =>
        WakeCost(s, t);
        InspectCost(Woken(s, t), t, limit);
      case Work(t) =>
        WorkCost(s, t);
      case Finish(t) =>
        FinishCost(s, t);
        InspectCost(Finished(s, t), t, limit);
    }
  }

  lemma {:induction false} SamePotential(s: State, r: State)
    requires s.queue == r.queue && s.threads == r.threads
    ensures Potential(s) == Potential(r)
  {
  }

  lemma {:induction false} WakeCost(s: State, t: nat)
    requires t in s.threads && s.threads[t].Asleep?
    ensures Potential(Woken(s, t)) == Potential(s) + if s.threads[t].notified then 0 else 1
  {
    WeightMoves(s.threads, t, Out);
  }

  lemma {:induction false} WorkCost(s: State, t: nat)
    requires t in s.threads && s.threads[t].Busy? && s.threads[t].next < |s.threads[t].batch|
    ensures Potential(Worked(s, t)) == Potential(s) - 1
  {
    var b := s.threads[t];
    WeightMoves(s.threads, t, Busy(b.batch, b.next + 1, b.ok && b.batch[b.next].passes));
  }

  // ---- Whole runs ----

  /** Steps from any state on, without new checks and without a return of the master. */
  ghost predicate IsStretch(states: seq<State>, steps: seq<Step>, limit: nat) {
    && |states| == |steps| + 1 && Inv(states[0])
    && forall i :: 0 <= i < |steps| ==>
      && Enabled(states[i], steps[i]) && !steps[i].Add?
      && Take(states[i], steps[i], limit) == (states[i + 1], None)
  }

  ghost function GenuineSteps(states: seq<State>, steps: seq<Step>): nat
    requires |states| == |steps| + 1
    decreases |steps|
  {
    if |steps| == 0 then 0
    else
      var n := |steps| - 1;
      GenuineSteps(states[..n + 1], steps[..n]) + (if Genuine(states[n], steps[n]) then 1 else 0)
  }

  /** However the threads are scheduled, and however often they wake up without notice: until the master returns they
      take no more genuine steps than the potential of the state they start from. */
  lemma {:induction false} StepsBounded(states: seq<State>, steps: seq<Step>, limit: nat)
    requires IsStretch(states, steps, limit)
    ensures Inv(states[|steps|])
    ensures GenuineSteps(states, steps) <= Potential(states[0]) - Potential(states[|steps|])
    ensures GenuineSteps(states, steps) <= Potential(states[0])
    decreases |steps|
  {
    hide Inv, Potential, Take, Genuine;
    if |steps| > 0 {
      var n := |steps| - 1;
      assert IsStretch(states[..n + 1], steps[..n], limit);
      StepsBounded(states[..n + 1], steps[..n], limit);
      assert states[..n + 1][n] == states[n] && states[..n + 1][0] == states[0] && |steps[..n]| == n;
      assert Enabled(states[n], steps[n]) && !steps[n].Add?;
      assert Take(states[n], steps[n], limit) == (states[n + 1], None);
      TakeKeeps(states[n], steps[n], limit);
      StepCost(states[n], steps[n], limit);
    }
    PotentialPositive(states[|steps|]);
  }

  /** As long as the master waits, some thread can take a genuine step. */
  lemma {:induction false} NeverStuck(s: State) returns (step: Step)
    requires Inv(s) && !s.threads[MASTER].Out?
    ensures Genuine(s, step)
  {
    if t :| t in s.threads && s.threads[t].Busy? {
      step := if s.threads[t].next < |s.threads[t].batch| then Work(t) else Finish(t);
      assert s.threads[t].next <= |s.threads[t].batch|;
    } else {
      NothingInFlight(s.threads);
      step := Wake(MASTER);
    }
  }

  lemma {:induction false} NothingInFlight(threads: map<nat, Local>)
    requires forall t :: t in threads ==> !threads[t].Busy?
    ensures InFlight(threads) == {}
  {
  }

  /** The master stays inside until it returns. */
  lemma {:induction false} MasterStays(s: State, step: Step, limit: nat)
    requires Inv(s) && !s.threads[MASTER].Out? && Enabled(s, step) && !step.Add? && Take(s, step, limit).1.None?
    ensures MASTER in Take(s, step, limit).0.threads && !Take(s, step, limit).0.threads[MASTER].Out?
  {
    hide CountsOk, WorkOk, ResultsOk, BatchSize, Batch;
  }

  /** From every state in which the master waits, a schedule of genuine steps makes it return. */
  lemma {:induction false} WaitCanReturn(s: State, limit: nat)
      returns (states: seq<State>, steps: seq<Step>, last: Step)
    requires Inv(s) && !s.threads[MASTER].Out?
    ensures IsStretch(states, steps, limit) && states[0] == s
    ensures forall i :: 0 <= i < |steps| ==> Genuine(states[i], steps[i])
    ensures Genuine(states[|steps|], last) && Take(states[|steps|], last, limit).1.Some?
    decreases Potential(s)
  {
    hide Inv, Potential, Take, Genuine;
    var step := NeverStuck(s);
    GenuineIs(s, step);
    var r := Take(s, step, limit);
    if r.1.Some? {
      states, steps, last := [s], [], step;
    } else {
      PotentialPositive(s);
      StepCost(s, step, limit);
      TakeKeeps(s, step, limit);
      PotentialPositive(r.0);
      MasterStays(s, step, limit);
      var more, next;
      more, next, last := WaitCanReturn(r.0, limit);
      states, steps := [s] + more, [step] + next;
      forall i | 0 <= i < |steps|
        ensures Genuine(states[i], steps[i]) && Enabled(states[i], steps[i]) && !steps[i].Add?
                && Take(states[i], steps[i], limit) == (states[i + 1], None)
      {
        if i > 0 {
          assert states[i] == more[i - 1] && steps[i] == next[i - 1] && states[i + 1] == more[i];
        }
      }
      assert states[|steps|] == more[|next|];
    }
  }

  lemma {:induction false} GenuineIs(s: State, step: Step)
    requires Genuine(s, step)
    ensures Enabled(s, step) && !step.Add?
  {
  }
}
