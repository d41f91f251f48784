/** `CCheckQueue` (src/checkqueue.h) as a state machine: one step per stretch of code that
    runs under the mutex, and one per check executed outside it. Thread 0 is the master; any
    number of others are workers. A sleeping thread may wake at any time. */
module CheckQueue {
  import opened Results

  /** A check and what its `operator()` returns; the serial number tells checks apart. */
  datatype Check = Check(serial: nat, passes: bool)

  /** Where a thread is: outside `Loop`, in `cond.wait`, or executing its batch. */
  datatype Local = Out | Asleep(notified: bool) | Busy(batch: seq<Check>, next: nat, ok: bool)

  /** The fields of the queue, the threads, and what has happened since the last `Wait`
      returned: the checks added, those executed, and those whose batch was cleaned up. */
  datatype State = State(
    queue: seq<Check>,
    nIdle: int,
    nTotal: int,
    allOk: bool,
    nTodo: int,
    threads: map<nat, Local>,
    added: set<Check>,
    ran: set<Check>,
    settled: set<Check>,
    serial: nat)

  const MASTER: nat := 0

  // ---- The steps ----

  function Min(a: int, b: int): int {
    if a < b then a else b
  }

  /** How many units a thread takes: at least one, at most `nBatchSize`. */
  function BatchSize(queued: nat, nTotal: nat, nIdle: nat, limit: nat): (n: nat)
    requires queued > 0
    ensures 1 <= n <= queued
  {
    var n := Min(limit, queued / (nTotal + nIdle + 1));
    if n < 1 then 1 else n
  }

  /** The last `n` of the queue, from the back. */
  function Batch(queue: seq<Check>, n: nat): (b: seq<Check>)
    requires n <= |queue|
    ensures |b| == n && forall i :: 0 <= i < n ==> b[i] == queue[|queue| - 1 - i]
  {
    seq(n, i requires 0 <= i < n => queue[|queue| - 1 - i])
  }

  /** From the `while (queue.empty())` on, for a thread that holds the mutex and is counted in
      `nTotal` only: returns, goes to sleep, or takes a batch. */
  function Inspect(s: State, t: nat, limit: nat): (State, Option<bool>) {
    if s.queue == [] then
      if t == MASTER && s.nTodo == 0 then
        (s.(nTotal := s.nTotal - 1, allOk := true, threads := s.threads[t := Out], added := {}, ran := {},
          settled := {}),
         Some(s.allOk))
      else (s.(nIdle := s.nIdle + 1, threads := s.threads[t := Asleep(false)]), None)
    else
      var total, idle := if s.nTotal < 0 then 0 else s.nTotal, if s.nIdle < 0 then 0 else s.nIdle;
      var n := BatchSize(|s.queue|, total, idle, limit);
      (s.(queue := s.queue[..|s.queue| - n], threads := s.threads[t := Busy(Batch(s.queue, n), 0, s.allOk)]), None)
  }

  datatype Step =
    | Enter(t: nat)
    | Wake(t: nat)
    | Work(t: nat)
    | Finish(t: nat)
    | Add(results: seq<bool>, chosen: nat)

  function Entered(s: State): State {
    s.(nTotal := s.nTotal + 1)
  }

  function Woken(s: State, t: nat): State {
    s.(nIdle := s.nIdle - 1, threads := s.threads[t := Out])
  }

  function Elements(checks: seq<Check>): set<Check> {
    set i | 0 <= i < |checks| :: checks[i]
  }

  /** The clean-up at the head of the loop. */
  function Finished(s: State, t: nat): State
    requires t in s.threads && s.threads[t].Busy?
  {
    var b := s.threads[t];
    var nTodo := s.nTodo - |b.batch|;
    var threads := s.threads[t := Out];
    s.(allOk := s.allOk && b.ok, nTodo := nTodo, settled := s.settled + Elements(b.batch),
       threads := if nTodo == 0 && t != MASTER && MASTER in threads && threads[MASTER].Asleep?
                  then threads[MASTER := Asleep(true)] else threads)
  }

  function Worked(s: State, t: nat): State
    requires t in s.threads && s.threads[t].Busy? && s.threads[t].next < |s.threads[t].batch|
  {
    var b := s.threads[t];
    var c := b.batch[b.next];
    var s1 := s.(threads := s.threads[t := Busy(b.batch, b.next + 1, b.ok && c.passes)]);
    if b.ok then s1.(ran := s.ran + {c}) else s1
  }

  function NewChecks(results: seq<bool>, serial: nat): (r: seq<Check>)
    ensures |r| == |results| && forall i :: 0 <= i < |r| ==> r[i] == Check(serial + i, results[i])
  {
    seq(|results|, i requires 0 <= i < |results| => Check(serial + i, results[i]))
  }

  /** `notify_one` wakes at most one worker, `notify_all` every one. */
  function Notify(threads: map<nat, Local>, n: nat, chosen: nat): map<nat, Local> {
    map t | t in threads :: if t != MASTER && threads[t].Asleep?
      && (n > 1 || (n == 1 && t == chosen)) then Asleep(true) else threads[t]
  }

  function Extended(s: State, results: seq<bool>, chosen: nat): State {
    var checks := NewChecks(results, s.serial);
    s.(queue := s.queue + checks, nTodo := s.nTodo + |checks|, threads := Notify(s.threads, |checks|, chosen),
       added := s.added + Elements(checks), serial := s.serial + |checks|)
  }

  predicate Enabled(s: State, step: Step) {
    match step
    case Enter(t) => t in s.threads && s.threads[t].Out?
    case Wake(t) => t in s.threads && s.threads[t].Asleep?
    case Work(t) => t in s.threads && s.threads[t].Busy? && s.threads[t].next < |s.threads[t].batch|
    case Finish(t) => t in s.threads && s.threads[t].Busy? && s.threads[t].next == |s.threads[t].batch|
    case Add(_, _) => MASTER in s.threads && s.threads[MASTER].Out?
  }

  /** A step, with the result of `Wait` when it returns. */
  function Take(s: State, step: Step, limit: nat): (State, Option<bool>)
    requires Enabled(s, step)
  {
    match step
    case Enter(t) => Inspect(Entered(s), t, limit)
    case Wake(t) => Inspect(Woken(s, t), t, limit)
    case Work(t) => (Worked(s, t), None)
    case Finish(t) => Inspect(Finished(s, t), t, limit)
    case Add(results, chosen) => (Extended(s, results, chosen), None)
  }

  // ---- The invariant ----

  ghost function Sleepers(threads: map<nat, Local>): set<nat> {
    set t | t in threads && threads[t].Asleep?
  }

  ghost function Runners(threads: map<nat, Local>): set<nat> {
    set t | t in threads && threads[t].Busy?
  }

  ghost function InFlight(threads: map<nat, Local>): set<Check> {
    set t, i | t in threads && threads[t].Busy? && 0 <= i < |threads[t].batch| :: threads[t].batch[i]
  }

  ghost predicate DistinctSeq(q: seq<Check>) {
    forall i, j :: 0 <= i < j < |q| ==> q[i] != q[j]
  }

  /** Batches are not empty, without repetition, and shared by no two threads. */
  ghost predicate BatchesOk(threads: map<nat, Local>) {
    && (forall t :: t in threads && threads[t].Busy? ==>
          |threads[t].batch| > 0 && threads[t].next <= |threads[t].batch| && DistinctSeq(threads[t].batch))
    && (forall t, u :: t in threads && u in threads && t != u && threads[t].Busy? && threads[u].Busy? ==>
          Elements(threads[t].batch) !! Elements(threads[u].batch))
  }

  ghost predicate AllRan(checks: set<Check>, ran: set<Check>) {
    forall c :: c in checks ==> c in ran && c.passes
  }

  ghost predicate SomeFails(checks: set<Check>) {
    exists c :: c in checks && !c.passes
  }

  /** What a busy thread knows about its batch. */
  ghost predicate BusyOk(b: Local, added: set<Check>, ran: set<Check>) {
    b.Busy? ==>
      && b.next <= |b.batch|
      && (b.ok ==> forall i :: 0 <= i < b.next ==> b.batch[i] in ran && b.batch[i].passes)
      && (!b.ok ==> SomeFails(added))
  }

  /** `holders` threads hold the mutex inside `Loop`; it is 0 or 1. */
  ghost predicate CountsOk(threads: map<nat, Local>, nIdle: int, nTotal: int, holders: nat) {
    nIdle == |Sleepers(threads)| && nTotal == |Sleepers(threads)| + |Runners(threads)| + holders
  }

  /** Every check added since the last `Wait` is queued, in a batch or settled, and `nTodo`
      counts the first two. */
  ghost predicate WorkOk(queue: seq<Check>, threads: map<nat, Local>, nTodo: int, added: set<Check>,
      settled: set<Check>, serial: nat) {
    && DistinctSeq(queue) && BatchesOk(threads)
    && Elements(queue) !! InFlight(threads)
    && nTodo == |queue| + |InFlight(threads)|
    && added == Elements(queue) + InFlight(threads) + settled
    && (forall c :: c in added ==> c.serial < serial)
  }

  ghost predicate ResultsOk(allOk: bool, threads: map<nat, Local>, added: set<Check>, ran: set<Check>,
      settled: set<Check>) {
    && (if allOk then AllRan(settled, ran) else SomeFails(added))
    && (forall t :: t in threads ==> BusyOk(threads[t], added, ran))
  }

  /** A waiting master has been told, or there is work in flight. */
  ghost predicate MasterOk(queue: seq<Check>, threads: map<nat, Local>, nTodo: int) {
    && MASTER in threads
    && (threads[MASTER].Asleep? ==> queue == [] && (threads[MASTER].notified || nTodo > 0))
  }

  ghost predicate Core(s: State, holders: nat) {
    && CountsOk(s.threads, s.nIdle, s.nTotal, holders)
    && WorkOk(s.queue, s.threads, s.nTodo, s.added, s.settled, s.serial)
    && ResultsOk(s.allOk, s.threads, s.added, s.ran, s.settled)
    && MasterOk(s.queue, s.threads, s.nTodo)
  }

  ghost predicate Inv(s: State) {
    Core(s, 0)
  }

  // ---- Taking and handing back ----

  ghost function Mine(l: Local): set<Check> {
    if l.Busy? then Elements(l.batch) else {}
  }

  /** What is in flight at `t` and elsewhere. */
  lemma {:induction false} InFlightSplit(threads: map<nat, Local>, t: nat, l: Local)
    requires t in threads
    ensures InFlight(threads[t := l]) == InFlight(threads[t := Out]) + Mine(l)
  {
    var after, rest := threads[t := l], threads[t := Out];
    forall c | c in InFlight(after) ensures c in InFlight(rest) + Mine(l) {
      var u, i :| u in after && after[u].Busy? && 0 <= i < |after[u].batch| && after[u].batch[i] == c;
      if u != t {
        assert rest[u] == after[u] && rest[u].batch[i] == c;
      }
    }
    forall c | c in InFlight(rest) + Mine(l) ensures c in InFlight(after) {
      if c in Mine(l) {
        var i :| 0 <= i < |l.batch| && l.batch[i] == c;
        assert after[t].batch[i] == c;
      } else {
        var u, i :| u in rest && rest[u].Busy? && 0 <= i < |rest[u].batch| && rest[u].batch[i] == c;
        assert after[u] == rest[u] && after[u].batch[i] == c;
      }
    }
  }

  lemma {:induction false} InFlightAt(threads: map<nat, Local>, t: nat)
    requires t in threads
    ensures InFlight(threads) == InFlight(threads[t := Out]) + Mine(threads[t])
  {
    InFlightSplit(threads, t, threads[t]);
    assert threads[t := threads[t]] == threads;
  }

  /** Other threads' work is disjoint from one's own. */
  lemma {:induction false} MineAlone(threads: map<nat, Local>, t: nat)
    requires BatchesOk(threads) && t in threads
    ensures InFlight(threads[t := Out]) !! Mine(threads[t]) && BatchesOk(threads[t := Out])
  {
    var rest := threads[t := Out];
    forall c | c in InFlight(rest) ensures c !in Mine(threads[t]) {
      var u, i :| u in rest && rest[u].Busy? && 0 <= i < |rest[u].batch| && rest[u].batch[i] == c;
      assert c in Elements(threads[u].batch);
    }
  }

  /** Changing a thread that is not busy to one that is not busy leaves the work alone. */
  lemma {:induction false} WorkSame(queue: seq<Check>, threads: map<nat, Local>, nTodo: int, added: set<Check>,
      settled: set<Check>, serial: nat, t: nat, l: Local)
    requires WorkOk(queue, threads, nTodo, added, settled, serial) && t in threads && !threads[t].Busy? && !l.Busy?
    ensures WorkOk(queue, threads[t := l], nTodo, added, settled, serial)
  {
    hide InFlight, Elements;
    InFlightAt(threads, t);
    InFlightSplit(threads, t, l);
    assert InFlight(threads[t := l]) == InFlight(threads);
  }

  lemma {:induction false} ResultsSame(allOk: bool, threads: map<nat, Local>, added: set<Check>, ran: set<Check>,
      settled: set<Check>, t: nat, l: Local)
    requires ResultsOk(allOk, threads, added, ran, settled) && !l.Busy?
    ensures ResultsOk(allOk, threads[t := l], added, ran, settled)
  {
  }

  lemma {:induction false} CountsMove(threads: map<nat, Local>, nIdle: int, nTotal: int, holders: nat, t: nat, l: Local)
    requires CountsOk(threads, nIdle, nTotal, holders) && t in threads
    ensures threads[t].Asleep? && l.Out? ==> CountsOk(threads[t := l], nIdle - 1, nTotal, holders + 1)
    ensures threads[t].Busy? && l.Out? ==> CountsOk(threads[t := l], nIdle, nTotal, holders + 1)
    ensures holders > 0 && threads[t].Out? && l.Asleep? ==> CountsOk(threads[t := l], nIdle + 1, nTotal, holders - 1)
    ensures holders > 0 && threads[t].Out? && l.Busy? ==> CountsOk(threads[t := l], nIdle, nTotal, holders - 1)
    ensures threads[t].Busy? && l.Busy? ==> CountsOk(threads[t := l], nIdle, nTotal, holders)
    ensures threads[t].Asleep? && l.Asleep? ==> CountsOk(threads[t := l], nIdle, nTotal, holders)
  {
    hide Sleepers, Runners;
    SleepersMove(threads, t, l);
    RunnersMove(threads, t, l);
  }

  lemma {:induction false} SleepersMove(threads: map<nat, Local>, t: nat, l: Local)
    requires t in threads
    ensures |Sleepers(threads[t := l])|
         == |Sleepers(threads)| - (if threads[t].Asleep? then 1 else 0) + (if l.Asleep? then 1 else 0)
  {
    var before, after := Sleepers(threads), Sleepers(threads[t := l]);
    assert before - {t} == after - {t};
    Without(before, t);
    Without(after, t);
  }

  lemma {:induction false} RunnersMove(threads: map<nat, Local>, t: nat, l: Local)
    requires t in threads
    ensures |Runners(threads[t := l])|
         == |Runners(threads)| - (if threads[t].Busy? then 1 else 0) + (if l.Busy? then 1 else 0)
  {
    var before, after := Runners(threads), Runners(threads[t := l]);
    assert before - {t} == after - {t};
    Without(before, t);
    Without(after, t);
  }

  lemma {:induction false} Without(s: set<nat>, t: nat)
    ensures |s - {t}| == |s| - (if t in s then 1 else 0)
  {
    if t in s {
      assert s == (s - {t}) + {t};
    } else {
      assert s - {t} == s;
    }
  }

  lemma {:induction false} EnteredKeeps(s: State, t: nat)
    requires Inv(s) && t in s.threads && s.threads[t].Out?
    ensures Core(Entered(s), 1)
  {
  }

  lemma {:induction false} WokenKeeps(s: State, t: nat)
    requires Inv(s) && t in s.threads && s.threads[t].Asleep?
    ensures Core(Woken(s, t), 1)
  {
    hide CountsOk, WorkOk, ResultsOk;
    CountsMove(s.threads, s.nIdle, s.nTotal, 0, t, Out);
    WorkSame(s.queue, s.threads, s.nTodo, s.added, s.settled, s.serial, t, Out);
    ResultsSame(s.allOk, s.threads, s.added, s.ran, s.settled, t, Out);
  }

  // ---- Finishing a batch ----

  lemma {:induction false} ElementsCount(q: seq<Check>)
    requires DistinctSeq(q)
    ensures |Elements(q)| == |q|
    decreases |q|
  {
    if q == [] {
      assert Elements(q) == {};
    } else {
      var n := |q| - 1;
      ElementsCount(q[..n]);
      assert Elements(q) == Elements(q[..n]) + {q[n]};
    }
  }

  lemma {:induction false} BatchFacts(threads: map<nat, Local>, t: nat)
    requires BatchesOk(threads) && t in threads && threads[t].Busy?
    ensures |threads[t].batch| > 0 && threads[t].next <= |threads[t].batch| && DistinctSeq(threads[t].batch)
    ensures |Elements(threads[t].batch)| == |threads[t].batch|
  {
    ElementsCount(threads[t].batch);
  }

  lemma {:induction false} FinishedWork(s: State, t: nat)
    requires WorkOk(s.queue, s.threads, s.nTodo, s.added, s.settled, s.serial) && t in s.threads && s.threads[t].Busy?
    ensures WorkOk(s.queue, s.threads[t := Out], s.nTodo - |s.threads[t].batch|, s.added,
      s.settled + Elements(s.threads[t].batch), s.serial)
    ensures s.nTodo >= |s.threads[t].batch|
  {
    hide InFlight, Elements, BatchesOk, DistinctSeq;
    var b := s.threads[t].batch;
    BatchFacts(s.threads, t);
    MineAlone(s.threads, t);
    InFlightAt(s.threads, t);
    assert |InFlight(s.threads)| == |InFlight(s.threads[t := Out])| + |Elements(b)|;
  }

  lemma {:induction false} FinishedResults(s: State, t: nat)
    requires ResultsOk(s.allOk, s.threads, s.added, s.ran, s.settled)
    requires t in s.threads && s.threads[t].Busy? && s.threads[t].next == |s.threads[t].batch|
    ensures ResultsOk(s.allOk && s.threads[t].ok, s.threads[t := Out], s.added, s.ran,
      s.settled + Elements(s.threads[t].batch))
  {
    var b := s.threads[t];
    assert BusyOk(b, s.added, s.ran);
  }

  lemma {:induction false} FinishedKeeps(s: State, t: nat)
    requires Inv(s) && t in s.threads && s.threads[t].Busy? && s.threads[t].next == |s.threads[t].batch|
    ensures Core(Finished(s, t), 1) && Finished(s, t).threads[t].Out?
  {
    hide CountsOk, WorkOk, ResultsOk;
    FinishedWork(s, t);
    FinishedResults(s, t);
    CountsMove(s.threads, s.nIdle, s.nTotal, 0, t, Out);
    var threads := s.threads[t := Out];
    if threads[MASTER].Asleep? {
      CountsMove(threads, s.nIdle, s.nTotal, 1, MASTER, Asleep(true));
      WorkSame(s.queue, threads, s.nTodo - |s.threads[t].batch|, s.added, s.settled + Elements(s.threads[t].batch),
        s.serial, MASTER, Asleep(true));
      ResultsSame(s.allOk && s.threads[t].ok, threads, s.added, s.ran, s.settled + Elements(s.threads[t].batch),
        MASTER, Asleep(true));
    }
    TodoNonNegative(s.queue, threads, s.nTodo - |s.threads[t].batch|, s.added,
      s.settled + Elements(s.threads[t].batch), s.serial);
  }

  lemma {:induction false} TodoNonNegative(queue: seq<Check>, threads: map<nat, Local>, nTodo: int, added: set<Check>,
      settled: set<Check>, serial: nat)
    requires WorkOk(queue, threads, nTodo, added, settled, serial)
    ensures nTodo >= 0
  {
  }

  // ---- Executing a check ----

  lemma {:induction false} WorkedKeeps(s: State, t: nat)
    requires Inv(s) && t in s.threads && s.threads[t].Busy? && s.threads[t].next < |s.threads[t].batch|
    ensures Inv(Worked(s, t))
  {
    hide CountsOk, WorkOk, ResultsOk;
    var b := s.threads[t];
    var l := Busy(b.batch, b.next + 1, b.ok && b.batch[b.next].passes);
    CountsMove(s.threads, s.nIdle, s.nTotal, 0, t, l);
    WorkedWork(s, t, l);
    WorkedResults(s, t);
  }

  lemma {:induction false} BatchesSame(threads: map<nat, Local>, t: nat, l: Local)
    requires BatchesOk(threads) && t in threads && threads[t].Busy? && l.Busy? && l.batch == threads[t].batch
      && l.next <= |l.batch|
    ensures BatchesOk(threads[t := l])
  {
    hide Elements, DistinctSeq;
  }

  lemma {:induction false} WorkedWork(s: State, t: nat, l: Local)
    requires WorkOk(s.queue, s.threads, s.nTodo, s.added, s.settled, s.serial) && t in s.threads && s.threads[t].Busy?
    requires l.Busy? && l.batch == s.threads[t].batch && l.next <= |l.batch|
    ensures WorkOk(s.queue, s.threads[t := l], s.nTodo, s.added, s.settled, s.serial)
  {
    hide InFlight, Elements, BatchesOk, DistinctSeq;
    BatchesSame(s.threads, t, l);
    InFlightAt(s.threads, t);
    InFlightSplit(s.threads, t, l);
    assert InFlight(s.threads[t := l]) == InFlight(s.threads);
  }

  lemma {:induction false} BatchAdded(s: State, t: nat, i: nat)
    requires WorkOk(s.queue, s.threads, s.nTodo, s.added, s.settled, s.serial)
    requires t in s.threads && s.threads[t].Busy? && i < |s.threads[t].batch|
    ensures s.threads[t].batch[i] in s.added
  {
    hide BatchesOk, DistinctSeq, Elements;
    assert s.threads[t].batch[i] in InFlight(s.threads);
  }

  lemma {:induction false} WorkedResults(s: State, t: nat)
    requires ResultsOk(s.allOk, s.threads, s.added, s.ran, s.settled)
    requires WorkOk(s.queue, s.threads, s.nTodo, s.added, s.settled, s.serial)
    requires t in s.threads && s.threads[t].Busy? && s.threads[t].next < |s.threads[t].batch|
    ensures var s1 := Worked(s, t); ResultsOk(s1.allOk, s1.threads, s1.added, s1.ran, s1.settled)
  {
    hide WorkOk;
    var b := s.threads[t];
    BatchAdded(s, t, b.next);
    assert BusyOk(b, s.added, s.ran);
    assert !b.batch[b.next].passes ==> SomeFails(s.added);
  }

  // ---- Deciding what to do next ----

  lemma {:induction false} BatchParts(queue: seq<Check>, n: nat)
    requires n <= |queue| && DistinctSeq(queue)
    ensures var rest, batch := queue[..|queue| - n], Batch(queue, n);
      && DistinctSeq(rest) && DistinctSeq(batch) && |batch| == n
      && Elements(queue) == Elements(rest) + Elements(batch) && Elements(rest) !! Elements(batch)
  {
    var rest, batch := queue[..|queue| - n], Batch(queue, n);
    forall c | c in Elements(queue) ensures c in Elements(rest) + Elements(batch) {
      var i :| 0 <= i < |queue| && queue[i] == c;
      if i < |rest| {
        assert rest[i] == c;
      } else {
        assert batch[|queue| - 1 - i] == c;
      }
    }
    forall c | c in Elements(batch) ensures c in Elements(queue) && c !in Elements(rest) {
      var i :| 0 <= i < n && batch[i] == c;
      assert queue[|queue| - 1 - i] == c;
    }
    forall c | c in Elements(rest) ensures c in Elements(queue) {
      var i :| 0 <= i < |rest| && rest[i] == c;
      assert queue[i] == c;
    }
  }

  lemma {:induction false} BatchesMore(threads: map<nat, Local>, t: nat, l: Local)
    requires BatchesOk(threads) && t in threads && threads[t].Out?
    requires l.Busy? && |l.batch| > 0 && l.next <= |l.batch| && DistinctSeq(l.batch)
      && Elements(l.batch) !! InFlight(threads)
    ensures BatchesOk(threads[t := l])
  {
    hide DistinctSeq;
    forall u | u in threads && threads[u].Busy? ensures Elements(threads[u].batch) !! Elements(l.batch) {
      forall c | c in Elements(threads[u].batch) ensures c !in Elements(l.batch) {
        var i :| 0 <= i < |threads[u].batch| && threads[u].batch[i] == c;
        assert c in InFlight(threads);
      }
    }
  }

  lemma {:induction false} TakenWork(s: State, t: nat, n: nat, l: Local)
    requires WorkOk(s.queue, s.threads, s.nTodo, s.added, s.settled, s.serial) && t in s.threads && s.threads[t].Out?
    requires 1 <= n <= |s.queue| && l == Busy(Batch(s.queue, n), 0, s.allOk)
    ensures WorkOk(s.queue[..|s.queue| - n], s.threads[t := l], s.nTodo, s.added, s.settled, s.serial)
  {
    hide InFlight, Elements, BatchesOk, DistinctSeq, Batch;
    BatchParts(s.queue, n);
    BatchesMore(s.threads, t, l);
    InFlightSplit(s.threads, t, l);
    InFlightAt(s.threads, t);
    ElementsCount(l.batch);
    assert InFlight(s.threads[t := l]) == InFlight(s.threads) + Elements(l.batch);
    MovedChecks(Elements(s.queue[..|s.queue| - n]), Elements(l.batch), InFlight(s.threads), s.settled);
  }

  /** Checks move from the queue to a batch. */
  lemma {:induction false} MovedChecks(rest: set<Check>, batch: set<Check>, flight: set<Check>, settled: set<Check>)
    requires rest !! batch && rest + batch !! flight
    ensures rest !! flight + batch && |flight + batch| == |flight| + |batch|
    ensures rest + batch + flight + settled == rest + (flight + batch) + settled
  {
  }

  lemma {:induction false} TakenResults(allOk: bool, threads: map<nat, Local>, added: set<Check>, ran: set<Check>,
      settled: set<Check>, t: nat, l: Local)
    requires ResultsOk(allOk, threads, added, ran, settled) && l.Busy? && l.next == 0 && l.ok == allOk
    ensures ResultsOk(allOk, threads[t := l], added, ran, settled)
  {
  }

  lemma {:induction false} RunnersInFlight(threads: map<nat, Local>)
    requires BatchesOk(threads)
    ensures Runners(threads) != {} ==> InFlight(threads) != {}
  {
    if Runners(threads) != {} {
      var t :| t in Runners(threads);
      assert threads[t].batch[0] in InFlight(threads);
    }
  }

  /** When nothing is to do, nobody runs and everything added is settled. */
  lemma {:induction false} NothingToDo(s: State)
    requires WorkOk(s.queue, s.threads, s.nTodo, s.added, s.settled, s.serial) && s.nTodo == 0
    ensures Runners(s.threads) == {} && s.added == s.settled && InFlight(s.threads) == {} && Elements(s.queue) == {}
  {
    RunnersInFlight(s.threads);
  }

  ghost predicate IsIdle(s: State) {
    s.nTotal == s.nIdle && s.nTodo == 0 && s.allOk
  }

  /** The master leaves: the answer is true exactly when every check added since the last
      `Wait` was executed and passed, and the queue is idle again. */
  lemma {:induction false} ReturnCorrect(s: State, limit: nat)
    requires Core(s, 1) && s.threads[MASTER].Out? && s.queue == [] && s.nTodo == 0
    ensures var r := Inspect(s, MASTER, limit);
      && Inv(r.0) && IsIdle(r.0)
      && r.1 == Some(s.allOk) && (s.allOk <==> AllRan(s.added, s.ran))
  {
    NothingToDo(s);
    var s1 := Inspect(s, MASTER, limit).0;
    assert s1.threads == s.threads;
    assert s.allOk || SomeFails(s.added);
    assert forall t :: t in s.threads ==> t !in Runners(s.threads);
  }

  lemma {:induction false} InspectKeeps(s: State, t: nat, limit: nat)
    requires Core(s, 1) && t in s.threads && s.threads[t].Out?
    ensures var r := Inspect(s, t, limit);
      && Inv(r.0)
      && (r.1.Some? <==> t == MASTER && s.queue == [] && s.nTodo == 0)
      && (r.1.Some? ==> IsIdle(r.0) && (r.1.value <==> AllRan(s.added, s.ran)))
  {
    hide CountsOk, WorkOk, ResultsOk, BatchSize, Batch;
    if s.queue == [] {
      if t == MASTER && s.nTodo == 0 {
        ReturnCorrect(s, limit);
      } else {
        CountsMove(s.threads, s.nIdle, s.nTotal, 1, t, Asleep(false));
        WorkSame(s.queue, s.threads, s.nTodo, s.added, s.settled, s.serial, t, Asleep(false));
        ResultsSame(s.allOk, s.threads, s.added, s.ran, s.settled, t, Asleep(false));
        TodoNonNegative(s.queue, s.threads, s.nTodo, s.added, s.settled, s.serial);
      }
    } else {
      var total, idle := if s.nTotal < 0 then 0 else s.nTotal, if s.nIdle < 0 then 0 else s.nIdle;
      var n := BatchSize(|s.queue|, total, idle, limit);
      var l := Busy(Batch(s.queue, n), 0, s.allOk);
      CountsMove(s.threads, s.nIdle, s.nTotal, 1, t, l);
      TakenWork(s, t, n, l);
      TakenResults(s.allOk, s.threads, s.added, s.ran, s.settled, t, l);
    }
  }

  // ---- Adding ----

  lemma {:induction false} NotifyKeeps(threads: map<nat, Local>, n: nat, chosen: nat)
    ensures var after := Notify(threads, n, chosen);
      && Sleepers(after) == Sleepers(threads) && Runners(after) == Runners(threads) && after.Keys == threads.Keys
      && (forall t :: t in threads ==>
        (threads[t].Asleep? <==> after[t].Asleep?) && (!threads[t].Asleep? ==> after[t] == threads[t]))
      && InFlight(after) == InFlight(threads) && (BatchesOk(threads) ==> BatchesOk(after))
  {
    hide Elements, DistinctSeq;
    var after := Notify(threads, n, chosen);
    SameInFlight(threads, after);
    SameInFlight(after, threads);
  }

  lemma {:induction false} SameInFlight(a: map<nat, Local>, b: map<nat, Local>)
    requires a.Keys == b.Keys && forall t :: t in a && a[t].Busy? ==> b[t] == a[t]
    ensures InFlight(a) <= InFlight(b)
  {
    forall c | c in InFlight(a) ensures c in InFlight(b) {
      var u, i :| u in a && a[u].Busy? && 0 <= i < |a[u].batch| && a[u].batch[i] == c;
      assert b[u].batch[i] == c;
    }
  }

  lemma {:induction false} NewChecksFresh(results: seq<bool>, serial: nat, queue: seq<Check>)
    requires DistinctSeq(queue) && forall c :: c in Elements(queue) ==> c.serial < serial
    ensures var checks := NewChecks(results, serial);
      && DistinctSeq(queue + checks) && Elements(queue + checks) == Elements(queue) + Elements(checks)
      && (forall c :: c in Elements(checks) ==> serial <= c.serial < serial + |checks|)
  {
    var checks := NewChecks(results, serial);
    var all := queue + checks;
    forall c | c in Elements(all) ensures c in Elements(queue) + Elements(checks) {
      var i :| 0 <= i < |all| && all[i] == c;
      assert i < |queue| ==> queue[i] == c;
      assert i >= |queue| ==> checks[i - |queue|] == c;
    }
    forall c | c in Elements(queue) ensures c in Elements(all) {
      var i :| 0 <= i < |queue| && queue[i] == c;
      assert all[i] == c;
    }
    forall c | c in Elements(checks) ensures c in Elements(all) && serial <= c.serial < serial + |checks| {
      var i :| 0 <= i < |checks| && checks[i] == c;
      assert all[|queue| + i] == c;
    }
    forall i, j | 0 <= i < j < |all| ensures all[i] != all[j] {
      assert i < |queue| ==> queue[i] in Elements(queue);
    }
  }

  lemma {:induction false} ExtendedWork(s: State, checks: seq<Check>, after: map<nat, Local>)
    requires WorkOk(s.queue, s.threads, s.nTodo, s.added, s.settled, s.serial)
    requires exists results :: checks == NewChecks(results, s.serial)
    requires InFlight(after) == InFlight(s.threads) && BatchesOk(after)
    ensures WorkOk(s.queue + checks, after, s.nTodo + |checks|, s.added + Elements(checks), s.settled,
      s.serial + |checks|)
  {
    hide InFlight, Elements, BatchesOk, DistinctSeq;
    var results :| checks == NewChecks(results, s.serial);
    NewChecksFresh(results, s.serial, s.queue);
  }

  lemma {:induction false} ExtendedResults(s: State, more: set<Check>, after: map<nat, Local>)
    requires ResultsOk(s.allOk, s.threads, s.added, s.ran, s.settled) && after.Keys == s.threads.Keys
    requires forall t :: t in s.threads ==>
      (s.threads[t].Asleep? <==> after[t].Asleep?) && (!s.threads[t].Asleep? ==> after[t] == s.threads[t])
    ensures ResultsOk(s.allOk, after, s.added + more, s.ran, s.settled)
  {
    assert SomeFails(s.added) ==> SomeFails(s.added + more);
    forall t | t in after ensures BusyOk(after[t], s.added + more, s.ran) {
      assert BusyOk(s.threads[t], s.added, s.ran);
    }
  }

  lemma {:induction false} ExtendedKeeps(s: State, results: seq<bool>, chosen: nat)
    requires Inv(s) && s.threads[MASTER].Out?
    ensures Inv(Extended(s, results, chosen))
  {
    hide ResultsOk, Notify, NewChecks, Elements, InFlight, BatchesOk, DistinctSeq, Sleepers, Runners;
    var checks := NewChecks(results, s.serial);
    var after := Notify(s.threads, |checks|, chosen);
    NotifyKeeps(s.threads, |checks|, chosen);
    ExtendedWork(s, checks, after);
    ExtendedResults(s, Elements(checks), after);
  }

  // ---- Runs ----

  lemma {:induction false} TakeKeeps(s: State, step: Step, limit: nat)
    requires Inv(s) && Enabled(s, step)
    ensures Inv(Take(s, step, limit).0)
  {
    hide Core;
    match step {
      case Enter(t) =>
        EnteredKeeps(s, t);
        InspectKeeps(Entered(s), t, limit);
      case Wake(t) =>
        WokenKeeps(s, t);
        InspectKeeps(Woken(s, t), t, limit);
      case Work(t) =>
        WorkedKeeps(s, t);
      case Finish(t) =>
        FinishedKeeps(s, t);
        InspectKeeps(Finished(s, t), t, limit);
      case Add(results, chosen) =>
        ExtendedKeeps(s, results, chosen);
    }
  }

  ghost predicate Initial(s: State) {
    && s.queue == [] && s.nIdle == 0 && s.nTotal == 0 && s.allOk && s.nTodo == 0
    && s.added == {} && s.ran == {} && s.settled == {}
    && MASTER in s.threads && forall t :: t in s.threads ==> s.threads[t].Out?
  }

  ghost predicate IsRun(states: seq<State>, steps: seq<Step>, limit: nat) {
    && |states| == |steps| + 1 && Initial(states[0])
    && forall i :: 0 <= i < |steps| ==>
      Enabled(states[i], steps[i]) && states[i + 1] == Take(states[i], steps[i], limit).0
  }

  lemma {:induction false} InitialInv(s: State)
    requires Initial(s)
    ensures Inv(s)
  {
    assert Sleepers(s.threads) == {} && Runners(s.threads) == {} && InFlight(s.threads) == {};
  }

  lemma {:induction false} RunKeeps(states: seq<State>, steps: seq<Step>, limit: nat, i: nat)
    requires IsRun(states, steps, limit) && i < |states|
    ensures Inv(states[i])
    decreases i
  {
    hide Inv, Take;
    if i == 0 {
      InitialInv(states[0]);
    } else {
      RunKeeps(states, steps, limit, i - 1);
      assert states[i] == Take(states[i - 1], steps[i - 1], limit).0;
      TakeKeeps(states[i - 1], steps[i - 1], limit);
    }
  }

  /** In every state of every run: unfinished work is what is queued or in a batch, threads
      inside the loop are asleep or busy, and no wake-up of the master is lost. */
  lemma {:induction false} AlwaysConsistent(states: seq<State>, steps: seq<Step>, limit: nat, i: nat)
    requires IsRun(states, steps, limit) && i < |states|
    ensures var s := states[i];
      && s.nTodo == |s.queue| + |InFlight(s.threads)|
      && s.nIdle == |Sleepers(s.threads)| && s.nTotal == s.nIdle + |Runners(s.threads)|
      && MASTER in s.threads
      && (s.threads[MASTER].Asleep? ==> s.threads[MASTER].notified || InFlight(s.threads) != {})
  {
    RunKeeps(states, steps, limit, i);
    hide BatchesOk, DistinctSeq, Elements;
    var s := states[i];
    assert s.queue == [] && s.nTodo > 0 ==> |InFlight(s.threads)| > 0;
  }

  /** `Wait` returns only when nothing is queued or in flight, returns true exactly when every
      check added since the last `Wait` was executed and passed, and leaves the queue idle. */
  lemma {:induction false} WaitIsCorrect(states: seq<State>, steps: seq<Step>, limit: nat, i: nat)
    requires IsRun(states, steps, limit) && i < |steps| && Take(states[i], steps[i], limit).1.Some?
    ensures var s, r := states[i], Take(states[i], steps[i], limit);
      && IsIdle(r.0) && r.0.queue == [] && InFlight(r.0.threads) == {}
      && (r.1.value <==> AllRan(s.added, s.ran))
      && (r.1.value <==> !SomeFails(s.added))
  {
    RunKeeps(states, steps, limit, i);
    hide Core;
    var s, step := states[i], steps[i];
    match step {
      case Enter(t) =>
        EnteredKeeps(s, t);
        InspectKeeps(Entered(s), t, limit);
        Returned(Entered(s), t, limit);
      case Wake(t) =>
        WokenKeeps(s, t);
        InspectKeeps(Woken(s, t), t, limit);
        Returned(Woken(s, t), t, limit);
      case Finish(t) =>
        FinishedKeeps(s, t);
        InspectKeeps(Finished(s, t), t, limit);
        Returned(Finished(s, t), t, limit);
      case _ =>
    }
  }

  lemma {:induction false} Returned(s: State, t: nat, limit: nat)
    requires Core(s, 1) && t in s.threads && s.threads[t].Out? && Inspect(s, t, limit).1.Some?
    ensures var r := Inspect(s, t, limit);
      r.0.queue == [] && InFlight(r.0.threads) == {} && (r.1.value <==> !SomeFails(s.added))
  {
    NothingToDo(s);
    ReturnCorrect(s, limit);
    assert Inspect(s, t, limit).0.threads == s.threads;
  }
}
