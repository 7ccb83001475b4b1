/** Progress of the sender without fairness assumptions: shutdown is bounded,
    and a queue that is left alone drains. */
module SenderProgress {
  import opened Prelude
  import opened SenderConfig
  import opened SenderProtocol
  import opened SenderSafety
  import W = ResultWriter
  import DetectionJson

  /** Attempts the worker may still make for the one body in flight. */
  function Remaining(s: State): int {
    match s.worker
    case Holding(_) => s.snapshot.retryCount + 1
    case Posting(_, _, budget, tries) => budget - tries
    case _ => 0
  }

  function WorkerRank(s: State): int {
    match s.worker
    case NotStarted => 0
    case Exited => 0
    case Testing => 1
    case Deciding => 2
    case Asleep => 2
    case Holding(_) => Remaining(s) + 2
    case Posting(_, _, _, _) => Remaining(s) + 1
  }

  function ExecRank(exec: Executor): int {
    if exec.NotifyingAll? then 2 else if exec.Joining? then 1 else 0
  }

  /** Strictly decreased by every step of either thread. */
  function Rank(s: State): int {
    WorkerRank(s) + ExecRank(s.exec)
  }

  /** The retry count whose successor overflows is excluded as long as it could
      still be read. */
  predicate Bounded(s: State) {
    s.worker.Holding? ==> s.snapshot.retryCount < INT64_MAX
  }

  predicate Attempting(s: State) {
    s.worker.Posting? ==> s.worker.tries < s.worker.budget
  }

  lemma StepDescends(s: State, a: Step)
    requires Control(s) && Settings(s) && Attempting(s) && s.stop && Bounded(s) && Enabled(s, a)
    ensures Do(s, a).stop && Bounded(Do(s, a)) && Attempting(Do(s, a)) && 0 <= Rank(Do(s, a)) < Rank(s)
    ensures Do(s, a).log.popped == s.log.popped && Do(s, a).log.offered == s.log.offered
    ensures 0 <= Remaining(Do(s, a)) && |Do(s, a).log.wire| + Remaining(Do(s, a)) <= |s.log.wire| + Remaining(s)
  {
    hide W.Configured, W.Appended, Candidate, Fault, DetectionJson.Serialized, WriterInputs, Push, PostsNow, Coherent,
         NoLostWakeup, WorkerPresent;
    match a
    case NotifyAll =>
    case Join =>
    case Test =>
    case Wake =>
    case Copy(_) =>
    case Attempt(_) =>
    case _ => assert false;
  }

  lemma {:induction false} RunDescends(s: State, steps: seq<Step>)
    requires Invariant(s) && Attempting(s) && s.stop && Bounded(s) && Run(s, steps).Some?
    ensures var t := Run(s, steps).value;
            && Invariant(t) && Attempting(t) && t.stop && Bounded(t)
            && t.log.popped == s.log.popped && t.log.offered == s.log.offered
            && 0 <= Remaining(t) && |t.log.wire| + Remaining(t) <= |s.log.wire| + Remaining(s)
            && 0 <= Rank(t) && |steps| + Rank(t) <= Rank(s)
  {
    hide Control, Settings, History, Apart, Eras, Do, Enabled, Bounded, Attempting;
    if steps == [] {
      RankIsNatural(s);
    } else {
      var n := |steps| - 1;
      RunDescends(s, steps[..n]);
      var t := Run(s, steps[..n]).value;
      InvariantKept(t, steps[n]);
      StepDescends(t, steps[n]);
    }
  }

  lemma RankIsNatural(s: State)
    requires Settings(s) && Attempting(s)
    ensures 0 <= Rank(s) && 0 <= Remaining(s)
  {
  }

  lemma {:induction false} RunAttempts(snapshot: Snapshot, disk: W.Files, opens: bool, steps: seq<Step>)
    requires Run(Initial(snapshot, disk, opens), steps).Some?
    ensures Attempting(Run(Initial(snapshot, disk, opens), steps).value)
  {
    hide W.Configured, Do, Enabled, Attempting;
    if steps == [] {
      NobodyAttempts(snapshot, disk, opens);
    } else {
      var n := |steps| - 1;
      RunAttempts(snapshot, disk, opens, steps[..n]);
      AttemptingKept(Run(Initial(snapshot, disk, opens), steps[..n]).value, steps[n]);
    }
  }

  lemma NobodyAttempts(snapshot: Snapshot, disk: W.Files, opens: bool)
    ensures Attempting(Initial(snapshot, disk, opens))
  {
  }

  lemma AttemptingKept(s: State, a: Step)
    requires Attempting(s) && Enabled(s, a)
    ensures Attempting(Do(s, a))
  {
    hide W.Configured, W.Appended, Candidate, Fault, DetectionJson.Serialized, WriterInputs, Push, PostsNow;
  }

  lemma ReachableAttempting(s: State)
    requires Reachable(s)
    ensures Attempting(s)
  {
    hide Attempting, Run, Initial, Constructible;
    var snapshot, disk, opens, steps :|
      Constructible(snapshot) && Run(Initial(snapshot, disk, opens), steps) == Some(s);
    RunAttempts(snapshot, disk, opens, steps);
  }

  /** Once stop is set, every schedule of both threads is at most `Rank(s)`
      steps long; nothing more is popped, and the network sees at most the
      remaining attempts of the single body in flight. */
  lemma ShutdownIsBounded(s: State, steps: seq<Step>)
    requires Reachable(s) && s.stop && Bounded(s) && Run(s, steps).Some?
    ensures |steps| <= Rank(s)
    ensures var t := Run(s, steps).value;
            t.log.popped == s.log.popped && |t.log.wire| <= |s.log.wire| + Remaining(s)
  {
    ReachableKeeps(s);
    ReachableAttempting(s);
    RunDescends(s, steps);
  }

  /** ... and as long as the node is not destroyed some step is possible, so
      every complete shutdown ends with the worker gone and joined. */
  lemma ShutdownNeverStuck(s: State)
    requires Reachable(s) && s.stop && Bounded(s)
    ensures (exists a :: Enabled(s, a)) <==> !(s.exec.Destroyed? && (s.worker.NotStarted? || s.worker.Exited?))
  {
    hide Reachable, History, Apart, Eras, WorkerPresent, Coherent, PostsNow;
    ReachableKeeps(s);
    match s.worker {
      case Testing => assert Enabled(s, Test);
      case Asleep => assert Enabled(s, NotifyAll);
      case Holding(_) => assert Enabled(s, Copy(s.snapshot.retryCount + 1));
      case Posting(_, _, _, _) => assert Enabled(s, Attempt(true));
      case Deciding => assert false;
      case NotStarted =>
        if s.exec.NotifyingAll? { assert Enabled(s, NotifyAll); }
        if s.exec.Joining? { assert Enabled(s, Join); }
      case Exited =>
        if s.exec.NotifyingAll? { assert Enabled(s, NotifyAll); }
        if s.exec.Joining? { assert Enabled(s, Join); }
    }
  }

  // ---------------------------------------------------------------- draining

  /** The worker's own steps, apart from spurious wake-ups. */
  predicate Works(a: Step) {
    a.Test? || a.Sleep? || a.Copy? || a.Attempt?
  }

  function Effort(s: State): int {
    match s.worker
    case NotStarted => 0
    case Exited => 0
    case Asleep => 0
    case Deciding => 1
    case Testing => 2
    case Holding(_) => Remaining(s) + 3
    case Posting(_, _, _, _) => Remaining(s) + 2
  }

  function Backlog(queued: nat, retries: int): int {
    queued * (retries + 3)
  }

  function DrainRank(s: State): int {
    Effort(s) + Backlog(|s.queue|, s.snapshot.retryCount)
  }

  predicate LeftAlone(s: State) {
    s.exec.Idle? && !s.stop && s.snapshot.retryCount < INT64_MAX
  }

  lemma BacklogShrinks(queued: nat, retries: int)
    requires queued > 0
    ensures Backlog(queued, retries) == Backlog(queued - 1, retries) + retries + 3
  {
  }

  lemma BacklogIsNatural(queued: nat, retries: int)
    requires retries >= 0
    ensures Backlog(queued, retries) >= 0
  {
  }

  lemma WorkDescends(s: State, a: Step)
    requires Control(s) && Settings(s) && Attempting(s) && LeftAlone(s) && Works(a) && Enabled(s, a)
    ensures LeftAlone(Do(s, a)) && Attempting(Do(s, a)) && 0 <= DrainRank(Do(s, a)) < DrainRank(s)
    ensures Do(s, a).log.offered == s.log.offered
  {
    hide Backlog, PostsNow, Coherent, Push;
    if |s.queue| > 0 { BacklogShrinks(|s.queue|, s.snapshot.retryCount); }
    BacklogIsNatural(|Do(s, a).queue|, s.snapshot.retryCount);
  }

  lemma {:induction false} WorkRunDescends(s: State, steps: seq<Step>)
    requires Invariant(s) && Attempting(s) && LeftAlone(s) && Run(s, steps).Some?
    requires forall i :: 0 <= i < |steps| ==> Works(steps[i])
    ensures var t := Run(s, steps).value;
            && Invariant(t) && Attempting(t) && LeftAlone(t) && t.log.offered == s.log.offered
            && 0 <= DrainRank(t) && |steps| + DrainRank(t) <= DrainRank(s)
  {
    hide Control, Settings, History, Apart, Eras, Do, Enabled, LeftAlone, Attempting, Works, DrainRank;
    if steps == [] {
      DrainRankIsNatural(s);
    } else {
      var n := |steps| - 1;
      WorkRunDescends(s, steps[..n]);
      var t := Run(s, steps[..n]).value;
      InvariantKept(t, steps[n]);
      WorkDescends(t, steps[n]);
    }
  }

  lemma DrainRankIsNatural(s: State)
    requires Settings(s) && Attempting(s)
    ensures 0 <= DrainRank(s)
  {
    BacklogIsNatural(|s.queue|, s.snapshot.retryCount);
  }

  /** While the executor is between callbacks, the worker needs a bounded number
      of its own steps until it waits; by then no body is queued or in flight. */
  lemma QueueDrains(s: State, steps: seq<Step>)
    requires Reachable(s) && LeftAlone(s) && Run(s, steps).Some?
    requires forall i :: 0 <= i < |steps| ==> Works(steps[i])
    ensures |steps| <= DrainRank(s)
    ensures var t := Run(s, steps).value;
            (forall a :: Works(a) ==> !Enabled(t, a)) ==>
              t.queue == [] && forall id: nat :: id < |s.log.offered| ==>
                id in t.log.finished || id in t.log.skipped || id in t.log.dropped
  {
    hide Control, Settings, History, Apart, Run, LeftAlone, DrainRank, Works, Enabled;
    ReachableKeeps(s);
    ReachableAttempting(s);
    WorkRunDescends(s, steps);
    var t := Run(s, steps).value;
    if forall a :: Works(a) ==> !Enabled(t, a) {
      WaitingIsEmpty(t);
      AllGone(t);
    }
  }

  lemma WaitingIsEmpty(t: State)
    requires Invariant(t) && LeftAlone(t) && forall a :: Works(a) ==> !Enabled(t, a)
    ensures t.queue == [] && InFlight(t.worker) == {} && !t.stop
  {
    hide History, Apart, Coherent;
    assert Works(Test) && Works(Sleep) && Works(Attempt(true)) && Works(Copy(t.snapshot.retryCount + 1));
    assert !Enabled(t, Test) && !Enabled(t, Sleep) && !Enabled(t, Attempt(true));
    assert !Enabled(t, Copy(t.snapshot.retryCount + 1));
  }

  lemma AllGone(t: State)
    requires Invariant(t) && !t.stop && t.queue == [] && InFlight(t.worker) == {}
    ensures forall id: nat :: id < |t.log.offered| ==>
              id in t.log.finished || id in t.log.skipped || id in t.log.dropped
  {
    forall id: nat | id < |t.log.offered| ensures id in t.log.finished || id in t.log.skipped || id in t.log.dropped {
      assert Gone(t.log, id);
    }
  }
}
