/** What every step of the sender protocol keeps: wake-ups, the single worker,
    valid snapshots, and the fate of every body. */
module SenderSafety {
  import opened Prelude
  import opened SenderConfig
  import opened SenderProtocol
  import HttpUrl
  import W = ResultWriter
  import DetectionJson

  // ------------------------------------------------- who touches what

  /** The executor's share of the state. */
  predicate SameCallbacks(s: State, t: State) {
    && t.exec == s.exec && t.snapshot == s.snapshot && t.stop == s.stop && t.writer == s.writer && t.files == s.files
    && t.log.offered == s.log.offered && t.log.marks == s.log.marks && t.log.eras == s.log.eras
    && t.log.saved == s.log.saved && t.log.dropped == s.log.dropped && t.log.configs == s.log.configs
    && t.log.starts == s.log.starts && t.log.failures == s.log.failures && t.log.disk == s.log.disk
    && t.log.published == s.log.published
  }

  /** The worker's share, apart from being started and woken. */
  predicate SameWork(s: State, t: State) {
    && t.log.popped == s.log.popped && t.log.cleared == s.log.cleared && t.log.skipped == s.log.skipped
    && t.log.finished == s.log.finished && t.log.wire == s.log.wire
    && (t.worker == s.worker || ((s.worker.NotStarted? || s.worker.Asleep?) && t.worker.Testing?))
  }

  predicate SameQueueing(s: State, t: State) {
    && t.queue == s.queue && t.log.offered == s.log.offered && t.log.marks == s.log.marks && t.log.eras == s.log.eras
    && t.log.dropped == s.log.dropped
  }

  predicate SameFiles(s: State, t: State) {
    && t.writer == s.writer && t.files == s.files && t.log.saved == s.log.saved
    && t.log.failures == s.log.failures && t.log.disk == s.log.disk
  }

  lemma TestFrame(s: State)
    ensures SameCallbacks(s, TestPredicate(s))
  {
    hide Ids;
  }

  lemma CopyFrame(s: State, budget: int)
    requires s.worker.Holding?
    ensures SameCallbacks(s, CopySnapshot(s, budget))
  {
    hide PostsNow;
  }

  lemma PostFrame(s: State, ok: bool)
    requires s.worker.Posting?
    ensures SameCallbacks(s, PostOnce(s, ok))
  {
  }

  lemma WorkerFrame(s: State, a: Step)
    requires Enabled(s, a) && OfWorker(a)
    ensures SameCallbacks(s, Do(s, a))
  {
    hide IsBudget, TestPredicate, CopySnapshot, PostOnce;
    match a
    case Test => TestFrame(s);
    case Copy(budget) => CopyFrame(s, budget);
    case Attempt(ok) => PostFrame(s, ok);
    case _ =>
  }

  lemma ExecutorFrame(s: State, a: Step)
    requires Enabled(s, a) && !OfWorker(a)
    ensures SameWork(s, Do(s, a))
    ensures s.log.configs <= Do(s, a).log.configs && s.log.failures <= Do(s, a).log.failures
    ensures (s.stop ==> Do(s, a).stop) && Do(s, a).log.disk == s.log.disk
  {
    hide W.Configured, W.Appended, Candidate, Fault, DetectionJson.Serialized, WriterInputs, Push, UsesHttp;
    hide TestPredicate, CopySnapshot, PostOnce;
  }

  lemma QueueFrame(s: State, a: Step)
    requires Enabled(s, a) && !OfWorker(a) && !a.Enqueue?
    ensures SameQueueing(s, Do(s, a))
  {
    hide W.Configured, W.Appended, Candidate, Fault, DetectionJson.Serialized, WriterInputs, UsesHttp;
    hide TestPredicate, CopySnapshot, PostOnce, EnqueueBody;
  }

  lemma FileFrame(s: State, a: Step)
    requires Enabled(s, a) && !OfWorker(a) && !a.Save? && !a.ConfigureWriter?
    ensures SameFiles(s, Do(s, a))
  {
    hide Candidate, Fault, DetectionJson.Serialized, WriterInputs, Push, UsesHttp;
    hide TestPredicate, CopySnapshot, PostOnce, SaveFrame, ConfigureTheWriter;
  }

  // ------------------------------------------------- control and configuration

  predicate ShuttingDown(exec: Executor) {
    exec.NotifyingAll? || exec.Joining? || exec.Destroyed?
  }

  /** The executor stands between an unlock and its notify. */
  predicate NotifyPending(exec: Executor) {
    exec.Notifying? || exec.NotifyingAll?
  }

  predicate NoLostWakeup(s: State) {
    s.worker.Asleep? && (s.queue != [] || s.stop) ==> NotifyPending(s.exec)
  }

  predicate WorkerPresent(s: State) {
    && s.log.starts == (if s.worker.NotStarted? then 0 else 1)
    && (s.queue != [] ==> !s.worker.NotStarted?)
    && (!s.exec.Starting? && !s.exec.EnsuringWorker? && UsesHttp(s.snapshot.sendMode) ==> !s.worker.NotStarted?)
    && (s.exec.Enqueueing? ==> !s.worker.NotStarted?)
  }

  predicate Control(s: State) {
    && NoLostWakeup(s)
    && WorkerPresent(s)
    && |s.queue| <= MAX_QUEUE
    && (s.stop <==> ShuttingDown(s.exec))
    && (s.worker.Deciding? ==> s.queue == [] && !s.stop)
    && (s.worker.Exited? ==> s.queue == [] && s.stop)
    && (s.exec.Destroyed? ==> s.worker.NotStarted? || s.worker.Exited?)
    && (s.exec.Saving? || s.exec.Routing? ==> s.exec.snap == s.snapshot)
    && (s.exec.EnsuringWorker? || s.exec.Configuring? ==> s.exec.cand == s.snapshot)
  }

  predicate Settings(s: State) {
    && Constructible(s.snapshot)
    && (s.exec.Committing? ==> Constructible(s.exec.cand))
    && s.log.configs != [] && s.log.configs[|s.log.configs| - 1] == s.snapshot
    && (forall i :: 0 <= i < |s.log.configs| ==> Constructible(s.log.configs[i]))
    && (s.worker.Posting? ==> PostsNow(s.worker.snap) && s.worker.snap in s.log.configs)
  }

  lemma ControlStart(snapshot: Snapshot, disk: W.Files, opens: bool)
    requires Constructible(snapshot)
    ensures Control(Initial(snapshot, disk, opens)) && Settings(Initial(snapshot, disk, opens))
  {
    hide W.Configured, Coherent, Valid;
  }

  lemma WorkerKeepsControl(s: State, a: Step)
    requires Control(s) && Enabled(s, a) && OfWorker(a)
    ensures Control(Do(s, a))
  {
    hide IsBudget, PostsNow;
  }

  lemma ExecutorKeepsControl(s: State, a: Step)
    requires Control(s) && Enabled(s, a) && !OfWorker(a)
    ensures Control(Do(s, a))
  {
    hide W.Configured, W.Appended, Candidate, Fault, DetectionJson.Serialized, WriterInputs, Push;
    if a.Enqueue? { PushLength(s.queue, Entry(|s.log.offered|, s.exec.body)); }
  }

  lemma ControlKept(s: State, a: Step)
    requires Control(s) && Enabled(s, a)
    ensures Control(Do(s, a))
  {
    hide Control, Do, Enabled;
    if OfWorker(a) { WorkerKeepsControl(s, a); } else { ExecutorKeepsControl(s, a); }
  }

  lemma PushLength<T>(queue: seq<T>, x: T)
    requires |queue| <= MAX_QUEUE
    ensures |Push(queue, x)| <= MAX_QUEUE && Push(queue, x) != []
  {
  }

  lemma SettingsKept(s: State, a: Step)
    requires Settings(s) && Control(s) && Enabled(s, a)
    ensures Settings(Do(s, a))
  {
    hide W.Configured, W.Appended, Candidate, Fault, DetectionJson.Serialized, WriterInputs, Push;
    hide IsBudget, Coherent, Valid, UsesHttp;
    match a
    case Reconfigure(batch) =>
      CandidateIsCoherent(s.snapshot, batch);
      ValidIffNoFault(Candidate(s.snapshot, batch));
    case _ =>
  }

  // ------------------------------------------------------- the fate of a body

  /** How many bodies have left the queue. */
  function Front(s: State): int {
    |s.log.offered| - |s.queue|
  }

  function InFlight(w: Worker): set<nat> {
    if w.Holding? || w.Posting? then {w.entry.id} else {}
  }

  predicate Gone(log: Log, i: nat) {
    i in log.popped || i in log.dropped || i in log.cleared
  }

  /** The queue is the rest of the history, and what left it left in order. */
  ghost predicate History(s: State) {
    && 0 <= Front(s) && s.queue == s.log.offered[Front(s)..]
    && (forall i :: 0 <= i < |s.log.offered| ==> s.log.offered[i].id == i)
    && StrictlyIncreasing(s.log.popped)
    && (forall i: nat :: Gone(s.log, i) <==> i < Front(s))
    && (s.worker.Holding? || s.worker.Posting? ==>
          && s.log.popped != [] && s.log.popped[|s.log.popped| - 1] == s.worker.entry.id
          && s.worker.entry.id < |s.log.offered| && s.log.offered[s.worker.entry.id] == s.worker.entry)
  }

  /** No body has two fates. */
  ghost predicate Apart(s: State) {
    && (forall i :: i in s.log.popped ==> i !in s.log.dropped && i !in s.log.cleared)
    && s.log.dropped !! s.log.cleared
    && s.log.finished.Keys !! s.log.skipped
    && InFlight(s.worker) !! (s.log.finished.Keys + s.log.skipped)
    && (forall i: nat :: i in s.log.popped <==> i in s.log.finished || i in s.log.skipped || i in InFlight(s.worker))
    && (s.log.cleared != {} ==> s.stop)
  }

  lemma PopIsSuffix<T>(s: seq<T>, k: nat)
    requires k < |s|
    ensures s[k..][0] == s[k] && s[k..][1..] == s[k + 1..]
  {
  }

  lemma PushIsSuffix<T>(all: seq<T>, queue: seq<T>, x: T)
    requires |queue| <= |all| && queue == all[|all| - |queue|..]
    ensures var q := Push(queue, x); |q| <= |all| + 1 && q == (all + [x])[|all| + 1 - |q|..]
    ensures |Push(queue, x)| == if |queue| >= MAX_QUEUE then |queue| else |queue| + 1
  {
    var k := |all| - |queue|;
    if |queue| >= MAX_QUEUE { PopIsSuffix(all, k); }
  }

  lemma MemberOfAppend<T>(s: seq<T>, x: T)
    ensures forall y :: y in s + [x] <==> y in s || y == x
  {
  }

  lemma EnqueueKeepsHistory(s: State)
    requires History(s) && s.exec.Enqueueing?
    ensures History(EnqueueBody(s))
  {
    hide Push;
    PushIsSuffix(s.log.offered, s.queue, Entry(|s.log.offered|, s.exec.body));
    if |s.queue| > 0 { assert s.queue[0] == s.log.offered[Front(s)]; }
    var t := EnqueueBody(s);
    assert t.log.popped == s.log.popped && t.log.cleared == s.log.cleared;
    assert forall i: nat :: Gone(t.log, i) <==> Gone(s.log, i) || (|s.queue| >= MAX_QUEUE && i == Front(s));
  }

  lemma EnqueueKeepsApart(s: State)
    requires History(s) && Apart(s) && s.exec.Enqueueing?
    ensures Apart(EnqueueBody(s))
  {
    if |s.queue| >= MAX_QUEUE { assert !Gone(s.log, s.queue[0].id); }
  }

  lemma IncreasingExtends(s: seq<nat>, x: nat)
    requires StrictlyIncreasing(s) && forall y :: y in s ==> y < x
    ensures StrictlyIncreasing(s + [x])
  {
    assert forall i :: 0 <= i < |s| ==> s[i] in s;
  }

  lemma TestKeepsHistory(s: State)
    requires History(s) && s.worker.Testing?
    ensures History(TestPredicate(s))
  {
    var t := TestPredicate(s);
    if s.stop {
      assert forall i: nat :: i in Ids(s.queue) <==> Front(s) <= i < |s.log.offered| by { QueueIds(s); }
      assert forall i: nat :: Gone(t.log, i) <==> Gone(s.log, i) || i in Ids(s.queue);
    } else if s.queue != [] {
      var id := s.queue[0].id;
      PopIsSuffix(s.log.offered, Front(s));
      assert forall y :: y in s.log.popped ==> Gone(s.log, y);
      IncreasingExtends(s.log.popped, id);
      MemberOfAppend(s.log.popped, id);
      assert forall i: nat :: Gone(t.log, i) <==> Gone(s.log, i) || i == id;
    }
  }

  lemma QueueIds(s: State)
    requires History(s)
    ensures forall i: nat :: i in Ids(s.queue) <==> Front(s) <= i < |s.log.offered|
  {
    forall i: nat | Front(s) <= i < |s.log.offered| ensures i in Ids(s.queue) {
      var e := s.queue[i - Front(s)];
      assert e == s.log.offered[i] && e in s.queue;
    }
    forall i: nat | i in Ids(s.queue) ensures Front(s) <= i < |s.log.offered| {
      var e :| e in s.queue && e.id == i;
      var k :| 0 <= k < |s.queue| && s.queue[k] == e;
      assert e == s.log.offered[Front(s) + k];
    }
  }

  lemma TestKeepsApart(s: State)
    requires History(s) && Apart(s) && s.worker.Testing?
    ensures Apart(TestPredicate(s))
  {
    if s.stop {
      QueueIds(s);
      forall i | i in Ids(s.queue) ensures !Gone(s.log, i) {}
    } else if s.queue != [] {
      var id := s.queue[0].id;
      assert !Gone(s.log, id);
      MemberOfAppend(s.log.popped, id);
    }
  }

  lemma FateStart(snapshot: Snapshot, disk: W.Files, opens: bool)
    ensures History(Initial(snapshot, disk, opens)) && Apart(Initial(snapshot, disk, opens))
  {
    hide W.Configured;
  }

  /** Same queue, same fates, same body in flight. */
  predicate SameQueue(s: State, t: State) {
    && t.queue == s.queue && t.log.offered == s.log.offered
    && t.log.popped == s.log.popped && t.log.dropped == s.log.dropped && t.log.cleared == s.log.cleared
    && (t.worker.Holding? || t.worker.Posting? ==>
          (s.worker.Holding? || s.worker.Posting?) && t.worker.entry == s.worker.entry)
  }

  predicate SameFates(s: State, t: State) {
    && SameQueue(s, t) && InFlight(t.worker) == InFlight(s.worker)
    && t.log.finished == s.log.finished && t.log.skipped == s.log.skipped && (s.stop ==> t.stop)
  }

  lemma WorkerKeepsQueue(s: State, a: Step)
    requires Enabled(s, a) && OfWorker(a) && !a.Test?
    ensures SameQueue(s, Do(s, a)) && (!a.Copy? && !a.Attempt? ==> SameFates(s, Do(s, a)))
  {
    hide IsBudget, PostsNow, TestPredicate;
  }

  lemma OtherSteps(s: State, a: Step)
    requires Enabled(s, a) && !a.Enqueue? && !a.Test?
    ensures SameQueue(s, Do(s, a))
    ensures !a.Copy? && !a.Attempt? ==> SameFates(s, Do(s, a))
  {
    hide Do, Enabled;
    if OfWorker(a) {
      WorkerKeepsQueue(s, a);
    } else {
      ExecutorFrame(s, a);
      QueueFrame(s, a);
    }
  }

  lemma HistoryFrame(s: State, t: State)
    requires History(s) && SameQueue(s, t)
    ensures History(t)
  {
    assert forall i: nat :: Gone(t.log, i) <==> Gone(s.log, i);
  }

  lemma ApartFrame(s: State, t: State)
    requires Apart(s) && SameFates(s, t)
    ensures Apart(t)
  {
  }

  lemma CopyKeepsApart(s: State, budget: int)
    requires Apart(s) && s.worker.Holding?
    ensures Apart(CopySnapshot(s, budget))
  {
    hide PostsNow;
    assert s.worker.entry.id in InFlight(s.worker);
  }

  lemma AttemptKeepsApart(s: State, ok: bool)
    requires Apart(s) && s.worker.Posting?
    ensures Apart(PostOnce(s, ok))
  {
    var id := s.worker.entry.id;
    assert id in InFlight(s.worker);
    var t := PostOnce(s, ok);
    assert t.worker.Testing? ==> t.log.finished.Keys == s.log.finished.Keys + {id};
  }

  lemma HistoryKept(s: State, a: Step)
    requires History(s) && Enabled(s, a)
    ensures History(Do(s, a))
  {
    hide History, SameQueue;
    match a
    case Enqueue => EnqueueKeepsHistory(s);
    case Test => TestKeepsHistory(s);
    case _ =>
      OtherSteps(s, a);
      HistoryFrame(s, Do(s, a));
  }

  lemma ApartKept(s: State, a: Step)
    requires History(s) && Apart(s) && Enabled(s, a)
    ensures Apart(Do(s, a))
  {
    hide History, Apart, SameFates;
    match a
    case Enqueue => EnqueueKeepsApart(s);
    case Test => TestKeepsApart(s);
    case Copy(budget) => CopyKeepsApart(s, budget);
    case Attempt(ok) => AttemptKeepsApart(s, ok);
    case _ =>
      OtherSteps(s, a);
      ApartFrame(s, Do(s, a));
  }

  // ------------------------------------------------- configurations over time

  /** Some snapshot that was in force from number `from` on has no HTTP mode. */
  predicate LeftHttp(configs: seq<Snapshot>, from: nat) {
    exists j :: from <= j < |configs| && !UsesHttp(configs[j].sendMode)
  }

  /** Every body was enqueued under an HTTP mode, and a skipped one met a later
      snapshot without. */
  ghost predicate Eras(s: State) {
    && |s.log.eras| == |s.log.offered|
    && (forall i :: 0 <= i < |s.log.eras| ==>
          1 <= s.log.eras[i] <= |s.log.configs| && UsesHttp(s.log.configs[s.log.eras[i] - 1].sendMode))
    && (s.exec.Enqueueing? ==> UsesHttp(s.snapshot.sendMode))
    && (forall id :: id in s.log.skipped ==> id < |s.log.eras| && LeftHttp(s.log.configs, s.log.eras[id]))
  }

  /** Same bodies and skips, more configurations. */
  predicate SameEras(s: State, t: State) {
    && t.log.eras == s.log.eras && t.log.offered == s.log.offered && t.log.skipped == s.log.skipped
    && s.log.configs <= t.log.configs
    && (t.exec.Enqueueing? ==>
          t.snapshot == s.snapshot && (s.exec.Enqueueing? || (s.exec.Routing? && UsesHttp(s.exec.snap.sendMode))))
  }

  lemma WorkerKeepsSkips(s: State, a: Step)
    requires Enabled(s, a) && OfWorker(a) && (a.Copy? ==> PostsNow(s.snapshot))
    ensures Do(s, a).log.skipped == s.log.skipped
  {
    hide IsBudget, PostsNow, Ids;
  }

  lemma HttpComesToEnqueue(s: State, a: Step)
    requires Enabled(s, a) && !OfWorker(a) && !a.Enqueue? && Do(s, a).exec.Enqueueing?
    ensures Do(s, a).snapshot == s.snapshot
    ensures s.exec.Enqueueing? || (s.exec.Routing? && UsesHttp(s.exec.snap.sendMode))
  {
    hide W.Configured, W.Appended, Candidate, Fault, DetectionJson.Serialized, WriterInputs, UsesHttp;
    hide TestPredicate, CopySnapshot, PostOnce, EnqueueBody;
  }

  lemma OthersKeepEras(s: State, a: Step)
    requires Enabled(s, a) && !a.Enqueue? && (a.Copy? ==> PostsNow(s.snapshot))
    ensures SameEras(s, Do(s, a))
  {
    hide Do, Enabled, PostsNow, UsesHttp;
    if OfWorker(a) {
      WorkerFrame(s, a);
      WorkerKeepsSkips(s, a);
    } else {
      ExecutorFrame(s, a);
      QueueFrame(s, a);
      if Do(s, a).exec.Enqueueing? { HttpComesToEnqueue(s, a); }
    }
  }

  lemma ErasFrame(s: State, t: State)
    requires Eras(s) && Control(s) && SameEras(s, t)
    ensures Eras(t)
  {
    hide UsesHttp, NoLostWakeup, WorkerPresent;
    forall id | id in t.log.skipped ensures LeftHttp(t.log.configs, t.log.eras[id]) {
      var j :| s.log.eras[id] <= j < |s.log.configs| && !UsesHttp(s.log.configs[j].sendMode);
      assert t.log.configs[j] == s.log.configs[j];
    }
  }

  lemma EnqueueKeepsEras(s: State)
    requires Eras(s) && Settings(s) && s.exec.Enqueueing?
    ensures Eras(EnqueueBody(s))
  {
    hide UsesHttp, Push, Constructible, PostsNow, LeftHttp;
  }

  lemma SkipKeepsEras(s: State, budget: int)
    requires Eras(s) && Settings(s) && History(s) && s.worker.Holding? && !PostsNow(s.snapshot)
    ensures Eras(CopySnapshot(s, budget))
    ensures var id := s.worker.entry.id;
            id < |s.log.eras| && s.log.eras[id] < |s.log.configs| && !UsesHttp(s.snapshot.sendMode)
  {
    hide Coherent;
    var n := |s.log.configs| - 1;
    var id := s.worker.entry.id;
    assert UsesHttp(s.log.configs[s.log.eras[id] - 1].sendMode);
    assert s.log.eras[id] <= n && !UsesHttp(s.log.configs[n].sendMode);
  }

  lemma ErasKept(s: State, a: Step)
    requires Eras(s) && Control(s) && Settings(s) && History(s) && Enabled(s, a)
    ensures Eras(Do(s, a))
  {
    hide Eras, Control, Settings, History, SameEras, PostsNow, EnqueueBody, CopySnapshot;
    if a.Enqueue? {
      EnqueueKeepsEras(s);
    } else if a.Copy? && !PostsNow(s.snapshot) {
      SkipKeepsEras(s, a.budget);
    } else {
      OthersKeepEras(s, a);
      ErasFrame(s, Do(s, a));
    }
  }

  // --------------------------------------------------- every reachable state

  ghost predicate Invariant(s: State) {
    Control(s) && Settings(s) && History(s) && Apart(s) && Eras(s)
  }

  lemma InvariantStart(snapshot: Snapshot, disk: W.Files, opens: bool)
    requires Constructible(snapshot)
    ensures Invariant(Initial(snapshot, disk, opens))
  {
    hide Control, Settings, History, Apart, W.Configured;
    ControlStart(snapshot, disk, opens);
    FateStart(snapshot, disk, opens);
  }

  lemma InvariantKept(s: State, a: Step)
    requires Invariant(s) && Enabled(s, a)
    ensures Invariant(Do(s, a))
  {
    hide Control, Settings, History, Apart, Eras, Do, Enabled;
    ControlKept(s, a);
    SettingsKept(s, a);
    HistoryKept(s, a);
    ApartKept(s, a);
    ErasKept(s, a);
  }

  lemma {:induction false} RunKeeps(snapshot: Snapshot, disk: W.Files, opens: bool, steps: seq<Step>)
    requires Constructible(snapshot) && Run(Initial(snapshot, disk, opens), steps).Some?
    ensures Invariant(Run(Initial(snapshot, disk, opens), steps).value)
  {
    hide Invariant, Do, Enabled, Initial, Constructible;
    if steps == [] {
      InvariantStart(snapshot, disk, opens);
    } else {
      var n := |steps| - 1;
      RunKeeps(snapshot, disk, opens, steps[..n]);
      InvariantKept(Run(Initial(snapshot, disk, opens), steps[..n]).value, steps[n]);
    }
  }

  lemma ReachableKeeps(s: State)
    requires Reachable(s)
    ensures Invariant(s)
  {
    hide Invariant, Run, Initial, Constructible;
    var snapshot, disk, opens, steps :|
      Constructible(snapshot) && Run(Initial(snapshot, disk, opens), steps) == Some(s);
    RunKeeps(snapshot, disk, opens, steps);
  }

  // ------------------------------------------------------------- main results

  /** Whenever the worker sleeps although there is work or a stop request, the
      executor still owes it a notification. At most one worker is ever
      started, queued work implies that it was, and so does an HTTP mode
      between callbacks. */
  lemma WakeupNeverLost(s: State)
    requires Reachable(s)
    ensures s.worker.Asleep? && (s.queue != [] || s.stop) ==> s.exec.Notifying? || s.exec.NotifyingAll?
    ensures s.log.starts <= 1 && (s.log.starts == 0 <==> s.worker.NotStarted?)
    ensures s.queue != [] ==> s.log.starts == 1
    ensures s.exec.Idle? && UsesHttp(s.snapshot.sendMode) ==> s.log.starts == 1
  {
    ReachableKeeps(s);
  }

  /** The snapshot in force is always valid, and its URL is the parse of its
      endpoint. */
  lemma SnapshotAlwaysValid(s: State)
    requires Reachable(s)
    ensures Valid(s.snapshot) && Coherent(s.snapshot)
    ensures UsesHttp(s.snapshot.sendMode) ==> HttpUrl.ParseHttpUrl(s.snapshot.endpoint) == Some(s.snapshot.url)
  {
    ReachableKeeps(s);
  }

  /** The queue is the most recent part of everything ever enqueued. */
  lemma QueueIsRecentHistory(s: State)
    requires Reachable(s)
    ensures |s.queue| <= 32 && |s.queue| <= |s.log.offered|
    ensures s.queue == s.log.offered[|s.log.offered| - |s.queue|..]
  {
    ReachableKeeps(s);
  }

  function One(b: bool): nat {
    if b then 1 else 0
  }

  function Fates(s: State, id: nat): nat {
    One(id in Ids(s.queue)) + One(id in InFlight(s.worker)) + One(id in s.log.finished) +
    One(id in s.log.skipped) + One(id in s.log.dropped) + One(id in s.log.cleared)
  }

  /** Every enqueued body is in exactly one place: queued, in flight, posted,
      skipped, dropped on overflow or, after a stop request only, cleared. */
  lemma ExactlyOneFate(s: State, id: nat)
    requires Reachable(s)
    ensures Fates(s, id) == One(id < |s.log.offered|)
    ensures !s.stop ==> s.log.cleared == {}
  {
    ReachableKeeps(s);
    QueueIds(s);
    assert Gone(s.log, id) <==> id < Front(s);
  }

  /** Bodies leave the queue for the network in the order they entered it. */
  lemma PoppedInOrder(s: State)
    requires Reachable(s)
    ensures StrictlyIncreasing(s.log.popped)
    ensures forall i :: 0 <= i < |s.log.popped| ==> s.log.popped[i] < |s.log.offered|
  {
    ReachableKeeps(s);
    forall i | 0 <= i < |s.log.popped| ensures s.log.popped[i] < |s.log.offered| {
      assert Gone(s.log, s.log.popped[i]);
    }
  }

  /** Overflow takes the oldest of 32 queued bodies, and nothing else is dropped. */
  lemma DropOnlyOldestWhenFull(s: State, a: Step, id: nat)
    requires Reachable(s) && Enabled(s, a)
    requires id in Do(s, a).log.dropped && id !in s.log.dropped
    ensures |s.queue| == 32 && s.queue[0].id == id
    ensures forall k :: 0 < k < |s.queue| ==> s.queue[k].id > id
  {
    ReachableKeeps(s);
    if !a.Enqueue? && !a.Test? { OtherSteps(s, a); }
    forall k | 0 < k < |s.queue| ensures s.queue[k].id > s.queue[0].id {
      assert s.queue[k] == s.log.offered[Front(s) + k] && s.queue[0] == s.log.offered[Front(s)];
    }
  }

  lemma OnlyCopySkips(s: State, a: Step, id: nat)
    requires Enabled(s, a) && id in Do(s, a).log.skipped && id !in s.log.skipped
    ensures a.Copy? && s.worker.Holding? && s.worker.entry.id == id && !PostsNow(s.snapshot)
  {
    if !OfWorker(a) {
      hide Do, Enabled;
      ExecutorFrame(s, a);
    } else {
      hide PostsNow, IsBudget, Ids;
    }
  }

  /** A popped body is skipped only when the mode was changed since it was
      enqueued: the snapshot then in force had an HTTP mode, the one read now is a
      later one and has none. */
  lemma SkippedOnlyAfterModeChange(s: State, a: Step, id: nat)
    requires Reachable(s) && Enabled(s, a)
    requires id in Do(s, a).log.skipped && id !in s.log.skipped
    ensures InFlight(s.worker) == {id} && id < |s.log.eras|
    ensures var era, now := s.log.eras[id], |s.log.configs| - 1;
            && 1 <= era <= now
            && UsesHttp(s.log.configs[era - 1].sendMode)
            && s.log.configs[now] == s.snapshot && !UsesHttp(s.snapshot.sendMode)
  {
    hide Reachable, Control, Settings, History, Eras, Apart, UsesHttp, PostsNow, Enabled, Do;
    OnlyCopySkips(s, a, id);
    ReachableKeeps(s);
    SkipKeepsEras(s, a.budget);
    EraStart(s, id);
  }

  lemma EraStart(s: State, id: nat)
    requires Eras(s) && Settings(s) && id < |s.log.eras|
    ensures 1 <= s.log.eras[id] <= |s.log.configs| && UsesHttp(s.log.configs[s.log.eras[id] - 1].sendMode)
    ensures s.log.configs[|s.log.configs| - 1] == s.snapshot
  {
    hide UsesHttp, LeftHttp, Constructible, PostsNow;
  }

  /** ... and so the history shows the change for every skipped body. */
  lemma SkippedShowsModeChange(s: State, id: nat)
    requires Reachable(s) && id in s.log.skipped
    ensures id < |s.log.eras| && 1 <= s.log.eras[id] <= |s.log.configs|
    ensures UsesHttp(s.log.configs[s.log.eras[id] - 1].sendMode) && LeftHttp(s.log.configs, s.log.eras[id])
  {
    hide UsesHttp, LeftHttp, Control, Settings, History, Apart;
    ReachableKeeps(s);
  }
}
