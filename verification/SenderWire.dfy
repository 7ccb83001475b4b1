/** What goes over the network: which bodies, to which URL, how often. */
module SenderWire {
  import opened Prelude
  import opened SenderConfig
  import opened SenderProtocol
  import opened SenderSafety
  import HttpUrl
  import W = ResultWriter
  import DetectionJson

  /** Results of the attempts made for one body, in order. */
  function Outcomes(wire: seq<Post>, id: nat): seq<bool> {
    if wire == [] then []
    else
      var n := |wire| - 1;
      Outcomes(wire[..n], id) + if wire[n].id == id then [wire[n].ok] else []
  }

  /** Attempts up to the first success, otherwise as many as the budget. */
  predicate Settled(outcomes: seq<bool>, budget: int) {
    && 1 <= |outcomes| <= budget
    && (forall i :: 0 <= i < |outcomes| - 1 ==> !outcomes[i])
    && (outcomes[|outcomes| - 1] || |outcomes| == budget)
  }

  predicate AllFailed(outcomes: seq<bool>) {
    forall i :: 0 <= i < |outcomes| ==> !outcomes[i]
  }

  /** The snapshot a posted body is processed under. */
  function SnapshotOf(s: State, id: nat): Option<Snapshot> {
    if id in s.log.finished then Some(s.log.finished[id].snap)
    else if s.worker.Posting? && s.worker.entry.id == id then Some(s.worker.snap)
    else None
  }

  predicate KnownPost(s: State, p: Post) {
    && p.id < |s.log.offered| && p.body == s.log.offered[p.id].body
    && p.id in s.log.popped
    && SnapshotOf(s, p.id).Some? && SnapshotOf(s, p.id).value.url == p.url
  }

  predicate InOrder(wire: seq<Post>) {
    forall i, j :: 0 <= i < j < |wire| ==> wire[i].id <= wire[j].id
  }

  predicate JobDone(s: State, id: nat)
    requires id in s.log.finished
  {
    var job := s.log.finished[id];
    && job.snap in s.log.configs && PostsNow(job.snap)
    && IsBudget(job.snap.retryCount, job.budget) && Settled(Outcomes(s.log.wire, id), job.budget)
  }

  predicate CurrentJob(s: State) {
    match s.worker
    case Holding(e) => Outcomes(s.log.wire, e.id) == []
    case Posting(e, snap, budget, tries) =>
      && 0 <= tries < budget && IsBudget(snap.retryCount, budget)
      && |Outcomes(s.log.wire, e.id)| == tries && AllFailed(Outcomes(s.log.wire, e.id))
    case _ => true
  }

  ghost predicate Traffic(s: State) {
    && (forall k :: 0 <= k < |s.log.wire| ==> KnownPost(s, s.log.wire[k]))
    && InOrder(s.log.wire)
    && CurrentJob(s)
    && (forall id :: id in s.log.finished ==> JobDone(s, id))
  }

  lemma {:induction false} NotPosted(wire: seq<Post>, id: nat)
    requires forall k :: 0 <= k < |wire| ==> wire[k].id != id
    ensures Outcomes(wire, id) == []
  {
    if wire != [] { NotPosted(wire[..|wire| - 1], id); }
  }

  lemma OutcomesNext(wire: seq<Post>, p: Post, id: nat)
    ensures Outcomes(wire + [p], id) == Outcomes(wire, id) + if p.id == id then [p.ok] else []
  {
    assert (wire + [p])[..|wire|] == wire;
  }

  /** Nothing that concerns the network changes; histories may grow. */
  predicate Quiet(s: State, t: State) {
    && t.log.wire == s.log.wire && t.log.popped == s.log.popped && t.log.finished == s.log.finished
    && s.log.offered <= t.log.offered && s.log.configs <= t.log.configs
    && (t.worker == s.worker || (!s.worker.Posting? && !t.worker.Posting? && !t.worker.Holding?))
  }

  lemma QuietSteps(s: State, a: Step)
    requires Enabled(s, a) && !a.Test? && !a.Copy? && !a.Attempt?
    ensures Quiet(s, Do(s, a))
  {
    if OfWorker(a) {
    } else {
      hide Do, Enabled;
      ExecutorFrame(s, a);
      OfferedGrows(s, a);
    }
  }

  lemma OfferedGrows(s: State, a: Step)
    requires Enabled(s, a) && !OfWorker(a)
    ensures s.log.offered <= Do(s, a).log.offered
  {
    if !a.Enqueue? {
      hide Do, Enabled;
      QueueFrame(s, a);
    }
  }

  lemma QuietKeepsTraffic(s: State, t: State)
    requires Traffic(s) && Quiet(s, t)
    ensures Traffic(t)
  {
    hide PostsNow, IsBudget, Settled, Outcomes;
    forall k | 0 <= k < |t.log.wire| ensures KnownPost(t, t.log.wire[k]) {
      assert KnownPost(s, s.log.wire[k]);
    }
    forall id | id in t.log.finished ensures JobDone(t, id) {
      assert JobDone(s, id);
    }
  }

  lemma TestKeepsTraffic(s: State)
    requires Traffic(s) && History(s) && s.worker.Testing?
    ensures Traffic(TestPredicate(s))
  {
    hide PostsNow, IsBudget, Settled, Outcomes;
    var t := TestPredicate(s);
    forall k | 0 <= k < |t.log.wire| ensures KnownPost(t, t.log.wire[k]) {
      assert KnownPost(s, s.log.wire[k]);
    }
    forall id | id in t.log.finished ensures JobDone(t, id) {
      assert JobDone(s, id);
    }
    if !s.stop && s.queue != [] {
      var id := s.queue[0].id;
      assert !Gone(s.log, id);
      forall k | 0 <= k < |s.log.wire| ensures s.log.wire[k].id != id {
        assert KnownPost(s, s.log.wire[k]);
      }
      NotPosted(s.log.wire, id);
    }
  }

  lemma CopyKeepsTraffic(s: State, budget: int)
    requires Traffic(s) && Settings(s) && s.worker.Holding? && IsBudget(s.snapshot.retryCount, budget)
    ensures Traffic(CopySnapshot(s, budget))
  {
    hide Settled, Outcomes, Constructible, PostsNow;
    var t := CopySnapshot(s, budget);
    forall k | 0 <= k < |t.log.wire| ensures KnownPost(t, t.log.wire[k]) {
      assert KnownPost(s, s.log.wire[k]);
    }
    forall id | id in t.log.finished ensures JobDone(t, id) {
      assert JobDone(s, id);
    }
  }

  lemma LastIsMost(s: seq<nat>, x: nat)
    requires StrictlyIncreasing(s) && x in s
    ensures x <= s[|s| - 1]
  {
  }

  lemma SnapshotStays(s: State, ok: bool, id: nat)
    requires Apart(s) && s.worker.Posting?
    ensures SnapshotOf(PostOnce(s, ok), id) == SnapshotOf(s, id)
    ensures SnapshotOf(s, s.worker.entry.id) == Some(s.worker.snap)
  {
    assert s.worker.entry.id in InFlight(s.worker);
  }

  lemma AttemptIsKnown(s: State, ok: bool)
    requires Traffic(s) && History(s) && Apart(s) && s.worker.Posting?
    ensures var t := PostOnce(s, ok); forall k :: 0 <= k < |t.log.wire| ==> KnownPost(t, t.log.wire[k])
    ensures InOrder(PostOnce(s, ok).log.wire)
  {
    hide Outcomes, CurrentJob, JobDone, Apart, SnapshotOf;
    var t := PostOnce(s, ok);
    var n := |s.log.wire|;
    SnapshotStays(s, ok, s.worker.entry.id);
    forall k | 0 <= k < n ensures KnownPost(t, t.log.wire[k]) && t.log.wire[k].id <= s.worker.entry.id {
      var p := s.log.wire[k];
      assert KnownPost(s, p) && t.log.wire[k] == p;
      SnapshotStays(s, ok, p.id);
      LastIsMost(s.log.popped, p.id);
    }
    assert KnownPost(t, t.log.wire[n]);
  }

  lemma AttemptCounts(s: State, ok: bool)
    requires Traffic(s) && Settings(s) && Apart(s) && s.worker.Posting?
    ensures var t := PostOnce(s, ok); CurrentJob(t) && forall id :: id in t.log.finished ==> JobDone(t, id)
  {
    hide Outcomes, IsBudget, KnownPost, InOrder, Constructible, PostsNow;
    var t := PostOnce(s, ok);
    var e := s.worker.entry;
    var p := Post(e.id, s.worker.snap.url, e.body, ok);
    OutcomesNext(s.log.wire, p, e.id);
    forall id | id in t.log.finished ensures JobDone(t, id) {
      OutcomesNext(s.log.wire, p, id);
      assert e.id in InFlight(s.worker);
      if id != e.id { assert JobDone(s, id); }
    }
  }

  lemma TrafficKept(s: State, a: Step)
    requires Traffic(s) && Invariant(s) && Enabled(s, a)
    ensures Traffic(Do(s, a))
  {
    hide Control, Settings, History, Apart, Eras, Quiet, Outcomes, KnownPost;
    match a
    case Test => TestKeepsTraffic(s);
    case Copy(budget) => CopyKeepsTraffic(s, budget);
    case Attempt(ok) =>
      AttemptIsKnown(s, ok);
      AttemptCounts(s, ok);
    case _ =>
      QuietSteps(s, a);
      QuietKeepsTraffic(s, Do(s, a));
  }

  lemma {:induction false} RunKeepsTraffic(snapshot: Snapshot, disk: W.Files, opens: bool, steps: seq<Step>)
    requires Constructible(snapshot) && Run(Initial(snapshot, disk, opens), steps).Some?
    ensures Traffic(Run(Initial(snapshot, disk, opens), steps).value)
  {
    hide Invariant, Do, Enabled, Constructible, W.Configured;
    if steps != [] {
      hide Initial, Traffic;
      var n := |steps| - 1;
      RunKeepsTraffic(snapshot, disk, opens, steps[..n]);
      RunKeeps(snapshot, disk, opens, steps[..n]);
      TrafficKept(Run(Initial(snapshot, disk, opens), steps[..n]).value, steps[n]);
    }
  }

  lemma ReachableTraffic(s: State)
    requires Reachable(s)
    ensures Traffic(s)
  {
    hide Traffic, Run, Initial, Constructible;
    var snapshot, disk, opens, steps :|
      Constructible(snapshot) && Run(Initial(snapshot, disk, opens), steps) == Some(s);
    RunKeepsTraffic(snapshot, disk, opens, steps);
  }

  // ------------------------------------------------------------- main results

  /** A processed body was attempted up to its first success, and otherwise
      exactly `retry_count + 1` times, with the snapshot it was processed under. */
  lemma AttemptsExact(s: State, id: nat)
    requires Reachable(s) && id in s.log.finished
    ensures s.log.finished[id].snap in s.log.configs
    ensures var retries := s.log.finished[id].snap.retryCount; var outcomes := Outcomes(s.log.wire, id);
            retries < INT64_MAX ==>
              Settled(outcomes, retries + 1) && (AllFailed(outcomes) ==> |outcomes| == retries + 1)
  {
    ReachableKeeps(s);
    ReachableTraffic(s);
    assert JobDone(s, id);
    var snap := s.log.finished[id].snap;
    var i :| 0 <= i < |s.log.configs| && s.log.configs[i] == snap;
    assert Constructible(s.log.configs[i]);
  }

  // ------------------------------------------------ the largest retry count

  /** Idle and running with an HTTP snapshot, nothing enqueued yet. */
  predicate Fresh(s: State, snap: Snapshot) {
    && s.snapshot == snap && UsesHttp(snap.sendMode) && !s.stop && s.queue == []
    && s.exec == Idle && s.worker == Testing && s.log.wire == [] && s.log.finished == map[]
  }

  /** One body queued, and the worker about to look. */
  predicate Waiting(s: State, snap: Snapshot) {
    && s.snapshot == snap && !s.stop && |s.queue| == 1 && s.worker == Testing
    && s.log.wire == [] && s.log.finished == map[]
  }

  lemma Starts(s: State, snap: Snapshot) returns (t: State)
    requires s.exec == Starting && s.worker == NotStarted && Fresh(s.(exec := Idle, worker := Testing), snap)
    ensures Run(s, [Start]) == Some(t) && Fresh(t, snap)
  {
    t := Do(s, Start);
    RunNothing(s);
    RunThen(s, [], Start);
    assert [] + [Start] == [Start];
  }

  lemma FrameArrives(s: State, snap: Snapshot, p: DetectionJson.Payload) returns (t: State)
    requires Fresh(s, snap)
    ensures Run(s, [Receive(p), Save(W.Written), Route, Enqueue, NotifyOne]) == Some(t) && Waiting(t, snap)
  {
    hide W.Appended, DetectionJson.Serialized, UsesHttp, Run;
    var steps := [Receive(p), Save(W.Written), Route, Enqueue, NotifyOne];
    RunNothing(s);
    RunThen(s, [], Receive(p));
    assert [] + [Receive(p)] == steps[..1];
    var s1 := Do(s, Receive(p));
    RunThen(s, steps[..1], Save(W.Written));
    assert steps[..1] + [steps[1]] == steps[..2];
    var s2 := Do(s1, Save(W.Written));
    RunThen(s, steps[..2], Route);
    assert steps[..2] + [steps[2]] == steps[..3];
    var s3 := Do(s2, Route);
    RunThen(s, steps[..3], Enqueue);
    assert steps[..3] + [steps[3]] == steps[..4];
    var s4 := Do(s3, Enqueue);
    RunThen(s, steps[..4], NotifyOne);
    assert steps[..4] + [steps[4]] == steps;
    t := Do(s4, NotifyOne);
  }

  lemma OneAttemptFails(s: State, snap: Snapshot) returns (t: State)
    requires Waiting(s, snap) && PostsNow(snap) && IsBudget(snap.retryCount, 1)
    ensures var id := s.queue[0].id;
            && Run(s, [Test, Copy(1), Attempt(false)]) == Some(t)
            && id in t.log.finished && t.log.finished[id].snap == snap && Outcomes(t.log.wire, id) == [false]
  {
    hide PostsNow, IsBudget, Run, Outcomes;
    var steps := [Test, Copy(1), Attempt(false)];
    var e := s.queue[0];
    RunNothing(s);
    RunThen(s, [], Test);
    assert [] + [Test] == steps[..1];
    var s1 := Do(s, Test);
    assert s1.worker == Holding(e) && s1.snapshot == snap && s1.log.wire == [];
    RunThen(s, steps[..1], Copy(1));
    assert steps[..1] + [steps[1]] == steps[..2];
    var s2 := Do(s1, Copy(1));
    assert s2.worker == Posting(e, snap, 1, 0) && s2.log.wire == [];
    RunThen(s, steps[..2], Attempt(false));
    assert steps[..2] + [steps[2]] == steps;
    t := Do(s2, Attempt(false));
    var post := Post(e.id, snap.url, e.body, false);
    assert t.log.wire == [] + [post];
    OutcomesNext([], post, e.id);
    assert Outcomes([], e.id) == [] by { NotPosted([], e.id); }
  }

  /** A valid HTTP snapshot whose budget may be 1 has a run with one failed attempt. */
  lemma OneFailureHappens(snap: Snapshot, p: DetectionJson.Payload) returns (t: State, id: nat)
    requires Constructible(snap) && UsesHttp(snap.sendMode) && IsBudget(snap.retryCount, 1)
    ensures Reachable(t) && id in t.log.finished && t.log.finished[id].snap == snap
    ensures Outcomes(t.log.wire, id) == [false]
  {
    hide Run, IsBudget, Outcomes, UsesHttp, W.Configured, HttpUrl.ParseHttpUrl;
    var s := Initial(snap, map[], true);
    var frame, attempt := [Receive(p), Save(W.Written), Route, Enqueue, NotifyOne], [Test, Copy(1), Attempt(false)];
    var s1 := Starts(s, snap);
    var s2 := FrameArrives(s1, snap, p);
    t := OneAttemptFails(s2, snap);
    id := s2.queue[0].id;
    RunConcat(s, [Start], frame);
    RunConcat(s, [Start] + frame, attempt);
    ShowReachable(snap, ([Start] + frame) + attempt, t);
  }

  lemma ShowReachable(snap: Snapshot, steps: seq<Step>, t: State)
    requires Constructible(snap) && Run(Initial(snap, map[], true), steps) == Some(t)
    ensures Reachable(t)
  {
    hide Run, Initial, Constructible;
  }

  /** What the parameter promises: a body that is never accepted is attempted
      `retry_count + 1` times. */
  predicate Promised(s: State, id: nat, snap: Snapshot) {
    id in s.log.finished && s.log.finished[id].snap == snap && AllFailed(Outcomes(s.log.wire, id)) ==>
      |Outcomes(s.log.wire, id)| == snap.retryCount + 1
  }

  /** It holds in every run exactly for retry counts whose successor is an int64;
      for the largest one a single attempt may be all. */
  lemma RetriesPromisedIff(snap: Snapshot, p: DetectionJson.Payload)
    requires Constructible(snap) && UsesHttp(snap.sendMode)
    ensures (forall s, id :: Reachable(s) ==> Promised(s, id, snap)) <==> snap.retryCount < INT64_MAX
  {
    hide Reachable, Outcomes, HttpUrl.ParseHttpUrl;
    if snap.retryCount < INT64_MAX {
      forall s, id | Reachable(s) ensures Promised(s, id, snap) {
        if id in s.log.finished && s.log.finished[id].snap == snap { AttemptsExact(s, id); }
      }
    } else {
      var t, id := OneFailureHappens(snap, p);
      assert !Promised(t, id, snap);
    }
  }

  /** A body still queued, dropped, skipped or cleared was never posted. */
  lemma OnlyPoppedBodiesArePosted(s: State, id: nat)
    requires Reachable(s)
    requires || id in Ids(s.queue) || id in s.log.dropped || id in s.log.cleared || id in s.log.skipped
             || (s.worker.Holding? && s.worker.entry.id == id)
    ensures Outcomes(s.log.wire, id) == []
  {
    ReachableKeeps(s);
    ReachableTraffic(s);
    ExactlyOneFate(s, id);
    if !(s.worker.Holding? && s.worker.entry.id == id) {
      forall k | 0 <= k < |s.log.wire| ensures s.log.wire[k].id != id {
        var p := s.log.wire[k];
        assert KnownPost(s, p);
        assert p.id in s.log.finished || p.id in InFlight(s.worker);
      }
      NotPosted(s.log.wire, id);
    }
  }

  /** Every post carries an enqueued body, unchanged, to the endpoint of the one
      snapshot it is processed under: that snapshot was in force, has an HTTP mode
      and parses to the URL used, which is never one left over from an endpoint
      that failed to parse. */
  lemma PostsGoWhereConfigured(s: State, k: nat)
    requires Reachable(s) && k < |s.log.wire|
    ensures var p := s.log.wire[k]; p.id < |s.log.offered| && p.body == s.log.offered[p.id].body
    ensures var p := s.log.wire[k]; var snap := SnapshotOf(s, p.id);
            && snap.Some? && snap.value in s.log.configs && UsesHttp(snap.value.sendMode)
            && HttpUrl.ParseHttpUrl(snap.value.endpoint) == Some(p.url)
  {
    hide Reachable, Control, History, Apart, Eras, Outcomes, Settled, IsBudget, HttpUrl.ParseHttpUrl;
    ReachableKeeps(s);
    ReachableTraffic(s);
    var p := s.log.wire[k];
    assert KnownPost(s, p);
    if p.id in s.log.finished { assert JobDone(s, p.id); }
    var snap := SnapshotOf(s, p.id).value;
    var i :| 0 <= i < |s.log.configs| && s.log.configs[i] == snap;
    assert Constructible(s.log.configs[i]);
  }
}
