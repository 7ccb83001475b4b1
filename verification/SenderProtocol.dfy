/** The concurrent protocol of `detection_sender_node.cpp`: one executor thread
    running callbacks and the destructor, one worker thread draining a bounded
    queue under a mutex and a condition variable.

    One step is one region under a lock, or one action outside any lock that
    the other thread can observe; `queue_cv_.notify_*` is a step of its own
    behind the unlock, and the worker's test, sleep and wake-up are three. */
module SenderProtocol {
  import opened Prelude
  import opened SenderConfig
  import HttpUrl
  import W = ResultWriter
  import DetectionJson

  const MAX_QUEUE := 32

  /** A queued body. `id` is its rank among all bodies ever enqueued: a history
      tag that no step reads. */
  datatype Entry = Entry(id: nat, body: string)

  /** One call of `http_post_json`. */
  datatype Post = Post(id: nat, url: HttpUrl.Url, body: string, ok: bool)

  /** One successful append to the result file. */
  datatype Saved = Saved(path: string, payload: DetectionJson.Payload)

  /** The configuration and the attempts a finished body was processed with. */
  datatype Job = Job(snap: Snapshot, budget: int)

  datatype Executor =
    | Starting                                                      // constructor, before the worker check
    | Idle                                                          // between callbacks
    | Saving(payload: DetectionJson.Payload, snap: Snapshot)        // on_detections, snapshot copied
    | Routing(payload: DetectionJson.Payload, snap: Snapshot, mark: Option<nat>)
    | Enqueueing(body: string, mark: Option<nat>)                   // enqueue_http, before its lock
    | Notifying                                                     // lock released, notify_one pending
    | Committing(cand: Snapshot, writerInputs: bool)                // on_parameter_change, candidate accepted
    | EnsuringWorker(cand: Snapshot, writerInputs: bool)
    | Configuring(cand: Snapshot)
    | NotifyingAll                                                  // destructor, stop flag set
    | Joining
    | Destroyed

  datatype Worker =
    | NotStarted
    | Testing                                                       // about to lock and test the predicate
    | Deciding                                                      // predicate false, lock held, not yet asleep
    | Asleep
    | Holding(entry: Entry)                                         // body popped, lock released
    | Posting(entry: Entry, snap: Snapshot, budget: int, tries: int)
    | Exited

  /** What has happened so far; no step reads it. */
  datatype Log = Log(
    offered: seq<Entry>,              // every body enqueued, in order
    marks: seq<Option<nat>>,          // for each of them, its position in `saved`
    eras: seq<nat>,                   // for each of them, how many `configs` there were
    popped: seq<nat>,
    dropped: set<nat>,
    cleared: set<nat>,
    skipped: set<nat>,
    finished: map<nat, Job>,
    wire: seq<Post>,
    saved: seq<Saved>,
    published: seq<DetectionJson.Payload>,  // frames published on the topic
    configs: seq<Snapshot>,           // every snapshot that was ever in force
    starts: nat,
    failures: nat,                    // failed opens and appends
    disk: W.Files)                    // files before the node existed

  datatype State = State(
    snapshot: Snapshot, queue: seq<Entry>, stop: bool,
    writer: W.Writer, files: W.Files,
    exec: Executor, worker: Worker, log: Log)

  datatype Step =
    | Start
    | Receive(payload: DetectionJson.Payload)
    | Save(outcome: W.Outcome)
    | Route
    | Enqueue
    | NotifyOne
    | Reconfigure(batch: seq<Param>)
    | Commit
    | EnsureWorker
    | ConfigureWriter(opens: bool)
    | Stop
    | NotifyAll
    | Join
    | Test
    | Sleep
    | Wake                            // spurious
    | Copy(budget: int)
    | Attempt(ok: bool)

  predicate OfWorker(a: Step) {
    a.Test? || a.Sleep? || a.Wake? || a.Copy? || a.Attempt?
  }

  // ------------------------------------------------------------- building blocks

  /** The critical section of `enqueue_http`. */
  function Push<T>(queue: seq<T>, x: T): seq<T> {
    (if |queue| >= MAX_QUEUE then queue[1..] else queue) + [x]
  }

  /** `max(1, retry_count + 1)` in int64. At the largest retry count the sum
      overflows and only the lower bound is known. */
  predicate IsBudget(retryCount: Int64, budget: int) {
    if retryCount < INT64_MAX then budget == (if retryCount + 1 > 1 then retryCount + 1 else 1)
    else budget >= 1
  }

  function Woken(w: Worker): Worker {
    if w.Asleep? then Testing else w
  }

  predicate PostsNow(snap: Snapshot) {
    UsesHttp(snap.sendMode) && snap.urlValid
  }

  function Ids(entries: seq<Entry>): set<nat> {
    set e | e in entries :: e.id
  }

  function Bodies(entries: seq<Entry>): seq<string> {
    seq(|entries|, i requires 0 <= i < |entries| => entries[i].body)
  }

  function PayloadsOf(saved: seq<Saved>): seq<DetectionJson.Payload> {
    seq(|saved|, i requires 0 <= i < |saved| => saved[i].payload)
  }

  /** `ensure_http_worker_started`. */
  function Ensured(s: State, mode: string): State {
    if UsesHttp(mode) && s.worker.NotStarted?
    then s.(worker := Testing, log := s.log.(starts := s.log.starts + 1))
    else s
  }

  // ----------------------------------------------------------------- the steps

  predicate Enabled(s: State, a: Step) {
    match a
    case Start => s.exec.Starting?
    case Receive(_) => s.exec.Idle?
    case Save(_) => s.exec.Saving?
    case Route => s.exec.Routing?
    case Enqueue => s.exec.Enqueueing? && !s.worker.Deciding?
    case NotifyOne => s.exec.Notifying?
    case Reconfigure(_) => s.exec.Idle?
    case Commit => s.exec.Committing?
    case EnsureWorker => s.exec.EnsuringWorker?
    case ConfigureWriter(_) => s.exec.Configuring?
    case Stop => s.exec.Idle? && !s.worker.Deciding?
    case NotifyAll => s.exec.NotifyingAll?
    case Join => s.exec.Joining? && (s.worker.NotStarted? || s.worker.Exited?)
    case Test => s.worker.Testing?
    case Sleep => s.worker.Deciding?
    case Wake => s.worker.Asleep?
    case Copy(budget) => s.worker.Holding? && IsBudget(s.snapshot.retryCount, budget)
    case Attempt(_) => s.worker.Posting?
  }

  function SaveFrame(s: State, outcome: W.Outcome): State
    requires s.exec.Saving?
  {
    var p, snap := s.exec.payload, s.exec.snap;
    if !snap.saveResults then s.(exec := Routing(p, snap, None))
    else
      var (writer, files, ok) := W.Appended(s.writer, s.files, p, outcome);
      if ok then
        s.(writer := writer, files := files, exec := Routing(p, snap, Some(|s.log.saved|)),
           log := s.log.(saved := s.log.saved + [Saved(s.writer.path, p)]))
      else
        s.(writer := writer, files := files, exec := Routing(p, snap, None),
           log := s.log.(failures := s.log.failures + 1))
  }

  function RouteFrame(s: State): State
    requires s.exec.Routing?
  {
    var mode := s.exec.snap.sendMode;
    s.(exec := if UsesHttp(mode) then Enqueueing(DetectionJson.Serialized(s.exec.payload), s.exec.mark) else Idle,
       log := s.log.(published := s.log.published + if UsesTopic(mode) then [s.exec.payload] else []))
  }

  function EnqueueBody(s: State): State
    requires s.exec.Enqueueing?
  {
    var e := Entry(|s.log.offered|, s.exec.body);
    s.(queue := Push(s.queue, e), exec := Notifying,
       log := s.log.(offered := s.log.offered + [e], marks := s.log.marks + [s.exec.mark],
                     eras := s.log.eras + [|s.log.configs|],
                     dropped := s.log.dropped + if |s.queue| >= MAX_QUEUE then {s.queue[0].id} else {}))
  }

  function ConfigureTheWriter(s: State, opens: bool): State
    requires s.exec.Configuring?
  {
    var (writer, files, ok) :=
      W.Configured(s.files, W.Config(s.exec.cand.saveResults, s.exec.cand.outputPath), opens);
    s.(writer := writer, files := files, exec := Idle,
       log := s.log.(failures := s.log.failures + if ok then 0 else 1))
  }

  /** The worker's critical section up to the wait or the pop. */
  function TestPredicate(s: State): State {
    if s.stop then
      s.(queue := [], worker := Exited, log := s.log.(cleared := s.log.cleared + Ids(s.queue)))
    else if s.queue != [] then
      s.(queue := s.queue[1..], worker := Holding(s.queue[0]),
         log := s.log.(popped := s.log.popped + [s.queue[0].id]))
    else s.(worker := Deciding)
  }

  function CopySnapshot(s: State, budget: int): State
    requires s.worker.Holding?
  {
    if !PostsNow(s.snapshot) then
      s.(worker := Testing, log := s.log.(skipped := s.log.skipped + {s.worker.entry.id}))
    else s.(worker := Posting(s.worker.entry, s.snapshot, budget, 0))
  }

  function PostOnce(s: State, ok: bool): State
    requires s.worker.Posting?
  {
    var w := s.worker;
    var log := s.log.(wire := s.log.wire + [Post(w.entry.id, w.snap.url, w.entry.body, ok)]);
    if ok || w.tries + 1 >= w.budget then
      s.(worker := Testing, log := log.(finished := log.finished[w.entry.id := Job(w.snap, w.budget)]))
    else s.(worker := w.(tries := w.tries + 1), log := log)
  }

  function Do(s: State, a: Step): State
    requires Enabled(s, a)
  {
    match a
    case Start => Ensured(s, s.snapshot.sendMode).(exec := Idle)
    case Receive(p) => s.(exec := Saving(p, s.snapshot))
    case Save(outcome) => SaveFrame(s, outcome)
    case Route => RouteFrame(s)
    case Enqueue => EnqueueBody(s)
    case NotifyOne => s.(exec := Idle, worker := Woken(s.worker))
    case Reconfigure(batch) =>
      var cand := Candidate(s.snapshot, batch);
      if Fault(cand).None? then s.(exec := Committing(cand, WriterInputs(batch))) else s
    case Commit =>
      s.(snapshot := s.exec.cand, exec := EnsuringWorker(s.exec.cand, s.exec.writerInputs),
         log := s.log.(configs := s.log.configs + [s.exec.cand]))
    case EnsureWorker =>
      Ensured(s, s.exec.cand.sendMode).(exec := if s.exec.writerInputs then Configuring(s.exec.cand) else Idle)
    case ConfigureWriter(opens) => ConfigureTheWriter(s, opens)
    case Stop => s.(stop := true, exec := NotifyingAll)
    case NotifyAll => s.(exec := Joining, worker := Woken(s.worker))
    case Join => s.(exec := Destroyed)
    case Test => TestPredicate(s)
    case Sleep => s.(worker := Asleep)
    case Wake => s.(worker := Testing)
    case Copy(budget) => CopySnapshot(s, budget)
    case Attempt(ok) => PostOnce(s, ok)
  }

  /** The constructor up to its last statement: valid parameters, writer
      configured, no worker yet. */
  function Initial(snapshot: Snapshot, disk: W.Files, opens: bool): State {
    var (writer, files, ok) := W.Configured(disk, W.Config(snapshot.saveResults, snapshot.outputPath), opens);
    State(snapshot, [], false, writer, files, Starting, NotStarted,
          Log([], [], [], [], {}, {}, {}, map[], [], [], [], [snapshot], 0, if ok then 0 else 1, disk))
  }

  /** The state after a schedule of steps, if each was enabled in its turn. */
  function Run(s: State, steps: seq<Step>): Option<State> {
    if steps == [] then Some(s)
    else
      var n := |steps| - 1;
      match Run(s, steps[..n])
      case None => None
      case Some(t) => if Enabled(t, steps[n]) then Some(Do(t, steps[n])) else None
  }

  lemma RunThen(s: State, steps: seq<Step>, a: Step)
    requires Run(s, steps).Some? && Enabled(Run(s, steps).value, a)
    ensures Run(s, steps + [a]) == Some(Do(Run(s, steps).value, a))
  {
    hide Do, Enabled;
    assert (steps + [a])[..|steps|] == steps;
  }

  lemma {:induction false} RunConcat(s: State, first: seq<Step>, more: seq<Step>)
    requires Run(s, first).Some?
    ensures Run(s, first + more) == Run(Run(s, first).value, more)
  {
    hide Do, Enabled;
    if more == [] {
      assert first + more == first;
    } else {
      var n := |more| - 1;
      RunConcat(s, first, more[..n]);
      assert (first + more)[..|first| + n] == first + more[..n];
    }
  }

  lemma RunNothing(s: State)
    ensures Run(s, []) == Some(s)
  {
  }

  predicate Constructible(snapshot: Snapshot) {
    Valid(snapshot) && Coherent(snapshot)
  }

  ghost predicate Reachable(s: State) {
    exists snapshot, disk, opens, steps ::
      Constructible(snapshot) && Run(Initial(snapshot, disk, opens), steps) == Some(s)
  }
}
