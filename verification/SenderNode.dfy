/** The sender node as an object: its critical sections and callbacks over its
    fields. Every method takes the protocol state its object stands for and is
    shown to take the object to where the protocol's steps take that state. */
module SenderNode {
  import opened Prelude
  import opened SenderConfig
  import P = SenderProtocol
  import SenderWire
  import W = ResultWriter
  import DetectionJson

  /** What the worker finds in its critical section. */
  datatype Found = Exit | Wait | Body(body: string)

  /** The worker's new program counter, as far as the object can tell. */
  predicate Shows(found: Found, w: P.Worker) {
    match found
    case Exit => w.Exited?
    case Wait => w.Deciding?
    case Body(body) => w.Holding? && w.entry.body == body
  }

  /** `max(1, retry_count + 1)`; at the largest int64 the sum is whatever the
      overflow leaves. */
  function TotalAttempts(retryCount: Int64, overflowed: Int64): (total: int)
    ensures P.IsBudget(retryCount, total)
  {
    var sum := if retryCount < INT64_MAX then retryCount + 1 else overflowed;
    if sum > 1 then sum else 1
  }

  // ------------------------------------------------ the steps of whole callbacks

  function FrameSteps(payload: DetectionJson.Payload, outcome: W.Outcome, http: bool): seq<P.Step> {
    [P.Receive(payload), P.Save(outcome), P.Route] + if http then [P.Enqueue, P.NotifyOne] else []
  }

  function ChangeSteps(batch: seq<Param>, opens: bool, accepted: bool): seq<P.Step> {
    if !accepted then [P.Reconfigure(batch)]
    else
      [P.Reconfigure(batch), P.Commit, P.EnsureWorker] +
      if WriterInputs(batch) then [P.ConfigureWriter(opens)] else []
  }

  function AttemptSteps(results: seq<bool>): seq<P.Step> {
    seq(|results|, i requires 0 <= i < |results| => P.Attempt(results[i]))
  }

  lemma AttemptsNext(results: seq<bool>, ok: bool)
    ensures AttemptSteps(results + [ok]) == AttemptSteps(results) + [P.Attempt(ok)]
  {
  }

  class DetectionSender {
    var queue: seq<string>
    var stopFlag: bool
    var workerJoinable: bool
    const config: Configuration
    const writer: W.DetectionResultWriter

    /** The object holds the state `s`, without its tags, its history and the two
        program counters, of which it shows only whether a worker was started. */
    ghost predicate Represents(s: P.State)
      reads this, config, writer, writer.disk
    {
      && queue == P.Bodies(s.queue) && stopFlag == s.stop && workerJoinable == !s.worker.NotStarted?
      && config.snapshot == s.snapshot && writer.Fields() == s.writer && writer.disk.files == s.files
    }

    /** The node's constructor behind `enforce_initial_parameters`. */
    constructor (config: Configuration, writer: W.DetectionResultWriter, opens: bool)
      modifies writer, writer.disk
      ensures this.config == config && this.writer == writer && config.snapshot == old(config.snapshot)
      ensures var s := P.Initial(config.snapshot, old(writer.disk.files), opens);
              P.Enabled(s, P.Start) && Represents(P.Do(s, P.Start))
    {
      queue, stopFlag, workerJoinable := [], false, false;
      this.config, this.writer := config, writer;
      new;
      ghost var s := P.Initial(config.snapshot, writer.disk.files, opens);
      ApplyWriterConfig(opens);
      assert Represents(s);
      var _ := EnsureHttpWorkerStarted(config.snapshot.sendMode, s);
    }

    /** Opens, switches or closes the file as the snapshot says. */
    method ApplyWriterConfig(opens: bool)
      modifies writer, writer.disk
      ensures var wanted := W.Config(config.snapshot.saveResults, config.snapshot.outputPath);
              var (w, files, _) := W.Configured(old(writer.disk.files), wanted, opens);
              writer.Fields() == w && writer.disk.files == files
      ensures config.snapshot == old(config.snapshot)
    {
      var _ := writer.Configure(W.Config(config.snapshot.saveResults, config.snapshot.outputPath), opens);
    }

    /** Starts the worker unless it runs or is not needed. */
    method EnsureHttpWorkerStarted(mode: string, ghost s: P.State) returns (started: bool)
      requires Represents(s)
      modifies this`workerJoinable
      ensures Represents(P.Ensured(s, mode))
      ensures P.Ensured(s, mode).log.starts == s.log.starts + if started then 1 else 0
    {
      if !UsesHttp(mode) || workerJoinable {
        return false;
      }
      workerJoinable := true;
      return true;
    }

    /** The critical section of `enqueue_http`. */
    method EnqueueHttp(body: string, ghost s: P.State)
      requires Represents(s) && P.Enabled(s, P.Enqueue) && s.exec.body == body
      modifies this`queue
      ensures Represents(P.Do(s, P.Enqueue))
    {
      EnqueueErases(s);
      if |queue| >= P.MAX_QUEUE {
        queue := queue[1..];
      }
      queue := queue + [body];
    }

    /** `on_detections`, when no step of the worker comes in between: save whatever
        the mode, then publish, then enqueue. */
    method OnDetections(payload: DetectionJson.Payload, outcome: W.Outcome, ghost s: P.State) returns (published: bool)
      requires Represents(s) && s.exec.Idle? && !s.worker.Deciding?
      modifies this`queue, writer, writer.disk
      ensures var t := P.Run(s, FrameSteps(payload, outcome, UsesHttp(s.snapshot.sendMode)));
              && t.Some? && t.value.exec.Idle? && Represents(t.value)
              && t.value.log.published == s.log.published + if published then [payload] else []
    {
      hide P.Run, P.Do, P.Enabled, DetectionJson.Serialized, UsesHttp, UsesTopic, FrameSteps;
      var snap := config.snapshot;
      ghost var saved, ready := FrameRuns(s, payload, outcome);
      if snap.saveResults {
        var _ := writer.Append(payload, outcome);
      }
      assert Represents(saved) && Represents(ready);
      if snap.sendMode == "disabled" {
        DisabledUsesNothing();
        return false;
      }
      published := UsesTopic(snap.sendMode);
      if UsesHttp(snap.sendMode) {
        var body := DetectionJson.SerializeDetections(payload);
        EnqueueIsEnabled(ready);
        HandOver(s, ready, payload, outcome);
        EnqueueHttp(body, ready);
        ThenNotify(ready);
      }
    }

    /** `on_parameter_change`: nothing for a rejected batch, else the new snapshot,
        a worker if it needs one, and the writer if its inputs were given. */
    method OnParameterChange(batch: seq<Param>, opens: bool, ghost s: P.State) returns (fault: Option<Rejection>)
      requires Represents(s) && s.exec.Idle?
      modifies this`workerJoinable, config, writer, writer.disk
      ensures fault == Fault(Candidate(s.snapshot, batch))
      ensures var t := P.Run(s, ChangeSteps(batch, opens, fault.None?));
              t.Some? && t.value.exec.Idle? && Represents(t.value)
    {
      hide P.Run, P.Do, P.Enabled, Candidate, Fault, WriterInputs, UsesHttp, ChangeSteps, W.Configured;
      var writerInputsChanged;
      fault, writerInputsChanged := config.OnParameterChange(batch);
      if fault.Some? {
        RejectedRuns(s, batch, opens);
        return;
      }
      ghost var swapped, t := AcceptedRuns(s, batch, opens);
      assert Represents(swapped);
      var _ := EnsureHttpWorkerStarted(config.snapshot.sendMode, swapped);
      if writerInputsChanged {
        ApplyWriterConfig(opens);
      }
      assert Represents(t);
    }

    /** The worker's critical section: the wait predicate, then exit or pop. */
    method TakeNext(ghost s: P.State) returns (found: Found)
      requires Represents(s) && P.Enabled(s, P.Test)
      modifies this`queue
      ensures Represents(P.Do(s, P.Test)) && Shows(found, P.Do(s, P.Test).worker)
    {
      if s.queue != [] { TestErases(s); }
      if !(stopFlag || queue != []) {
        return Wait;
      }
      if stopFlag {
        queue := [];
        return Exit;
      }
      found := Body(queue[0]);
      queue := queue[1..];
    }

    /** What the worker does with a popped body: copy the snapshot, skip without an
        HTTP mode, else attempt up to the first success. `answer(i)` is the result
        of attempt `i`. */
    method ProcessBody(body: string, overflowed: Int64, answer: nat -> bool, ghost s: P.State)
      returns (results: seq<bool>)
      requires Represents(s) && s.worker.Holding? && s.worker.entry.body == body
      ensures var total := TotalAttempts(s.snapshot.retryCount, overflowed);
              var t := P.Run(s, [P.Copy(total)] + AttemptSteps(results));
              && t.Some? && t.value.worker.Testing? && Represents(t.value)
              && (if P.PostsNow(s.snapshot) then SenderWire.Settled(results, total) else results == [])
      ensures forall i :: 0 <= i < |results| ==> results[i] == answer(i)
    {
      hide P.Run, P.Do, P.Enabled, P.IsBudget, P.PostsNow, TotalAttempts;
      var snap := config.snapshot;
      var total := TotalAttempts(snap.retryCount, overflowed);
      results := [];
      CopyStep(s, total);
      ghost var t := P.Do(s, P.Copy(total));
      P.RunNothing(s);
      P.RunThen(s, [], P.Copy(total));
      assert [] + [P.Copy(total)] == [P.Copy(total)] + AttemptSteps([]);
      if !P.PostsNow(snap) {
        return;
      }
      var i := 0;
      while i < total
        invariant 0 <= i <= total && |results| == i && SenderWire.AllFailed(results)
        invariant P.Run(s, [P.Copy(total)] + AttemptSteps(results)) == Some(t) && Represents(t)
        invariant if i < total then t.worker == P.Posting(s.worker.entry, snap, total, i) else t.worker.Testing?
        invariant forall k :: 0 <= k < |results| ==> results[k] == answer(k)
      {
        var ok := answer(i);
        AttemptStep(t, ok);
        P.RunThen(s, [P.Copy(total)] + AttemptSteps(results), P.Attempt(ok));
        AttemptsNext(results, ok);
        assert ([P.Copy(total)] + AttemptSteps(results)) + [P.Attempt(ok)] ==
               [P.Copy(total)] + AttemptSteps(results + [ok]);
        t := P.Do(t, P.Attempt(ok));
        results := results + [ok];
        if ok {
          break;
        }
        i := i + 1;
      }
    }

    /** The destructor's critical section. */
    method RequestStop(ghost s: P.State)
      requires Represents(s) && P.Enabled(s, P.Stop)
      modifies this`stopFlag
      ensures Represents(P.Do(s, P.Stop))
    {
      stopFlag := true;
    }
  }

  // ---------------------------------------------------------- about the protocol

  lemma EnqueueErases(s: P.State)
    requires s.exec.Enqueueing?
    ensures P.Bodies(P.EnqueueBody(s).queue) == P.Push(P.Bodies(s.queue), s.exec.body)
  {
  }

  lemma CopyStep(s: P.State, total: int)
    requires s.worker.Holding? && P.IsBudget(s.snapshot.retryCount, total)
    ensures P.Enabled(s, P.Copy(total)) && total >= 1
    ensures var t := P.Do(s, P.Copy(total));
            && t == s.(worker := t.worker, log := t.log)
            && t.worker == if P.PostsNow(s.snapshot) then P.Posting(s.worker.entry, s.snapshot, total, 0) else P.Testing
  {
    hide P.PostsNow;
  }

  lemma AttemptStep(s: P.State, ok: bool)
    requires s.worker.Posting?
    ensures P.Enabled(s, P.Attempt(ok))
    ensures var t := P.Do(s, P.Attempt(ok)); var w := s.worker;
            && t == s.(worker := t.worker, log := t.log)
            && t.worker == if ok || w.tries + 1 >= w.budget then P.Testing else w.(tries := w.tries + 1)
  {
  }

  lemma DisabledUsesNothing()
    ensures !UsesHttp("disabled") && !UsesTopic("disabled")
  {
  }

  lemma EnqueueIsEnabled(s: P.State)
    requires s.exec.Enqueueing? && !s.worker.Deciding?
    ensures P.Enabled(s, P.Enqueue)
  {
  }

  lemma ThenNotify(s: P.State)
    requires P.Enabled(s, P.Enqueue)
    ensures var s' := P.Do(s, P.Enqueue); var t := P.Do(s', P.NotifyOne);
            && t == s'.(exec := P.Idle, worker := t.worker) && (t.worker.NotStarted? <==> s'.worker.NotStarted?)
            && t.log.published == s.log.published
  {
    hide P.Push;
  }

  lemma TestErases(s: P.State)
    requires s.queue != []
    ensures P.Bodies(s.queue[1..]) == P.Bodies(s.queue)[1..] && s.queue[0].body == P.Bodies(s.queue)[0]
  {
  }

  /** The state behind the save, and what is left to do from there. */
  lemma FrameRuns(s: P.State, payload: DetectionJson.Payload, outcome: W.Outcome)
    returns (saved: P.State, ready: P.State)
    requires s.exec.Idle? && !s.worker.Deciding?
    ensures saved == P.SaveFrame(s.(exec := P.Saving(payload, s.snapshot)), outcome)
    ensures var http := UsesHttp(s.snapshot.sendMode);
            && ready == saved.(exec := ready.exec, log := ready.log)
            && ready.log.published == s.log.published + (if UsesTopic(s.snapshot.sendMode) then [payload] else [])
            && (if http then ready.exec.Enqueueing? && ready.exec.body == DetectionJson.Serialized(payload)
                else ready.exec.Idle?)
            && P.Run(s, FrameSteps(payload, outcome, false)) == Some(ready)
  {
    hide P.Run, W.Appended, DetectionJson.Serialized, UsesHttp;
    var steps := FrameSteps(payload, outcome, false);
    P.RunNothing(s);
    P.RunThen(s, [], steps[0]);
    assert [] + [steps[0]] == steps[..1];
    P.RunThen(s, steps[..1], steps[1]);
    assert steps[..1] + [steps[1]] == steps[..2];
    saved := P.Do(P.Do(s, steps[0]), steps[1]);
    P.RunThen(s, steps[..2], steps[2]);
    assert steps[..2] + [steps[2]] == steps;
    ready := P.Do(saved, P.Route);
  }

  lemma HandOver(s: P.State, ready: P.State, payload: DetectionJson.Payload, outcome: W.Outcome)
    requires P.Run(s, FrameSteps(payload, outcome, false)) == Some(ready) && P.Enabled(ready, P.Enqueue)
    ensures P.Run(s, FrameSteps(payload, outcome, true)) == Some(P.Do(P.Do(ready, P.Enqueue), P.NotifyOne))
  {
    hide P.Run, DetectionJson.Serialized, P.Push;
    var steps := FrameSteps(payload, outcome, true);
    assert steps[..3] == FrameSteps(payload, outcome, false);
    P.RunThen(s, steps[..3], steps[3]);
    assert steps[..3] + [steps[3]] == steps[..4];
    P.RunThen(s, steps[..4], steps[4]);
    assert steps[..4] + [steps[4]] == steps;
  }

  lemma RejectedRuns(s: P.State, batch: seq<Param>, opens: bool)
    requires s.exec.Idle? && Fault(Candidate(s.snapshot, batch)).Some?
    ensures P.Run(s, ChangeSteps(batch, opens, false)) == Some(s)
  {
    hide P.Run, Candidate, Fault, WriterInputs;
    P.RunNothing(s);
    P.RunThen(s, [], P.Reconfigure(batch));
    assert [] + [P.Reconfigure(batch)] == [P.Reconfigure(batch)];
  }

  /** The state behind the swap of the snapshot, and the final one. */
  lemma AcceptedRuns(s: P.State, batch: seq<Param>, opens: bool) returns (swapped: P.State, t: P.State)
    requires s.exec.Idle? && Fault(Candidate(s.snapshot, batch)).None?
    ensures swapped == s.(snapshot := Candidate(s.snapshot, batch), exec := swapped.exec, log := swapped.log)
    ensures var started := P.Ensured(swapped, swapped.snapshot.sendMode);
            t == if WriterInputs(batch)
                 then P.ConfigureTheWriter(started.(exec := P.Configuring(swapped.snapshot)), opens)
                 else started.(exec := P.Idle)
    ensures P.Run(s, ChangeSteps(batch, opens, true)) == Some(t)
  {
    hide P.Run, W.Configured, Candidate, Fault, WriterInputs, UsesHttp;
    var steps := ChangeSteps(batch, opens, true);
    P.RunNothing(s);
    P.RunThen(s, [], steps[0]);
    assert [] + [steps[0]] == steps[..1];
    P.RunThen(s, steps[..1], steps[1]);
    assert steps[..1] + [steps[1]] == steps[..2];
    swapped := P.Do(P.Do(s, steps[0]), steps[1]);
    P.RunThen(s, steps[..2], steps[2]);
    assert steps[..2] + [steps[2]] == steps[..3];
    t := P.Do(swapped, steps[2]);
    if WriterInputs(batch) {
      P.RunThen(s, steps[..3], steps[3]);
      assert steps[..3] + [steps[3]] == steps;
      t := P.Do(t, steps[3]);
    } else {
      assert steps[..3] == steps;
    }
  }
}
