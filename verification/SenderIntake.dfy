/** What the callbacks hand on, told from the schedule alone: the frames received
    under an HTTP mode are the bodies enqueued, those received with saving on are
    the payloads saved. */
module SenderIntake {
  import opened Prelude
  import opened SenderConfig
  import opened SenderProtocol
  import opened SenderSafety
  import opened SenderWire
  import SenderAudit
  import W = ResultWriter
  import DetectionJson

  predicate WantsHttp(snap: Snapshot) { snap.sendMode == "http" || snap.sendMode == "both" }

  predicate WantsTopic(snap: Snapshot) { snap.sendMode == "ros_topic" || snap.sendMode == "both" }

  predicate WantsSave(snap: Snapshot) { snap.saveResults }

  /** The payloads a schedule receives while the snapshot in force wants them. */
  function Wanted(s: State, steps: seq<Step>, want: Snapshot -> bool): seq<DetectionJson.Payload> {
    if steps == [] then []
    else
      var n := |steps| - 1;
      var before := Run(s, steps[..n]);
      Wanted(s, steps[..n], want)
      + if before.Some? && steps[n].Receive? && want(before.value.snapshot) then [steps[n].payload] else []
  }

  /** The body of the frame in hand, if one will be enqueued. */
  function BodyInHand(e: Executor): seq<string> {
    match e
    case Saving(p, snap) => if WantsHttp(snap) then [DetectionJson.Serialized(p)] else []
    case Routing(p, snap, _) => if WantsHttp(snap) then [DetectionJson.Serialized(p)] else []
    case Enqueueing(body, _) => [body]
    case _ => []
  }

  /** The frame in hand, if it is about to be saved. */
  function FrameInHand(e: Executor): seq<DetectionJson.Payload> {
    match e
    case Saving(p, snap) => if WantsSave(snap) then [p] else []
    case _ => []
  }

  /** The frame in hand, if it is about to be published. */
  function TopicInHand(e: Executor): seq<DetectionJson.Payload> {
    match e
    case Saving(p, snap) => if WantsTopic(snap) then [p] else []
    case Routing(p, snap, _) => if WantsTopic(snap) then [p] else []
    case _ => []
  }

  function NewTopic(s: State, a: Step): seq<DetectionJson.Payload> {
    if a.Receive? && WantsTopic(s.snapshot) then [a.payload] else []
  }

  function NewBody(s: State, a: Step): seq<string> {
    if a.Receive? && WantsHttp(s.snapshot) then [DetectionJson.Serialized(a.payload)] else []
  }

  function NewFrame(s: State, a: Step): seq<DetectionJson.Payload> {
    if a.Receive? && WantsSave(s.snapshot) then [a.payload] else []
  }

  lemma EnqueueHandsOn(s: State)
    requires s.exec.Enqueueing?
    ensures Bodies(EnqueueBody(s).log.offered) == Bodies(s.log.offered) + BodyInHand(s.exec)
  {
    hide Push;
  }

  lemma SaveHandsOn(s: State, outcome: W.Outcome)
    requires s.exec.Saving?
    ensures var t := SaveFrame(s, outcome);
            && t.log.offered == s.log.offered
            && BodyInHand(t.exec) == BodyInHand(s.exec)
            && (t.log.failures == 0 ==>
                  s.log.failures == 0 && PayloadsOf(t.log.saved) == PayloadsOf(s.log.saved) + FrameInHand(s.exec))
  {
    hide DetectionJson.Serialized, W.Appended, UsesHttp;
  }

  lemma OtherStepsHandOn(s: State, a: Step)
    requires Enabled(s, a) && !a.Save? && !a.Enqueue? && !OfWorker(a)
    ensures var t := Do(s, a);
            && t.log.offered == s.log.offered && t.log.saved == s.log.saved && t.log.failures >= s.log.failures
            && BodyInHand(t.exec) == BodyInHand(s.exec) + NewBody(s, a)
            && FrameInHand(t.exec) == FrameInHand(s.exec) + NewFrame(s, a)
  {
    hide DetectionJson.Serialized, W.Configured, Candidate, Fault, WriterInputs;
    hide SaveFrame, EnqueueBody, TestPredicate, CopySnapshot, PostOnce;
  }

  lemma StepEnqueues(s: State, a: Step)
    requires Enabled(s, a)
    ensures var t := Do(s, a);
            Bodies(t.log.offered) + BodyInHand(t.exec) == Bodies(s.log.offered) + BodyInHand(s.exec) + NewBody(s, a)
  {
    hide Bodies, DetectionJson.Serialized, SaveFrame, RouteFrame, ConfigureTheWriter;
    hide TestPredicate, CopySnapshot, PostOnce;
    match a
    case Save(outcome) => SaveHandsOn(s, outcome);
    case Enqueue => EnqueueHandsOn(s);
    case _ =>
      hide Do, Enabled, BodyInHand;
      if OfWorker(a) { WorkerFrame(s, a); } else { OtherStepsHandOn(s, a); }
  }

  lemma StepSaves(s: State, a: Step)
    requires Enabled(s, a)
    ensures var t := Do(s, a);
            t.log.failures == 0 ==>
              && s.log.failures == 0
              && PayloadsOf(t.log.saved) + FrameInHand(t.exec) ==
                 PayloadsOf(s.log.saved) + FrameInHand(s.exec) + NewFrame(s, a)
  {
    hide PayloadsOf, DetectionJson.Serialized, W.Appended, RouteFrame, ConfigureTheWriter, Push;
    hide TestPredicate, CopySnapshot, PostOnce;
    match a
    case Save(outcome) => SaveHandsOn(s, outcome);
    case Enqueue =>
    case _ =>
      hide Do, Enabled, FrameInHand;
      if OfWorker(a) { WorkerFrame(s, a); } else { OtherStepsHandOn(s, a); }
  }

  lemma RoutePublishes(s: State)
    requires s.exec.Routing?
    ensures RouteFrame(s).log.published + TopicInHand(RouteFrame(s).exec) == s.log.published + TopicInHand(s.exec)
  {
    hide DetectionJson.Serialized;
  }

  lemma SavePublishesNothing(s: State, outcome: W.Outcome)
    requires s.exec.Saving?
    ensures SaveFrame(s, outcome).log.published == s.log.published
    ensures TopicInHand(SaveFrame(s, outcome).exec) == TopicInHand(s.exec)
  {
    hide W.Appended, WantsTopic;
  }

  lemma OthersPublishNothing(s: State, a: Step)
    requires Enabled(s, a) && !OfWorker(a) && !a.Route? && !a.Save?
    ensures Do(s, a).log.published == s.log.published
    ensures TopicInHand(Do(s, a).exec) == TopicInHand(s.exec) + NewTopic(s, a)
  {
    hide W.Configured, Candidate, Fault, WriterInputs, Push, WantsTopic, UsesHttp;
    hide TestPredicate, CopySnapshot, PostOnce, SaveFrame, RouteFrame;
  }

  lemma CallbackPublishes(s: State, a: Step)
    requires Enabled(s, a) && !OfWorker(a)
    ensures var t := Do(s, a);
            t.log.published + TopicInHand(t.exec) == s.log.published + TopicInHand(s.exec) + NewTopic(s, a)
  {
    hide SaveFrame, RouteFrame, TopicInHand;
    match a
    case Route => RoutePublishes(s);
    case Save(outcome) => SavePublishesNothing(s, outcome);
    case _ =>
      hide Do, Enabled;
      OthersPublishNothing(s, a);
  }

  lemma StepPublishes(s: State, a: Step)
    requires Enabled(s, a)
    ensures var t := Do(s, a);
            t.log.published + TopicInHand(t.exec) == s.log.published + TopicInHand(s.exec) + NewTopic(s, a)
  {
    hide Do, Enabled, TopicInHand;
    if OfWorker(a) { WorkerFrame(s, a); } else { CallbackPublishes(s, a); }
  }

  lemma NothingYet()
    ensures Bodies([]) == [] && PayloadsOf([]) == []
    ensures BodyInHand(Starting) == [] && FrameInHand(Starting) == [] && TopicInHand(Starting) == []
  {
  }

  /** In every interleaving the bodies enqueued, and the one in hand, are exactly
      the frames received under the modes "http" and "both", serialized, once each
      and in order. */
  lemma {:induction false} HttpFramesAreEnqueued(s: State, steps: seq<Step>)
    requires s.exec.Starting? && s.log.offered == []
    requires Run(s, steps).Some?
    ensures var t := Run(s, steps).value;
            Bodies(t.log.offered) + BodyInHand(t.exec) == W.Texts(Wanted(s, steps, WantsHttp))
  {
    hide Do, Enabled, BodyInHand, Bodies, DetectionJson.Serialized;
    if steps == [] {
      NothingYet();
    } else {
      var n := |steps| - 1;
      HttpFramesAreEnqueued(s, steps[..n]);
      StepEnqueues(Run(s, steps[..n]).value, steps[n]);
    }
  }

  /** In every interleaving the frames published, and the one in hand, are exactly
      those received under the modes "ros_topic" and "both", in order. */
  lemma {:induction false} TopicFramesArePublished(s: State, steps: seq<Step>)
    requires s.exec.Starting? && s.log.published == []
    requires Run(s, steps).Some?
    ensures var t := Run(s, steps).value;
            t.log.published + TopicInHand(t.exec) == Wanted(s, steps, WantsTopic)
  {
    hide Do, Enabled, TopicInHand;
    if steps == [] {
      NothingYet();
    } else {
      var n := |steps| - 1;
      TopicFramesArePublished(s, steps[..n]);
      StepPublishes(Run(s, steps[..n]).value, steps[n]);
    }
  }

  /** In every interleaving without a failed write the payloads saved, and the one
      in hand, are exactly the frames received with saving on, whatever the mode. */
  lemma {:induction false} WantedFramesAreSaved(s: State, steps: seq<Step>)
    requires s.exec.Starting? && s.log.saved == []
    requires Run(s, steps).Some? && Run(s, steps).value.log.failures == 0
    ensures var t := Run(s, steps).value;
            PayloadsOf(t.log.saved) + FrameInHand(t.exec) == Wanted(s, steps, WantsSave)
  {
    hide Do, Enabled, FrameInHand, PayloadsOf;
    if steps == [] {
      NothingYet();
    } else {
      var n := |steps| - 1;
      StepSaves(Run(s, steps[..n]).value, steps[n]);
      WantedFramesAreSaved(s, steps[..n]);
    }
  }

  // ------------------------------------------------- from frames to the network

  lemma PickedByRank(frames: seq<Entry>, offered: seq<Entry>, more: seq<string>)
    requires forall i, j :: 0 <= i < j < |frames| ==> frames[i].id < frames[j].id
    requires forall i :: 0 <= i < |frames| ==>
               frames[i].id < |offered| && frames[i].body == offered[frames[i].id].body
    ensures Subsequence(Bodies(frames), Bodies(offered) + more)
  {
    var idx := seq(|frames|, i requires 0 <= i < |frames| => frames[i].id);
    assert Selects(idx, Bodies(frames), Bodies(offered) + more);
  }

  /** In every interleaving, whatever is lost on the way, the frames posted
      (retries collapsed) are a subsequence of the frames received under an HTTP
      mode, serialized: none is invented, repeated or reordered. */
  lemma PostedFramesWereReceived(snapshot: Snapshot, disk: W.Files, opens: bool, steps: seq<Step>)
    requires Constructible(snapshot) && Run(Initial(snapshot, disk, opens), steps).Some?
    ensures var s := Initial(snapshot, disk, opens);
            Subsequence(Bodies(SenderAudit.Frames(Run(s, steps).value.log.wire)), W.Texts(Wanted(s, steps, WantsHttp)))
  {
    hide Run, Wanted, W.Texts, Bodies, BodyInHand, Constructible, SenderAudit.Frames, Subsequence, Outcomes, JobDone;
    var s := Initial(snapshot, disk, opens);
    var t := Run(s, steps).value;
    HttpFramesAreEnqueued(s, steps);
    RunKeepsTraffic(snapshot, disk, opens, steps);
    hide Initial;
    forall k | 0 <= k < |t.log.wire|
      ensures t.log.wire[k].id < |t.log.offered| && t.log.wire[k].body == t.log.offered[t.log.wire[k].id].body
    {
      assert KnownPost(t, t.log.wire[k]);
    }
    SenderAudit.FramesInOrder(t.log.wire, t.log.offered);
    PickedByRank(SenderAudit.Frames(t.log.wire), t.log.offered, BodyInHand(t.exec));
  }
}
