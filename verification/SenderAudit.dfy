/** The HTTP stream and the result file belong to the same frames: what is
    posted is a subsequence of what is saved. */
module SenderAudit {
  import opened Prelude
  import opened SenderConfig
  import opened SenderProtocol
  import opened SenderSafety
  import opened SenderWire
  import HttpUrl
  import W = ResultWriter
  import DetectionJson

  // --------------------------------------------------- frames on the network

  /** The posted frames, retries of one frame collapsed. */
  function Frames(wire: seq<Post>): seq<Entry> {
    if wire == [] then []
    else
      var n := |wire| - 1;
      if n > 0 && wire[n - 1].id == wire[n].id then Frames(wire[..n])
      else Frames(wire[..n]) + [Entry(wire[n].id, wire[n].body)]
  }

  lemma {:induction false} LastFrame(wire: seq<Post>)
    requires wire != []
    ensures Frames(wire) != [] && Frames(wire)[|Frames(wire)| - 1].id == wire[|wire| - 1].id
  {
    var n := |wire| - 1;
    if n > 0 && wire[n - 1].id == wire[n].id { LastFrame(wire[..n]); }
  }

  lemma {:induction false} FramesIncrease(wire: seq<Post>)
    requires InOrder(wire)
    ensures forall i, j :: 0 <= i < j < |Frames(wire)| ==> Frames(wire)[i].id < Frames(wire)[j].id
  {
    if wire != [] {
      var n := |wire| - 1;
      FramesIncrease(wire[..n]);
      if n > 0 {
        LastFrame(wire[..n]);
        assert wire[n - 1].id <= wire[n].id;
      }
    }
  }

  lemma {:induction false} FramesCarryBodies(wire: seq<Post>, offered: seq<Entry>)
    requires forall k :: 0 <= k < |wire| ==> wire[k].id < |offered| && wire[k].body == offered[wire[k].id].body
    ensures forall i :: 0 <= i < |Frames(wire)| ==>
              Frames(wire)[i].id < |offered| && Frames(wire)[i].body == offered[Frames(wire)[i].id].body
  {
    if wire != [] { FramesCarryBodies(wire[..|wire| - 1], offered); }
  }

  lemma FramesInOrder(wire: seq<Post>, offered: seq<Entry>)
    requires InOrder(wire)
    requires forall k :: 0 <= k < |wire| ==> wire[k].id < |offered| && wire[k].body == offered[wire[k].id].body
    ensures forall i, j :: 0 <= i < j < |Frames(wire)| ==> Frames(wire)[i].id < Frames(wire)[j].id
    ensures forall i :: 0 <= i < |Frames(wire)| ==>
              Frames(wire)[i].id < |offered| && Frames(wire)[i].body == offered[Frames(wire)[i].id].body
  {
    hide Frames, InOrder;
    FramesIncrease(wire);
    FramesCarryBodies(wire, offered);
  }

  // --------------------------------------------------------- saved positions

  predicate MarkFits(saved: seq<Saved>, mark: Option<nat>, body: string) {
    mark.Some? ==> mark.value < |saved| && DetectionJson.Serialized(saved[mark.value].payload) == body
  }

  predicate Below(marks: seq<Option<nat>>, k: nat) {
    forall i :: 0 <= i < |marks| && marks[i].Some? ==> marks[i].value < k
  }

  /** A mark about to be recorded lies behind all recorded ones. */
  predicate Fresh(s: State, mark: Option<nat>, body: string) {
    MarkFits(s.log.saved, mark, body) && (mark.Some? ==> Below(s.log.marks, mark.value))
  }

  ghost predicate Marks(s: State) {
    && |s.log.marks| == |s.log.offered|
    && (forall i :: 0 <= i < |s.log.marks| ==> MarkFits(s.log.saved, s.log.marks[i], s.log.offered[i].body))
    && (forall i, j :: 0 <= i < j < |s.log.marks| && s.log.marks[i].Some? && s.log.marks[j].Some? ==>
          s.log.marks[i].value < s.log.marks[j].value)
    && (s.exec.Routing? ==> Fresh(s, s.exec.mark, DetectionJson.Serialized(s.exec.payload)))
    && (s.exec.Enqueueing? ==> Fresh(s, s.exec.mark, s.exec.body))
  }

  lemma MarkFitsGrows(saved: seq<Saved>, more: seq<Saved>, mark: Option<nat>, body: string)
    requires saved <= more && MarkFits(saved, mark, body)
    ensures MarkFits(more, mark, body)
  {
  }

  lemma MarksBelowSaved(s: State)
    requires Marks(s)
    ensures Below(s.log.marks, |s.log.saved|)
  {
    hide DetectionJson.Serialized;
    forall i | 0 <= i < |s.log.marks| && s.log.marks[i].Some? ensures s.log.marks[i].value < |s.log.saved| {
      assert MarkFits(s.log.saved, s.log.marks[i], s.log.offered[i].body);
    }
  }

  lemma SaveKeepsMarks(s: State, outcome: W.Outcome)
    requires Marks(s) && s.exec.Saving?
    ensures Marks(SaveFrame(s, outcome))
  {
    hide DetectionJson.Serialized, W.Appended;
    var t := SaveFrame(s, outcome);
    MarksBelowSaved(s);
    forall i | 0 <= i < |t.log.marks| ensures MarkFits(t.log.saved, t.log.marks[i], t.log.offered[i].body) {
      assert MarkFits(s.log.saved, s.log.marks[i], s.log.offered[i].body);
      MarkFitsGrows(s.log.saved, t.log.saved, t.log.marks[i], t.log.offered[i].body);
    }
  }

  lemma EnqueueKeepsMarks(s: State)
    requires Marks(s) && s.exec.Enqueueing?
    ensures Marks(EnqueueBody(s))
  {
    hide MarkFits, Push;
    var t := EnqueueBody(s);
    var n := |s.log.marks|;
    forall i | 0 <= i < |t.log.marks| ensures MarkFits(t.log.saved, t.log.marks[i], t.log.offered[i].body) {
      if i < n { assert MarkFits(s.log.saved, s.log.marks[i], s.log.offered[i].body); }
    }
  }

  lemma ComesToRouting(s: State, a: Step)
    requires Enabled(s, a) && !a.Save? && !a.Enqueue? && !OfWorker(a)
    ensures Do(s, a).exec.Routing? || Do(s, a).exec.Enqueueing? ==>
              Do(s, a).exec == s.exec
              || (s.exec.Routing? && Do(s, a).exec == Enqueueing(DetectionJson.Serialized(s.exec.payload), s.exec.mark))
  {
    hide W.Configured, Candidate, Fault, DetectionJson.Serialized, WriterInputs, UsesHttp;
    hide TestPredicate, CopySnapshot, PostOnce, EnqueueBody, SaveFrame;
  }

  lemma OtherStepsKeepSaved(s: State, a: Step)
    requires Enabled(s, a) && !a.Save? && !OfWorker(a)
    ensures Do(s, a).log.saved == s.log.saved
  {
    if !a.ConfigureWriter? {
      hide Do, Enabled;
      FileFrame(s, a);
    }
  }

  lemma OtherStepsKeepLogs(s: State, a: Step)
    requires Enabled(s, a) && !a.Save? && !a.Enqueue?
    ensures Do(s, a).log.marks == s.log.marks && Do(s, a).log.offered == s.log.offered
    ensures Do(s, a).log.saved == s.log.saved
    ensures Do(s, a).exec.Routing? || Do(s, a).exec.Enqueueing? ==>
              Do(s, a).exec == s.exec
              || (s.exec.Routing? && Do(s, a).exec == Enqueueing(DetectionJson.Serialized(s.exec.payload), s.exec.mark))
  {
    hide Do, Enabled;
    if OfWorker(a) {
      WorkerFrame(s, a);
    } else {
      QueueFrame(s, a);
      OtherStepsKeepSaved(s, a);
      ComesToRouting(s, a);
    }
  }

  lemma MarksKept(s: State, a: Step)
    requires Marks(s) && Enabled(s, a)
    ensures Marks(Do(s, a))
  {
    hide MarkFits, Below, DetectionJson.Serialized;
    match a
    case Save(outcome) => SaveKeepsMarks(s, outcome);
    case Enqueue => EnqueueKeepsMarks(s);
    case _ =>
      hide Do, Enabled;
      OtherStepsKeepLogs(s, a);
  }

  // ------------------------------------------------------- the writer in step

  function PayloadsAt(saved: seq<Saved>, path: string): seq<DetectionJson.Payload> {
    if saved == [] then []
    else
      var n := |saved| - 1;
      PayloadsAt(saved[..n], path) + if saved[n].path == path then [saved[n].payload] else []
  }

  predicate InStep(writer: W.Writer, snap: Snapshot) {
    writer.enabled == snap.saveResults && (writer.enabled ==> writer.path == snap.outputPath)
  }

  /** As long as no open and no append has failed, the writer follows the
      snapshot (except while the update is on its way), and each file is what it
      was plus one line per saved frame. */
  ghost predicate Faithful(s: State) {
    && W.FRESH_WRITER.Valid() && s.writer.Valid()
    && (s.log.failures == 0 ==>
          && (s.exec.Configuring? || (s.exec.EnsuringWorker? && s.exec.writerInputs) || InStep(s.writer, s.snapshot))
          && (s.exec.Committing? && !s.exec.writerInputs ==> SameSaving(s.exec.cand, s.snapshot))
          && forall path :: W.Content(s.files, path) ==
                            W.Content(s.log.disk, path) + W.Lines(PayloadsAt(s.log.saved, path)))
  }

  lemma {:induction false} UntouchedFile(s: Snapshot, batch: seq<Param>)
    requires !WriterInputs(batch)
    ensures SameSaving(Candidate(s, batch), s)
  {
    hide HttpUrl.ParseHttpUrl;
    if batch != [] {
      var n := |batch| - 1;
      assert !TouchesWriter(batch[n]);
      PrefixTouches(batch, n);
      UntouchedFile(s, batch[..n]);
    }
  }

  lemma PrefixTouches(batch: seq<Param>, n: nat)
    requires n <= |batch|
    ensures WriterInputs(batch[..n]) ==> WriterInputs(batch)
  {
    if WriterInputs(batch[..n]) {
      var i :| 0 <= i < n && TouchesWriter(batch[..n][i]);
      assert TouchesWriter(batch[i]);
    }
  }

  lemma SavedNext(saved: seq<Saved>, x: Saved, path: string)
    ensures W.Lines(PayloadsAt(saved + [x], path)) ==
            W.Lines(PayloadsAt(saved, path)) + if x.path == path then W.Line(x.payload) else ""
  {
    hide W.Line;
    assert (saved + [x])[..|saved|] == saved;
    var ps := PayloadsAt(saved, path);
    if x.path == path {
      assert (ps + [x.payload])[..|ps|] == ps;
    } else {
      assert ps + [] == ps && W.Lines(ps) + "" == W.Lines(ps);
    }
  }

  lemma AppendEffect(w: W.Writer, files: W.Files, p: DetectionJson.Payload, outcome: W.Outcome, path: string)
    requires w.Valid()
    ensures var (w', files', ok) := W.Appended(w, files, p, outcome);
            && (ok ==> w' == w && w.enabled &&
                       W.Content(files', path) == W.Content(files, path) + if w.path == path then W.Line(p) else "")
            && (!ok && !w.enabled ==> w' == w && files' == files)
  {
    hide W.Line, W.Torn;
  }

  lemma AppendKeepsValid(w: W.Writer, files: W.Files, p: DetectionJson.Payload, outcome: W.Outcome)
    requires w.Valid()
    ensures W.Appended(w, files, p, outcome).0.Valid()
  {
    hide W.Line, W.Torn;
  }

  lemma SaveKeepsFaith(s: State, outcome: W.Outcome)
    requires Faithful(s) && s.exec.Saving?
    ensures Faithful(SaveFrame(s, outcome))
  {
    hide W.Line, W.Content, W.Lines, PayloadsAt, W.Appended;
    var t := SaveFrame(s, outcome);
    AppendKeepsValid(s.writer, s.files, s.exec.payload, outcome);
    AppendEffect(s.writer, s.files, s.exec.payload, outcome, "");
    if t.log.failures == 0 {
      forall path ensures W.Content(t.files, path) ==
                          W.Content(t.log.disk, path) + W.Lines(PayloadsAt(t.log.saved, path))
      {
        AppendEffect(s.writer, s.files, s.exec.payload, outcome, path);
        if t.log.saved != s.log.saved {
          SavedNext(s.log.saved, Saved(s.writer.path, s.exec.payload), path);
          Assoc(W.Content(s.log.disk, path), W.Lines(PayloadsAt(s.log.saved, path)),
                    if s.writer.path == path then W.Line(s.exec.payload) else "");
        }
      }
    }
  }

  lemma ConfigureKeepsFaith(s: State, opens: bool)
    requires Faithful(s) && Control(s) && s.exec.Configuring?
    ensures Faithful(ConfigureTheWriter(s, opens))
  {
    hide W.Lines, PayloadsAt;
    var t := ConfigureTheWriter(s, opens);
    assert forall path :: W.Content(t.files, path) == W.Content(s.files, path);
  }

  lemma OtherStepsKeepFiles(s: State, a: Step)
    requires Enabled(s, a) && !a.Save? && !a.ConfigureWriter?
    ensures SameFiles(s, Do(s, a))
  {
    hide Do, Enabled;
    if OfWorker(a) { WorkerFrame(s, a); } else { FileFrame(s, a); }
  }

  lemma OtherStepsKeepStep(s: State, a: Step)
    requires Control(s) && Enabled(s, a) && !a.Save? && !a.ConfigureWriter?
    requires s.exec.Configuring? || (s.exec.EnsuringWorker? && s.exec.writerInputs) || InStep(s.writer, s.snapshot)
    requires s.exec.Committing? && !s.exec.writerInputs ==> SameSaving(s.exec.cand, s.snapshot)
    ensures var t := Do(s, a);
            && (t.exec.Configuring? || (t.exec.EnsuringWorker? && t.exec.writerInputs) || InStep(s.writer, t.snapshot))
            && (t.exec.Committing? && !t.exec.writerInputs ==> SameSaving(t.exec.cand, t.snapshot))
  {
    hide W.Configured, W.Appended, Candidate, Fault, DetectionJson.Serialized, WriterInputs, Push, PostsNow, IsBudget;
    hide NoLostWakeup, WorkerPresent;
    match a
    case Reconfigure(batch) => if !WriterInputs(batch) { UntouchedFile(s.snapshot, batch); }
    case _ =>
  }

  lemma FaithKept(s: State, a: Step)
    requires Faithful(s) && Control(s) && Enabled(s, a)
    ensures Faithful(Do(s, a))
  {
    hide Control, W.Content, W.Lines, PayloadsAt, InStep, SameSaving;
    match a
    case Save(outcome) => SaveKeepsFaith(s, outcome);
    case ConfigureWriter(opens) => ConfigureKeepsFaith(s, opens);
    case _ =>
      hide Do, Enabled;
      OtherStepsKeepFiles(s, a);
      if s.log.failures == 0 { OtherStepsKeepStep(s, a); }
  }

  // -------------------------------------------------------- saving all along

  /** Saving was on in every snapshot ever in force, and nothing failed. */
  predicate AlwaysSaving(log: Log) {
    log.failures == 0 && forall i :: 0 <= i < |log.configs| ==> log.configs[i].saveResults
  }

  predicate WasPath(configs: seq<Snapshot>, path: string) {
    exists i :: 0 <= i < |configs| && configs[i].outputPath == path
  }

  ghost predicate Complete(s: State) {
    AlwaysSaving(s.log) ==>
      && (forall i :: 0 <= i < |s.log.marks| ==> s.log.marks[i].Some?)
      && (s.exec.Routing? || s.exec.Enqueueing? ==> s.exec.mark.Some?)
      && (forall k :: 0 <= k < |s.log.saved| ==> WasPath(s.log.configs, s.log.saved[k].path))
  }

  /** The writer is open at the path in force. */
  lemma WriterStands(s: State)
    requires Faithful(s) && s.exec.Saving? && s.log.failures == 0 && s.snapshot.saveResults
    ensures s.writer.Valid() && s.writer.enabled && s.writer.path == s.snapshot.outputPath
  {
    hide W.Content, W.Lines, PayloadsAt;
  }

  /** Saving into an open file without a failure records the frame there. */
  lemma SaveRecords(s: State, outcome: W.Outcome)
    requires s.exec.Saving? && s.exec.snap.saveResults && s.writer.Valid() && s.writer.enabled
    requires SaveFrame(s, outcome).log.failures == s.log.failures
    ensures var t := SaveFrame(s, outcome);
            && t.log.marks == s.log.marks && t.log.configs == s.log.configs
            && t.exec.Routing? && t.exec.mark.Some?
            && t.log.saved == s.log.saved + [Saved(s.writer.path, s.exec.payload)]
  {
    hide W.Content, W.Line, W.Torn;
  }

  lemma SaveKeepsConfigs(s: State, outcome: W.Outcome)
    requires s.exec.Saving?
    ensures SaveFrame(s, outcome).log.configs == s.log.configs && SaveFrame(s, outcome).log.failures >= s.log.failures
  {
    hide W.Appended;
  }

  lemma SaveIsComplete(s: State, outcome: W.Outcome)
    requires Complete(s) && Faithful(s) && Settings(s) && s.exec.Saving? && s.exec.snap == s.snapshot
    ensures Complete(SaveFrame(s, outcome))
  {
    hide Faithful, SaveFrame, Constructible, PostsNow, WasPath;
    var t := SaveFrame(s, outcome);
    SaveKeepsConfigs(s, outcome);
    if AlwaysSaving(t.log) {
      var n := |s.log.configs| - 1;
      assert AlwaysSaving(s.log) && s.log.configs[n].saveResults;
      LastPath(s.log.configs);
      WriterStands(s);
      SaveRecords(s, outcome);
    }
  }

  lemma LastPath(configs: seq<Snapshot>)
    requires configs != []
    ensures WasPath(configs, configs[|configs| - 1].outputPath)
  {
  }

  lemma EnqueueIsComplete(s: State)
    requires Complete(s) && s.exec.Enqueueing?
    ensures Complete(EnqueueBody(s))
  {
    hide Push, WasPath;
    var t := EnqueueBody(s);
    if AlwaysSaving(t.log) { assert AlwaysSaving(s.log); }
  }

  lemma ConfigsGrow(s: State, a: Step)
    requires Enabled(s, a)
    ensures s.log.configs <= Do(s, a).log.configs && s.log.failures <= Do(s, a).log.failures
  {
    hide Do, Enabled;
    if OfWorker(a) { WorkerFrame(s, a); } else { ExecutorFrame(s, a); }
  }

  lemma AlwaysSavingBefore(s: State, a: Step)
    requires Enabled(s, a) && AlwaysSaving(Do(s, a).log)
    ensures AlwaysSaving(s.log)
  {
    hide Do, Enabled;
    ConfigsGrow(s, a);
    assert forall i :: 0 <= i < |s.log.configs| ==> s.log.configs[i] == Do(s, a).log.configs[i];
  }

  lemma WasPathGrows(configs: seq<Snapshot>, more: seq<Snapshot>, path: string)
    requires configs <= more && WasPath(configs, path)
    ensures WasPath(more, path)
  {
    var i :| 0 <= i < |configs| && configs[i].outputPath == path;
    assert more[i] == configs[i];
  }

  lemma OtherStepsAreComplete(s: State, a: Step)
    requires Complete(s) && Enabled(s, a) && !a.Save? && !a.Enqueue?
    ensures Complete(Do(s, a))
  {
    hide AlwaysSaving, WasPath, Do, Enabled;
    OtherStepsKeepLogs(s, a);
    if AlwaysSaving(Do(s, a).log) {
      AlwaysSavingBefore(s, a);
      ConfigsGrow(s, a);
      forall k | 0 <= k < |s.log.saved| ensures WasPath(Do(s, a).log.configs, s.log.saved[k].path) {
        WasPathGrows(s.log.configs, Do(s, a).log.configs, s.log.saved[k].path);
      }
    }
  }

  lemma SavesUnderSnapshot(s: State)
    requires Control(s) && s.exec.Saving?
    ensures s.exec.snap == s.snapshot
  {
    hide NoLostWakeup, WorkerPresent;
  }

  lemma CompleteKept(s: State, a: Step)
    requires Complete(s) && Faithful(s) && Control(s) && Settings(s) && Enabled(s, a)
    ensures Complete(Do(s, a))
  {
    hide Settings, Faithful, Complete, Control, SaveFrame, EnqueueBody;
    match a
    case Save(outcome) =>
      SavesUnderSnapshot(s);
      SaveIsComplete(s, outcome);
    case Enqueue => EnqueueIsComplete(s);
    case _ => OtherStepsAreComplete(s, a);
  }

  // --------------------------------------------------- every reachable state

  lemma AuditStart(snapshot: Snapshot, disk: W.Files, opens: bool)
    ensures var s := Initial(snapshot, disk, opens); Marks(s) && Faithful(s) && Complete(s)
  {
    hide DetectionJson.Serialized, W.Line;
    var s := Initial(snapshot, disk, opens);
    forall q ensures W.Content(s.files, q) == W.Content(disk, q) + W.Lines(PayloadsAt([], q)) {}
  }

  lemma {:induction false} RunKeepsAudit(snapshot: Snapshot, disk: W.Files, opens: bool, steps: seq<Step>)
    requires Constructible(snapshot) && Run(Initial(snapshot, disk, opens), steps).Some?
    ensures var s := Run(Initial(snapshot, disk, opens), steps).value; Marks(s) && Faithful(s) && Complete(s)
  {
    hide Marks, Faithful, Complete, Control, Settings, History, Apart, Eras, Do, Enabled, Initial, Constructible;
    if steps == [] {
      AuditStart(snapshot, disk, opens);
    } else {
      var n := |steps| - 1;
      RunKeepsAudit(snapshot, disk, opens, steps[..n]);
      RunKeeps(snapshot, disk, opens, steps[..n]);
      var s := Run(Initial(snapshot, disk, opens), steps[..n]).value;
      MarksKept(s, steps[n]);
      FaithKept(s, steps[n]);
      CompleteKept(s, steps[n]);
    }
  }

  lemma ReachableAudit(s: State)
    requires Reachable(s)
    ensures Marks(s) && Faithful(s) && Complete(s)
  {
    hide Marks, Faithful, Complete, Run, Initial, Constructible;
    var snapshot, disk, opens, steps :|
      Constructible(snapshot) && Run(Initial(snapshot, disk, opens), steps) == Some(s);
    RunKeepsAudit(snapshot, disk, opens, steps);
  }

  // ------------------------------------------------------------- main results

  /** The positions of the posted frames among the saved ones. */
  function Positions(marks: seq<Option<nat>>, frames: seq<Entry>): seq<nat>
    requires forall i :: 0 <= i < |frames| ==> frames[i].id < |marks| && marks[frames[i].id].Some?
  {
    seq(|frames|, i requires 0 <= i < |frames| => marks[frames[i].id].value)
  }

  lemma PostedPositions(s: State)
    requires Marks(s) && Complete(s) && Traffic(s) && AlwaysSaving(s.log)
    ensures var lines := W.Texts(PayloadsOf(s.log.saved)); var frames := Frames(s.log.wire);
            (forall i :: 0 <= i < |frames| ==> frames[i].id < |s.log.marks| && s.log.marks[frames[i].id].Some?)
            && Selects(Positions(s.log.marks, frames), Bodies(frames), lines)
  {
    hide DetectionJson.Serialized, Outcomes, JobDone, CurrentJob, AlwaysSaving, WasPath;
    forall k | 0 <= k < |s.log.wire|
      ensures s.log.wire[k].id < |s.log.offered| && s.log.wire[k].body == s.log.offered[s.log.wire[k].id].body
    {
      assert KnownPost(s, s.log.wire[k]);
    }
    FramesInOrder(s.log.wire, s.log.offered);
    var frames := Frames(s.log.wire);
    forall i | 0 <= i < |frames|
      ensures MarkFits(s.log.saved, s.log.marks[frames[i].id], frames[i].body)
    {
      assert MarkFits(s.log.saved, s.log.marks[frames[i].id], s.log.offered[frames[i].id].body);
    }
  }

  /** With saving on for the whole run and nothing failed, each file is its former
      content and one line per frame saved to it, and the frames posted (retries
      collapsed) are a subsequence of the frames saved, byte for byte and in order,
      whatever changes of mode and of path, overflows and skips happened. */
  lemma PostedFramesAreSaved(s: State)
    requires Reachable(s) && AlwaysSaving(s.log)
    ensures forall path :: W.Content(s.files, path) ==
                           W.Content(s.log.disk, path) + W.Lines(PayloadsAt(s.log.saved, path))
    ensures Subsequence(Bodies(Frames(s.log.wire)), W.Texts(PayloadsOf(s.log.saved)))
  {
    hide Marks, Complete, Traffic, W.Content, W.Lines, Frames, PayloadsAt, Positions, PayloadsOf;
    ReachableAudit(s);
    ReachableTraffic(s);
    PostedPositions(s);
  }

  lemma {:induction false} AllAtPath(saved: seq<Saved>, path: string)
    requires forall k :: 0 <= k < |saved| ==> saved[k].path == path
    ensures PayloadsAt(saved, path) == PayloadsOf(saved)
  {
    if saved != [] {
      var n := |saved| - 1;
      AllAtPath(saved[..n], path);
      assert PayloadsOf(saved) == PayloadsOf(saved[..n]) + [saved[n].payload];
    }
  }

  predicate OnePath(configs: seq<Snapshot>, path: string) {
    forall i :: 0 <= i < |configs| ==> configs[i].outputPath == path
  }

  lemma SavedAtPath(s: State, path: string)
    requires Complete(s) && AlwaysSaving(s.log) && OnePath(s.log.configs, path)
    ensures PayloadsAt(s.log.saved, path) == PayloadsOf(s.log.saved)
  {
    hide PayloadsAt, PayloadsOf;
    AllAtPath(s.log.saved, path);
  }

  /** When the path never changed, the file that was empty or ended in a line feed
      yields, read back at its line feeds, exactly those lines. */
  lemma PostedFramesAreLines(s: State, path: string)
    requires Reachable(s) && AlwaysSaving(s.log) && OnePath(s.log.configs, path)
    requires W.Split(W.Content(s.log.disk, path)).1 == ""
    ensures var former := W.Split(W.Content(s.log.disk, path)).0;
            var now := W.Split(W.Content(s.files, path)).0;
            former <= now && Subsequence(Bodies(Frames(s.log.wire)), now[|former|..])
  {
    hide Reachable, W.Content, W.Lines, Frames, PayloadsAt, PayloadsOf, W.Split, W.Texts, Bodies;
    hide Subsequence, AlwaysSaving, Complete, Marks, Faithful, OnePath;
    PostedFramesAreSaved(s);
    ReachableAudit(s);
    SavedAtPath(s, path);
    var ps := PayloadsAt(s.log.saved, path);
    W.SplitLines(W.Content(s.log.disk, path), ps);
    if ps == [] {
      W.NoTexts();
      assert W.Split(W.Content(s.files, path)).0[|W.Split(W.Content(s.log.disk, path)).0|..] == [];
    } else {
      W.FragmentShows(W.Split(W.Content(s.log.disk, path)).0, "", ps);
      var former := W.Split(W.Content(s.log.disk, path)).0;
      assert (former + W.Texts(ps))[|former|..] == W.Texts(ps);
    }
  }
}
