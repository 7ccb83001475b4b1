/** The configuration snapshot of `detection_sender_node.cpp` and its
    transactional update by a batch of parameters. */
module SenderConfig {
  import opened Prelude
  import HttpUrl

  datatype Snapshot = Snapshot(
    sendMode: string, endpoint: string, url: HttpUrl.Url, urlValid: bool,
    timeoutMs: Int64, retryCount: Int64, authType: string,
    saveResults: bool, outputPath: string, outputFormat: string)

  predicate KnownMode(mode: string) {
    mode == "disabled" || mode == "ros_topic" || mode == "http" || mode == "both"
  }

  predicate UsesTopic(mode: string) {
    mode == "ros_topic" || mode == "both"
  }

  predicate UsesHttp(mode: string) {
    mode == "http" || mode == "both"
  }

  /** Typed entries of a parameter batch; ROS checks the types beforehand. */
  datatype Param =
    | SendMode(mode: string)
    | Endpoint(url: string)
    | TimeoutMs(ms: Int64)
    | RetryCount(count: Int64)
    | AuthType(auth: string)
    | SaveResults(on: bool)
    | OutputPath(path: string)
    | OutputFormat(format: string)
    | Other(name: string)

  datatype Rejection = UnknownMode | TimeoutTooSmall | NegativeRetries | InvalidUrl | UnknownFormat

  /** The checks in the order of the code; the first failure is reported. */
  function Fault(s: Snapshot): Option<Rejection> {
    if !KnownMode(s.sendMode) then Some(UnknownMode)
    else if s.timeoutMs < 1 then Some(TimeoutTooSmall)
    else if s.retryCount < 0 then Some(NegativeRetries)
    else if UsesHttp(s.sendMode) && !s.urlValid then Some(InvalidUrl)
    else if s.outputFormat != "jsonl" then Some(UnknownFormat)
    else None
  }

  /** What the rest of the node relies on. */
  predicate Valid(s: Snapshot) {
    && KnownMode(s.sendMode) && s.timeoutMs >= 1 && s.retryCount >= 0 && s.outputFormat == "jsonl"
    && (UsesHttp(s.sendMode) ==> s.urlValid)
  }

  /** `urlValid` says exactly that the endpoint parses, and then `url` is its
      parse. After a failed parse `url` is left as it was. */
  predicate Coherent(s: Snapshot) {
    match HttpUrl.ParseHttpUrl(s.endpoint)
    case None => !s.urlValid
    case Some(u) => s.urlValid && s.url == u
  }

  function Applied(s: Snapshot, p: Param): Snapshot {
    match p
    case SendMode(mode) => s.(sendMode := mode)
    case Endpoint(url) =>
      (match HttpUrl.ParseHttpUrl(url)
       case None => s.(endpoint := url, urlValid := false)
       case Some(u) => s.(endpoint := url, urlValid := true, url := u))
    case TimeoutMs(ms) => s.(timeoutMs := ms)
    case RetryCount(count) => s.(retryCount := count)
    case AuthType(auth) => s.(authType := auth)
    case SaveResults(on) => s.(saveResults := on)
    case OutputPath(path) => s.(outputPath := path)
    case OutputFormat(format) => s.(outputFormat := format)
    case Other(_) => s
  }

  predicate TouchesWriter(p: Param) {
    p.SaveResults? || p.OutputPath? || p.OutputFormat?
  }

  function Candidate(s: Snapshot, batch: seq<Param>): Snapshot {
    if batch == [] then s else Applied(Candidate(s, batch[..|batch| - 1]), batch[|batch| - 1])
  }

  predicate WriterInputs(batch: seq<Param>) {
    exists i :: 0 <= i < |batch| && TouchesWriter(batch[i])
  }

  lemma ValidIffNoFault(s: Snapshot)
    ensures Valid(s) <==> Fault(s).None?
  {
  }

  /** The modes by name: what publishes, what posts, and that no others are known. */
  lemma ModesAre(mode: string)
    ensures UsesTopic(mode) <==> mode in {"ros_topic", "both"}
    ensures UsesHttp(mode) <==> mode in {"http", "both"}
    ensures KnownMode(mode) <==> mode == "disabled" || UsesTopic(mode) || UsesHttp(mode)
  {
  }

  /** The first check that fails, in the order mode, timeout, retries, URL, format,
      is the one reported. */
  lemma FirstFault(s: Snapshot)
    ensures Fault(s) == Some(UnknownMode) <==> !KnownMode(s.sendMode)
    ensures Fault(s) == Some(TimeoutTooSmall) <==> KnownMode(s.sendMode) && s.timeoutMs <= 0
    ensures Fault(s) == Some(NegativeRetries) <==> KnownMode(s.sendMode) && s.timeoutMs > 0 && s.retryCount < 0
    ensures Fault(s) == Some(InvalidUrl) <==>
            KnownMode(s.sendMode) && s.timeoutMs > 0 && s.retryCount >= 0 && UsesHttp(s.sendMode) && !s.urlValid
    ensures Fault(s) == Some(UnknownFormat) <==>
            && KnownMode(s.sendMode) && s.timeoutMs > 0 && s.retryCount >= 0
            && (UsesHttp(s.sendMode) ==> s.urlValid) && s.outputFormat != "jsonl"
  {
    hide KnownMode, UsesHttp;
  }

  /** What the writer is configured from. */
  predicate SameSaving(a: Snapshot, b: Snapshot) {
    a.saveResults == b.saveResults && a.outputPath == b.outputPath && a.outputFormat == b.outputFormat
  }

  /** An entry counts as an input of the writer exactly when it can change what the
      writer is configured from. */
  lemma TouchesWriterIff(p: Param, s: Snapshot)
    ensures TouchesWriter(p) <==> exists t :: !SameSaving(Applied(t, p), t)
  {
    hide HttpUrl.ParseHttpUrl;
    var t := s.(saveResults := p.SaveResults? && !p.on,
                outputPath := if p.OutputPath? then p.path + "x" else "",
                outputFormat := if p.OutputFormat? then p.format + "x" else "");
    if TouchesWriter(p) { assert !SameSaving(Applied(t, p), t); }
  }

  // ------------------------------------------------------------- last one wins

  predicate SameKind(p: Param, q: Param) {
    match p
    case SendMode(_) => q.SendMode?
    case Endpoint(_) => q.Endpoint?
    case TimeoutMs(_) => q.TimeoutMs?
    case RetryCount(_) => q.RetryCount?
    case AuthType(_) => q.AuthType?
    case SaveResults(_) => q.SaveResults?
    case OutputPath(_) => q.OutputPath?
    case OutputFormat(_) => q.OutputFormat?
    case Other(_) => q.Other?
  }

  /** The snapshot field that `p` is about, as an entry. */
  function FieldOf(s: Snapshot, p: Param): Param {
    match p
    case SendMode(_) => SendMode(s.sendMode)
    case Endpoint(_) => Endpoint(s.endpoint)
    case TimeoutMs(_) => TimeoutMs(s.timeoutMs)
    case RetryCount(_) => RetryCount(s.retryCount)
    case AuthType(_) => AuthType(s.authType)
    case SaveResults(_) => SaveResults(s.saveResults)
    case OutputPath(_) => OutputPath(s.outputPath)
    case OutputFormat(_) => OutputFormat(s.outputFormat)
    case Other(_) => p
  }

  lemma EntrySetsItsField(s: Snapshot, q: Param, p: Param)
    ensures !SameKind(p, q) ==> FieldOf(Applied(s, q), p) == FieldOf(s, p)
    ensures SameKind(p, q) && !p.Other? ==> FieldOf(Applied(s, q), p) == q
  {
    hide HttpUrl.ParseHttpUrl;
  }

  /** Each field of the candidate is the last entry about it, or unchanged when
      the batch has none. */
  lemma {:induction false} LastEntryWins(s: Snapshot, batch: seq<Param>, p: Param)
    ensures (forall i :: 0 <= i < |batch| ==> !SameKind(p, batch[i])) ==>
              FieldOf(Candidate(s, batch), p) == FieldOf(s, p)
    ensures forall i :: 0 <= i < |batch| && SameKind(p, batch[i]) && !p.Other?
                        && (forall k :: i < k < |batch| ==> !SameKind(p, batch[k])) ==>
              FieldOf(Candidate(s, batch), p) == batch[i]
  {
    hide Applied, FieldOf, SameKind;
    if batch != [] {
      var n := |batch| - 1;
      LastEntryWins(s, batch[..n], p);
      EntrySetsItsField(Candidate(s, batch[..n]), batch[n], p);
      forall i | 0 <= i < |batch| && SameKind(p, batch[i]) && !p.Other?
                 && (forall k :: i < k < |batch| ==> !SameKind(p, batch[k]))
        ensures FieldOf(Candidate(s, batch), p) == batch[i]
      {
        if i < n {
          assert batch[..n][i] == batch[i];
          assert !SameKind(p, batch[n]);
        }
      }
    }
  }

  lemma EntryKeepsCoherence(s: Snapshot, q: Param)
    requires Coherent(s)
    ensures Coherent(Applied(s, q))
  {
    hide HttpUrl.ParseHttpUrl;
  }

  /** The parsed URL never drifts from the endpoint it is said to parse. */
  lemma {:induction false} CandidateIsCoherent(s: Snapshot, batch: seq<Param>)
    requires Coherent(s)
    ensures Coherent(Candidate(s, batch))
  {
    hide Coherent, Applied;
    if batch != [] {
      CandidateIsCoherent(s, batch[..|batch| - 1]);
      EntryKeepsCoherence(Candidate(s, batch[..|batch| - 1]), batch[|batch| - 1]);
    }
  }

  lemma InputsNext(batch: seq<Param>, i: nat)
    requires i < |batch|
    ensures WriterInputs(batch[..i + 1]) <==> WriterInputs(batch[..i]) || TouchesWriter(batch[i])
  {
    if WriterInputs(batch[..i]) {
      var k :| 0 <= k < i && TouchesWriter(batch[..i][k]);
      assert TouchesWriter(batch[..i + 1][k]);
    }
    if TouchesWriter(batch[i]) { assert TouchesWriter(batch[..i + 1][i]); }
  }

  // ----------------------------------------------------------- the callback

  class Configuration {
    var snapshot: Snapshot

    /** `build_snapshot_from_parameters`: any values, valid or not. `unset` is the
        URL a failed parse leaves behind. */
    constructor (mode: string, endpoint: string, timeoutMs: Int64, retryCount: Int64, auth: string,
                 save: bool, path: string, format: string, unset: HttpUrl.Url)
      ensures Coherent(snapshot)
      ensures snapshot.sendMode == mode && snapshot.endpoint == endpoint && snapshot.timeoutMs == timeoutMs
      ensures snapshot.retryCount == retryCount && snapshot.authType == auth && snapshot.saveResults == save
      ensures snapshot.outputPath == path && snapshot.outputFormat == format
    {
      var parsed := HttpUrl.ParseHttpUrl(endpoint);
      snapshot := Snapshot(mode, endpoint, if parsed.Some? then parsed.value else unset, parsed.Some?,
                           timeoutMs, retryCount, auth, save, path, format);
    }

    /** `enforce_initial_parameters`: the fault that construction of the node ends
        with, or none exactly when the snapshot is valid. */
    method EnforceInitialParameters() returns (fault: Option<Rejection>)
      ensures fault == Fault(snapshot)
      ensures fault.None? <==> Valid(snapshot)
    {
      if !KnownMode(snapshot.sendMode) {
        return Some(UnknownMode);
      }
      if snapshot.timeoutMs < 1 {
        return Some(TimeoutTooSmall);
      }
      if snapshot.retryCount < 0 {
        return Some(NegativeRetries);
      }
      if UsesHttp(snapshot.sendMode) && !snapshot.urlValid {
        return Some(InvalidUrl);
      }
      if snapshot.outputFormat != "jsonl" {
        return Some(UnknownFormat);
      }
      return None;
    }

    /** `on_parameter_change` up to the swap: all entries or none. */
    method OnParameterChange(batch: seq<Param>) returns (fault: Option<Rejection>, writerInputsChanged: bool)
      modifies this
      ensures fault == Fault(Candidate(old(snapshot), batch))
      ensures snapshot == if fault.None? then Candidate(old(snapshot), batch) else old(snapshot)
      ensures fault.None? ==> Valid(snapshot)
      ensures old(Coherent(snapshot)) ==> Coherent(snapshot)
      ensures writerInputsChanged == WriterInputs(batch)
    {
      var candidate := snapshot;
      writerInputsChanged := false;
      var i := 0;
      while i < |batch|
        invariant 0 <= i <= |batch|
        invariant candidate == Candidate(old(snapshot), batch[..i])
        invariant writerInputsChanged == WriterInputs(batch[..i])
        invariant snapshot == old(snapshot)
      {
        assert batch[..i + 1][..i] == batch[..i];
        InputsNext(batch, i);
        match batch[i] {
          case SendMode(mode) => candidate := candidate.(sendMode := mode);
          case Endpoint(url) =>
            var parsed := HttpUrl.ParseHttpUrl(url);
            candidate := candidate.(endpoint := url, urlValid := parsed.Some?);
            if parsed.Some? { candidate := candidate.(url := parsed.value); }
          case TimeoutMs(ms) => candidate := candidate.(timeoutMs := ms);
          case RetryCount(count) => candidate := candidate.(retryCount := count);
          case AuthType(auth) => candidate := candidate.(authType := auth);
          case SaveResults(on) => candidate := candidate.(saveResults := on); writerInputsChanged := true;
          case OutputPath(path) => candidate := candidate.(outputPath := path); writerInputsChanged := true;
          case OutputFormat(format) => candidate := candidate.(outputFormat := format); writerInputsChanged := true;
          case Other(_) =>
        }
        i := i + 1;
      }
      assert batch[..i] == batch;
      CandidateIsCoherentIf(snapshot, batch);
      if !KnownMode(candidate.sendMode) {
        return Some(UnknownMode), writerInputsChanged;
      }
      if candidate.timeoutMs < 1 {
        return Some(TimeoutTooSmall), writerInputsChanged;
      }
      if candidate.retryCount < 0 {
        return Some(NegativeRetries), writerInputsChanged;
      }
      if UsesHttp(candidate.sendMode) && !candidate.urlValid {
        return Some(InvalidUrl), writerInputsChanged;
      }
      if candidate.outputFormat != "jsonl" {
        return Some(UnknownFormat), writerInputsChanged;
      }
      snapshot := candidate;
      return None, writerInputsChanged;
    }
  }

  lemma CandidateIsCoherentIf(s: Snapshot, batch: seq<Param>)
    ensures Coherent(s) ==> Coherent(Candidate(s, batch))
  {
    if Coherent(s) { CandidateIsCoherent(s, batch); }
  }
}
