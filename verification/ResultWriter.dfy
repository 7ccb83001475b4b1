/** The append-only JSONL sink `DetectionResultWriter`
    (`detection_result_writer.cpp`) over files that may fail. */
module ResultWriter {
  import opened Prelude
  import opened DetectionJson
  import PayloadRoundTrip
  import JsonEscape

  /** Contents of the files that exist. */
  type Files = map<string, string>

  function Content(files: Files, path: string): string {
    if path in files then files[path] else ""
  }

  datatype Config = Config(enabled: bool, path: string)

  datatype Error =
    NoError | EmptyPath | OpenFailed(path: string) | WriteFailed(path: string) | FlushFailed(path: string)

  /** What the operating system does with one line: it may take only a part. */
  datatype Outcome = Written | WriteFails(kept: nat) | FlushFails(kept: nat)

  /** The writer's fields; `stream` is the path of the open `std::ofstream`. */
  datatype Writer = Writer(enabled: bool, path: string, stream: Option<string>, lastError: Error) {
    predicate IsOpen() {
      enabled && stream.Some?
    }

    /** Between calls the writer is either disabled and closed, or open at its path. */
    predicate Valid() {
      if enabled then stream == Some(path) && path != "" else stream == None
    }
  }

  const FRESH_WRITER := Writer(false, "", None, NoError)

  function Line(p: Payload): string {
    Serialized(p) + "\n"
  }

  /** The first `kept` bytes of a line. */
  function Torn(p: Payload, kept: nat): string {
    if kept <= |Line(p)| then Line(p)[..kept] else Line(p)
  }

  /** `configure`: new fields, files, success. */
  function Configured(files: Files, config: Config, opens: bool): (Writer, Files, bool) {
    if !config.enabled then (FRESH_WRITER, files, true)
    else if config.path == "" then (Writer(false, "", None, EmptyPath), files, false)
    else if !opens then (Writer(false, "", None, OpenFailed(config.path)), files, false)
    else (Writer(true, config.path, Some(config.path), NoError),
          files[config.path := Content(files, config.path)], true)
  }

  /** `append`: new fields, files, success. */
  function Appended(w: Writer, files: Files, p: Payload, outcome: Outcome): (Writer, Files, bool) {
    if !w.IsOpen() then (w, files, false)
    else
      var at := w.stream.value;
      match outcome
      case Written => (w, files[at := Content(files, at) + Line(p)], true)
      case WriteFails(kept) =>
        (Writer(false, w.path, None, WriteFailed(w.path)), files[at := Content(files, at) + Torn(p, kept)], false)
      case FlushFails(kept) =>
        (Writer(false, w.path, None, FlushFailed(w.path)), files[at := Content(files, at) + Torn(p, kept)], false)
  }

  /** The files as the operating system holds them. */
  class Disk {
    var files: Files

    constructor (initial: Files)
      ensures files == initial
    {
      files := initial;
    }

    /** Creates the file unless it exists. */
    method Open(path: string)
      modifies this
      ensures files == old(files)[path := Content(old(files), path)]
    {
      if path !in files {
        files := files[path := ""];
      }
      assert files == old(files)[path := Content(old(files), path)];
    }

    method Extend(path: string, bytes: string)
      modifies this
      ensures files == old(files)[path := Content(old(files), path) + bytes]
    {
      files := files[path := Content(files, path) + bytes];
    }
  }

  class DetectionResultWriter {
    var enabled: bool
    var path: string
    var stream: Option<string>
    var lastError: Error
    const disk: Disk

    ghost function Fields(): Writer
      reads this
    {
      Writer(enabled, path, stream, lastError)
    }

    constructor (disk: Disk)
      ensures Fields() == FRESH_WRITER && this.disk == disk
    {
      enabled, path, stream, lastError := false, "", None, NoError;
      this.disk := disk;
    }

    /** `opens` tells whether the operating system opens the file for append. */
    method Configure(config: Config, opens: bool) returns (ok: bool)
      modifies this, disk
      ensures (Fields(), disk.files, ok) == Configured(old(disk.files), config, opens)
    {
      stream := None;
      enabled := false;
      path := "";
      lastError := NoError;
      if !config.enabled {
        return true;
      }
      if config.path == "" {
        lastError := EmptyPath;
        return false;
      }
      if !opens {
        lastError := OpenFailed(config.path);
        return false;
      }
      disk.Open(config.path);
      stream := Some(config.path);
      enabled := true;
      path := config.path;
      return true;
    }

    method Append(p: Payload, outcome: Outcome) returns (ok: bool)
      modifies this, disk
      ensures (Fields(), disk.files, ok) == Appended(old(Fields()), old(disk.files), p, outcome)
    {
      if !enabled || stream.None? {
        return false;
      }
      var line := SerializeDetections(p);
      match outcome
      case Written =>
        disk.Extend(stream.value, line + "\n");
        return true;
      case WriteFails(kept) =>
        disk.Extend(stream.value, Torn(p, kept));
        lastError := WriteFailed(path);
        stream := None;
        enabled := false;
        return false;
      case FlushFails(kept) =>
        disk.Extend(stream.value, Torn(p, kept));
        lastError := FlushFailed(path);
        stream := None;
        enabled := false;
        return false;
    }
  }

  // ---------------------------------------------------------------- whole runs

  datatype Call = Configure(config: Config, opens: bool) | Append(p: Payload, outcome: Outcome)

  datatype State = State(writer: Writer, files: Files)

  function After(s: State, c: Call): State {
    match c
    case Configure(config, opens) => var (w, f, _) := Configured(s.files, config, opens); State(w, f)
    case Append(p, outcome) => var (w, f, _) := Appended(s.writer, s.files, p, outcome); State(w, f)
  }

  function Run(s: State, calls: seq<Call>): State {
    if calls == [] then s else After(Run(s, calls[..|calls| - 1]), calls[|calls| - 1])
  }

  /** Whether the call appends to the open file at `path`. */
  predicate Hits(s: State, c: Call, path: string) {
    c.Append? && s.writer.IsOpen() && s.writer.stream.value == path
  }

  /** What one call adds to the file at `path`, seen from the state before it. */
  function Adds(s: State, c: Call, path: string): string {
    if Hits(s, c, path) then
      match c.outcome
      case Written => Line(c.p)
      case WriteFails(kept) => Torn(c.p, kept)
      case FlushFails(kept) => Torn(c.p, kept)
    else ""
  }

  /** Payloads whose append succeeded while the writer stood at `path`. */
  function Recorded(s: State, calls: seq<Call>, path: string): seq<Payload> {
    if calls == [] then []
    else
      var n := |calls| - 1;
      var before := Run(s, calls[..n]);
      var c := calls[n];
      Recorded(s, calls[..n], path) + if Hits(before, c, path) && c.outcome.Written? then [c.p] else []
  }

  function Lines(ps: seq<Payload>): string {
    if ps == [] then "" else Lines(ps[..|ps| - 1]) + Line(ps[|ps| - 1])
  }

  predicate Unfailing(calls: seq<Call>) {
    forall i :: 0 <= i < |calls| && calls[i].Append? ==> calls[i].outcome.Written?
  }

  lemma CallExtends(s: State, c: Call, path: string)
    ensures Content(After(s, c).files, path) == Content(s.files, path) + Adds(s, c, path)
  {
    hide Line, Torn;
  }

  /** A file only ever grows: configuring, switching paths and failing keep
      every byte written before. */
  lemma {:induction false} FilesOnlyGrow(s: State, calls: seq<Call>, path: string)
    ensures Content(s.files, path) <= Content(Run(s, calls).files, path)
  {
    if calls != [] {
      FilesOnlyGrow(s, calls[..|calls| - 1], path);
      CallExtends(Run(s, calls[..|calls| - 1]), calls[|calls| - 1], path);
    }
  }

  /** Without a failed write every file is its initial content and one line per
      successful append aimed at it, in order, across any reconfiguration. */
  lemma {:induction false} FileIsRecord(s: State, calls: seq<Call>, path: string)
    requires Unfailing(calls)
    ensures Content(Run(s, calls).files, path) == Content(s.files, path) + Lines(Recorded(s, calls, path))
  {
    hide Line, Torn, After;
    if calls != [] {
      var n := |calls| - 1;
      assert Unfailing(calls[..n]);
      FileIsRecord(s, calls[..n], path);
      CallExtends(Run(s, calls[..n]), calls[n], path);
      CallRecords(s, calls, path);
      Assoc(Content(s.files, path), Lines(Recorded(s, calls[..n], path)), Adds(Run(s, calls[..n]), calls[n], path));
    }
  }

  lemma CallRecords(s: State, calls: seq<Call>, path: string)
    requires calls != [] && Unfailing(calls)
    ensures var n := |calls| - 1;
            Lines(Recorded(s, calls, path)) ==
            Lines(Recorded(s, calls[..n], path)) + Adds(Run(s, calls[..n]), calls[n], path)
  {
    hide Line, Torn, After;
    var n := |calls| - 1;
    var before, c := Run(s, calls[..n]), calls[n];
    var earlier := Recorded(s, calls[..n], path);
    if Hits(before, c, path) {
      assert Recorded(s, calls, path) == earlier + [c.p];
      assert (earlier + [c.p])[..|earlier|] == earlier;
    } else {
      assert Recorded(s, calls, path) == earlier;
      assert Lines(earlier) + "" == Lines(earlier);
    }
  }

  // --------------------------------------------- the writer told from the calls

  /** What the call returns. */
  function Reported(s: State, c: Call): bool {
    match c
    case Configure(config, opens) => Configured(s.files, config, opens).2
    case Append(p, outcome) => Appended(s.writer, s.files, p, outcome).2
  }

  /** The last `Configure` among the calls. */
  function LastConfigure(calls: seq<Call>): (c: Option<Call>)
    ensures c.Some? ==> c.value.Configure?
  {
    if calls == [] then None
    else if calls[|calls| - 1].Configure? then Some(calls[|calls| - 1])
    else LastConfigure(calls[..|calls| - 1])
  }

  /** The first failing outcome of an append behind it. */
  function FirstFailure(calls: seq<Call>): Option<Outcome> {
    if calls == [] || calls[|calls| - 1].Configure? then None
    else
      match FirstFailure(calls[..|calls| - 1])
      case Some(outcome) => Some(outcome)
      case None => if calls[|calls| - 1].outcome.Written? then None else Some(calls[|calls| - 1].outcome)
  }

  /** Whether a `Configure` opens a file. */
  predicate Opens(c: Call) {
    c.Configure? && c.config.enabled && c.config.path != "" && c.opens
  }

  /** The writer is open exactly when the last `Configure` opened a file and no
      append since has failed, and then at the path given there; otherwise the last
      error says what went wrong first. */
  lemma {:induction false} WriterIs(files: Files, calls: seq<Call>)
    ensures var w, last, failure :=
              Run(State(FRESH_WRITER, files), calls).writer, LastConfigure(calls), FirstFailure(calls);
            && w.Valid()
            && (w.IsOpen() <==> last.Some? && Opens(last.value) && failure.None?)
            && (w.IsOpen() ==> w.stream == Some(last.value.config.path) && w.lastError == NoError)
            && (last.None? || !last.value.config.enabled ==> w.lastError == NoError)
            && (last.Some? && last.value.config.enabled ==>
                  var path := last.value.config.path;
                  if path == "" then w.lastError == EmptyPath
                  else if !last.value.opens then w.lastError == OpenFailed(path)
                  else
                    && w.path == path
                    && (failure.Some? ==>
                          w.lastError == if failure.value.WriteFails? then WriteFailed(path) else FlushFailed(path)))
  {
    hide Line, Torn, Content;
    if calls != [] {
      WriterIs(files, calls[..|calls| - 1]);
    }
  }

  /** A `Configure` succeeds exactly when saving is off or the file opens, an append
      exactly when the file is open and takes the whole line. */
  lemma ReportedIff(s: State, c: Call)
    requires s.writer.Valid()
    ensures c.Configure? ==> (Reported(s, c) <==> !c.config.enabled || Opens(c))
    ensures c.Append? ==> (Reported(s, c) <==> s.writer.enabled && c.outcome.Written?)
    ensures c.Configure? && !Reported(s, c) ==> After(s, c).writer.lastError != NoError
  {
    hide Line, Torn;
  }

  /** After a failed write or flush the writer is closed: until the next `Configure`
      every append reports failure, no file changes and nothing is recorded. */
  lemma {:induction false} SilentAfterFailure(s: State, c: Call, calls: seq<Call>)
    requires c.Append? && s.writer.IsOpen() && !c.outcome.Written?
    requires forall i :: 0 <= i < |calls| ==> calls[i].Append?
    ensures var t := After(s, c);
            && !Reported(s, c) && !t.writer.IsOpen()
            && Run(t, calls) == t
            && (forall i :: 0 <= i < |calls| ==> !Reported(Run(t, calls[..i]), calls[i]))
            && (forall path :: Recorded(t, calls, path) == [])
  {
    hide Line, Torn, Content;
    if calls != [] {
      var n := |calls| - 1;
      SilentAfterFailure(s, c, calls[..n]);
      var t := After(s, c);
      forall i | 0 <= i < |calls| ensures !Reported(Run(t, calls[..i]), calls[i]) {
        if i < n { assert calls[..n][..i] == calls[..i] && calls[..n][i] == calls[i]; }
      }
    }
  }

  // ------------------------------------------------------- reading the file back

  /** Splits at line feeds: the complete lines, and the bytes behind the last one. */
  function Split(s: string): (seq<string>, string) {
    if s == "" then ([], "")
    else
      var n := |s| - 1;
      var (lines, tail) := Split(s[..n]);
      if s[n] == '\n' then (lines + [tail], "") else (lines, tail + [s[n]])
  }

  lemma {:induction false} SplitPlain(s: string, t: string)
    requires JsonEscape.Printable(t)
    ensures Split(s + t) == (Split(s).0, Split(s).1 + t)
  {
    if t == "" {
      assert s + t == s && Split(s).1 + t == Split(s).1;
    } else {
      var n := |t| - 1;
      assert (s + t)[..|s + t| - 1] == s + t[..n];
      SplitPlain(s, t[..n]);
      assert (Split(s).1 + t[..n]) + [t[n]] == Split(s).1 + t;
    }
  }

  function Texts(ps: seq<Payload>): seq<string> {
    seq(|ps|, i requires 0 <= i < |ps| => Serialized(ps[i]))
  }

  lemma SplitLine(s: string, p: Payload)
    ensures Split(s + Line(p)) == (Split(s).0 + [Split(s).1 + Serialized(p)], "")
  {
    hide Serialized;
    PayloadRoundTrip.SerializedIsPrintable(p);
    SplitPlain(s, Serialized(p));
    assert (s + Line(p))[..|s + Line(p)| - 1] == s + Serialized(p);
  }

  /** One line per payload, the first one behind whatever the file ended in. */
  lemma {:induction false} SplitLines(s: string, ps: seq<Payload>)
    ensures ps == [] ==> Split(s + Lines(ps)) == Split(s)
    ensures ps != [] ==>
              Split(s + Lines(ps)) ==
              (Split(s).0 + [Split(s).1 + Serialized(ps[0])] + Texts(ps[1..]), "")
  {
    hide Serialized, Split, Line;
    if ps == [] {
      assert s + Lines(ps) == s;
    } else {
      var n := |ps| - 1;
      SplitLines(s, ps[..n]);
      Assoc(s, Lines(ps[..n]), Line(ps[n]));
      SplitLine(s + Lines(ps[..n]), ps[n]);
      if n > 0 {
        assert ps[..n][1..] == ps[1..][..n - 1] && ps[..n][0] == ps[0];
        assert "" + Serialized(ps[n]) == Serialized(ps[n]);
        assert Texts(ps[1..]) == Texts(ps[..n][1..]) + [Serialized(ps[n])];
        assert Split(s).0 + [Split(s).1 + Serialized(ps[0])] + Texts(ps[1..]) ==
               (Split(s).0 + [Split(s).1 + Serialized(ps[0])] + Texts(ps[..n][1..])) + [Serialized(ps[n])];
      } else {
        var front := Split(s).0 + [Split(s).1 + Serialized(ps[0])];
        assert Texts(ps[1..]) == [] && front + [] == front;
        assert s + Lines(ps[..n]) == s;
      }
    }
  }

  /** After an unfailing run the lines behind the old ones are exactly the
      serialized payloads, if and only if the file was empty or ended in a line
      feed (or nothing was recorded). */
  lemma AddedLinesIff(s: State, calls: seq<Call>, path: string)
    requires Unfailing(calls)
    ensures var before := Split(Content(s.files, path));
            var recorded := Recorded(s, calls, path);
            Split(Content(Run(s, calls).files, path)).0 == before.0 + Texts(recorded)
            <==> before.1 == "" || recorded == []
  {
    hide Serialized, Split, Run, Recorded, Lines;
    FileIsRecord(s, calls, path);
    SplitLines(Content(s.files, path), Recorded(s, calls, path));
    if Recorded(s, calls, path) != [] {
      FragmentShows(Split(Content(s.files, path)).0, Split(Content(s.files, path)).1, Recorded(s, calls, path));
    }
  }

  lemma FragmentShows(lines: seq<string>, tail: string, ps: seq<Payload>)
    requires ps != []
    ensures lines + [tail + Serialized(ps[0])] + Texts(ps[1..]) == lines + Texts(ps) <==> tail == ""
  {
    hide Serialized;
    var first := Serialized(ps[0]);
    assert Texts(ps) == [first] + Texts(ps[1..]);
    var glued, whole := lines + [tail + first] + Texts(ps[1..]), lines + Texts(ps);
    assert glued[|lines|] == tail + first && whole[|lines|] == first;
    if tail == "" {
      assert tail + first == first;
    } else {
      assert |tail + first| != |first|;
    }
  }

  /** ... and each of those lines is received as its payload. */
  lemma AddedLinesAreReceived(s: State, calls: seq<Call>, path: string, i: nat)
    requires Unfailing(calls) && Split(Content(s.files, path)).1 == ""
    requires i < |Recorded(s, calls, path)| && PayloadRoundTrip.Exact(Recorded(s, calls, path)[i])
    ensures var before := Split(Content(s.files, path)).0;
            var now := Split(Content(Run(s, calls).files, path)).0;
            |now| == |before| + |Recorded(s, calls, path)|
            && PayloadRoundTrip.Receive(now[|before| + i]) == Some(PayloadRoundTrip.Normal(Recorded(s, calls, path)[i]))
  {
    hide Split, Run, Recorded, Serialized, PayloadRoundTrip.Exact, PayloadRoundTrip.Receive, PayloadRoundTrip.Normal;
    AddedLinesIff(s, calls, path);
    PayloadRoundTrip.SerializedReceived(Recorded(s, calls, path)[i]);
  }

  // ----------------------------------------------------- runs with failed writes

  predicate EndsClean(text: string) {
    text == "" || text[|text| - 1] == '\n'
  }

  lemma CleanEnd(text: string)
    ensures Split(text).1 == "" <==> EndsClean(text)
  {
  }

  /** A failed write that took the whole line, its line feed included. */
  predicate TookAll(c: Call)
    requires c.Append?
  {
    match c.outcome
    case Written => false
    case WriteFails(kept) => kept > |Serialized(c.p)|
    case FlushFails(kept) => kept > |Serialized(c.p)|
  }

  /** A successful append found the file empty or ending in a line feed; a
      failed one did not take its whole line after all. */
  predicate CleanCall(s: State, c: Call, path: string) {
    Hits(s, c, path) ==> if c.outcome.Written? then EndsClean(Content(s.files, path)) else !TookAll(c)
  }

  predicate CleanRun(s: State, calls: seq<Call>, path: string) {
    calls != [] ==>
      var n := |calls| - 1;
      CleanRun(s, calls[..n], path) && CleanCall(Run(s, calls[..n]), calls[n], path)
  }

  /** The complete lines the calls add, as a reader sees them. */
  function LinesAdded(s: State, calls: seq<Call>, path: string): seq<string> {
    if calls == [] then []
    else
      var n := |calls| - 1;
      var before, c := Run(s, calls[..n]), calls[n];
      LinesAdded(s, calls[..n], path) +
      if Hits(before, c, path) && (c.outcome.Written? || TookAll(c))
      then [Split(Content(before.files, path)).1 + Serialized(c.p)] else []
  }

  lemma TornLine(p: Payload, kept: nat)
    ensures Torn(p, kept) == if kept > |Serialized(p)| then Line(p) else Serialized(p)[..kept]
  {
    hide Serialized;
    if kept == |Line(p)| { assert Line(p)[..kept] == Line(p); }
  }

  lemma FragmentIsPlain(p: Payload, kept: nat)
    requires kept <= |Serialized(p)|
    ensures JsonEscape.Printable(Serialized(p)[..kept])
  {
    hide Serialized;
    PayloadRoundTrip.SerializedIsPrintable(p);
  }

  /** One call adds its line, glued to what the file ended in, or no line. */
  lemma CallSplits(s: State, c: Call, path: string)
    ensures Split(Content(After(s, c).files, path)).0 ==
            Split(Content(s.files, path)).0 +
            if Hits(s, c, path) && (c.outcome.Written? || TookAll(c))
            then [Split(Content(s.files, path)).1 + Serialized(c.p)] else []
  {
    hide Serialized, Line, Split, After, Torn;
    CallExtends(s, c, path);
    var text := Content(s.files, path);
    if !Hits(s, c, path) {
      assert text + "" == text;
    } else if c.outcome.Written? {
      SplitLine(text, c.p);
    } else {
      var kept := c.outcome.kept;
      TornLine(c.p, kept);
      if kept > |Serialized(c.p)| {
        SplitLine(text, c.p);
      } else {
        FragmentIsPlain(c.p, kept);
        SplitPlain(text, Serialized(c.p)[..kept]);
      }
    }
  }

  lemma AssocLines(a: seq<string>, b: seq<string>, c: seq<string>)
    ensures (a + b) + c == a + (b + c)
  {
  }

  lemma {:induction false} RunSplits(s: State, calls: seq<Call>, path: string)
    ensures Split(Content(Run(s, calls).files, path)).0 == Split(Content(s.files, path)).0 + LinesAdded(s, calls, path)
  {
    hide Serialized, Split, Content, After, TookAll;
    var former := Split(Content(s.files, path)).0;
    if calls == [] {
      assert former + [] == former;
    } else {
      var n := |calls| - 1;
      var before, c := Run(s, calls[..n]), calls[n];
      RunSplits(s, calls[..n], path);
      CallSplits(before, c, path);
      AssocLines(former, LinesAdded(s, calls[..n], path),
                 if Hits(before, c, path) && (c.outcome.Written? || TookAll(c))
                 then [Split(Content(before.files, path)).1 + Serialized(c.p)] else []);
    }
  }

  lemma SnocEqual(a: seq<string>, x: string, b: seq<string>, y: string)
    ensures a + [x] == b + [y] <==> a == b && x == y
  {
    if a + [x] == b + [y] {
      assert (a + [x])[..|a|] == a && (b + [y])[..|b|] == b;
      assert (a + [x])[|a|] == x && (b + [y])[|b|] == y;
    }
  }

  lemma GluedDiffers(tail: string, text: string)
    ensures tail + text == text <==> tail == ""
  {
    if tail == "" { assert tail + text == text; }
  }

  lemma TextsNext(ps: seq<Payload>, p: Payload)
    ensures Texts(ps + [p]) == Texts(ps) + [Serialized(p)]
  {
    hide Serialized;
  }

  lemma {:induction false} AddedAreRecordedIff(s: State, calls: seq<Call>, path: string)
    ensures |LinesAdded(s, calls, path)| >= |Recorded(s, calls, path)|
    ensures LinesAdded(s, calls, path) == Texts(Recorded(s, calls, path)) <==> CleanRun(s, calls, path)
  {
    hide Serialized, Split, Content, Run, EndsClean, Texts;
    if calls == [] {
      assert Texts([]) == [] by { NoTexts(); }
    } else {
      var n := |calls| - 1;
      var before, c := Run(s, calls[..n]), calls[n];
      var added, recorded := LinesAdded(s, calls[..n], path), Recorded(s, calls[..n], path);
      AddedAreRecordedIff(s, calls[..n], path);
      TextsLength(recorded);
      if Hits(before, c, path) && c.outcome.Written? {
        var tail := Split(Content(before.files, path)).1;
        TextsNext(recorded, c.p);
        SnocEqual(added, tail + Serialized(c.p), Texts(recorded), Serialized(c.p));
        GluedDiffers(tail, Serialized(c.p));
        CleanEnd(Content(before.files, path));
      } else if Hits(before, c, path) && TookAll(c) {
        assert |LinesAdded(s, calls, path)| == |added| + 1;
        assert Recorded(s, calls, path) == recorded;
      } else {
        assert LinesAdded(s, calls, path) == added && Recorded(s, calls, path) == recorded;
      }
    }
  }

  lemma NoTexts()
    ensures Texts([]) == []
  {
  }

  lemma TextsLength(ps: seq<Payload>)
    ensures |Texts(ps)| == |ps|
  {
  }

  /** For every run of calls, failing or not: a reader finds behind the old lines
      exactly the payloads reported as saved if and only if each successful
      append found the file empty or ending in a line feed, and no failed append
      took its whole line. */
  lemma LinesSurviveIff(s: State, calls: seq<Call>, path: string)
    ensures Split(Content(Run(s, calls).files, path)).0 ==
            Split(Content(s.files, path)).0 + Texts(Recorded(s, calls, path))
            <==> CleanRun(s, calls, path)
  {
    hide Serialized, Split, Content, Run, CleanRun, LinesAdded, Recorded, Texts;
    var former, added, texts :=
      Split(Content(s.files, path)).0, LinesAdded(s, calls, path), Texts(Recorded(s, calls, path));
    RunSplits(s, calls, path);
    AddedAreRecordedIff(s, calls, path);
    if former + added == former + texts {
      assert added == (former + added)[|former|..] && texts == (former + texts)[|former|..];
    }
  }

  /** An input that is no clean run: a torn write is not repaired, and reopening
      the file glues the next line to the fragment. */
  lemma TornLineGlues(path: string, p: Payload, q: Payload, kept: nat)
    requires path != "" && 0 < kept <= |Serialized(p)|
    ensures var open := Configure(Config(true, path), true);
            var calls := [open, Append(p, WriteFails(kept)), open, Append(q, Written)];
            Split(Content(Run(State(FRESH_WRITER, map[]), calls).files, path)) ==
            ([Serialized(p)[..kept] + Serialized(q)], "")
  {
    hide Serialized, Split, Line;
    var s0 := State(FRESH_WRITER, map[]);
    var open := Configure(Config(true, path), true);
    var calls := [open, Append(p, WriteFails(kept)), open, Append(q, Written)];
    var fragment := Serialized(p)[..kept];
    var s1 := After(s0, open);
    var s2 := After(s1, calls[1]);
    var s3 := After(s2, open);
    RunSteps(s0, calls);
    TornIsFragment(p, kept);
    assert Content(s2.files, path) == "" + fragment;
    assert "" + fragment == fragment;
    PayloadRoundTrip.SerializedIsPrintable(p);
    SplitPlain("", fragment);
    EmptySplit();
    SplitLine(fragment, q);
    assert [] + [fragment + Serialized(q)] == [fragment + Serialized(q)];
  }

  lemma EmptySplit()
    ensures Split("") == ([], "")
  {
  }

  lemma TornIsFragment(p: Payload, kept: nat)
    requires kept <= |Serialized(p)|
    ensures Torn(p, kept) == Serialized(p)[..kept]
  {
    hide Serialized;
  }

  lemma RunSteps(s: State, calls: seq<Call>)
    requires |calls| == 4
    ensures Run(s, calls) == After(After(After(After(s, calls[0]), calls[1]), calls[2]), calls[3])
  {
    hide After;
    assert calls[..3][..2] == calls[..2] && calls[..2][..1] == calls[..1] && calls[..1][..0] == [];
    assert Run(s, calls[..1]) == After(s, calls[0]);
    assert Run(s, calls[..2]) == After(Run(s, calls[..1]), calls[1]);
    assert Run(s, calls[..3]) == After(Run(s, calls[..2]), calls[2]);
  }
}
