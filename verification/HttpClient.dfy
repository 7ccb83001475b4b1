/** The byte loops and framing of `http_post_json` (`http_client.cpp`). Socket
    calls are event sequences chosen by the environment; a sequence that runs
    out leaves the call unfinished. */
module HttpClient {
  import opened Prelude
  import opened Decimal
  import HttpUrl
  import Json

  // ------------------------------------------------------------------ sending

  /** What one `send` does: take up to `n` bytes, or fail. */
  datatype SendEvent = Accepts(n: nat) | SendInterrupted | SendError

  datatype SendResult = AllSent | SendFailed | PeerClosed | StillSending

  /** Ends the loop: an error other than an interrupt, or a send of nothing. */
  predicate IsStop(e: SendEvent) {
    e == SendError || e == Accepts(0)
  }

  /** Position of the first event that ends the loop. */
  function Stop(events: seq<SendEvent>): (i: nat)
    ensures i <= |events| && (i < |events| ==> IsStop(events[i]))
    ensures forall k :: 0 <= k < i ==> !IsStop(events[k])
  {
    if events == [] || IsStop(events[0]) then 0 else 1 + Stop(events[1..])
  }

  /** Bytes the socket offers to take before that. */
  function Capacity(events: seq<SendEvent>): nat {
    if events == [] || IsStop(events[0]) then 0
    else (if events[0].Accepts? then events[0].n else 0) + Capacity(events[1..])
  }

  /** For every pattern of short sends and interrupts the socket took as much of
      the data as it offered to, and the result says why the loop ended. */
  method SendAll(data: string, events: seq<SendEvent>) returns (result: SendResult, delivered: string)
    ensures delivered == data[..if Capacity(events) < |data| then Capacity(events) else |data|]
    ensures result == AllSent <==> Capacity(events) >= |data|
    ensures result == SendFailed <==>
            Capacity(events) < |data| && Stop(events) < |events| && events[Stop(events)] == SendError
    ensures result == PeerClosed <==>
            Capacity(events) < |data| && Stop(events) < |events| && events[Stop(events)] == Accepts(0)
    ensures result == StillSending <==> Capacity(events) < |data| && Stop(events) == |events|
  {
    var sent: nat := 0;
    var i := 0;
    delivered := "";
    while sent < |data|
      invariant sent <= |data| && 0 <= i <= |events| && delivered == data[..sent]
      invariant i <= Stop(events)
      invariant if sent < |data| then Capacity(events) == sent + Capacity(events[i..]) else Capacity(events) >= |data|
      decreases |events| - i
    {
      if i == |events| {
        return StillSending, delivered;
      }
      var e := events[i];
      assert events[i..][1..] == events[i + 1..];
      i := i + 1;
      if e == SendError {
        return SendFailed, delivered;
      }
      if e == SendInterrupted {
        continue;
      }
      var n := if e.n < |data| - sent then e.n else |data| - sent;
      if n == 0 {
        return PeerClosed, delivered;
      }
      delivered := delivered + data[sent..sent + n];
      assert data[..sent] + data[sent..sent + n] == data[..sent + n];
      sent := sent + n;
    }
    return AllSent, delivered;
  }

  /** So only the sum of the sends matters, not how they were cut or interrupted. */
  lemma {:induction false} CapacityAdds(a: seq<SendEvent>, b: seq<SendEvent>)
    requires forall i :: 0 <= i < |a| ==> !IsStop(a[i])
    ensures Capacity(a + b) == Capacity(a) + Capacity(b)
  {
    if a == [] {
      assert a + b == b;
    } else {
      assert (a + b)[1..] == a[1..] + b;
      CapacityAdds(a[1..], b);
    }
  }

  // ---------------------------------------------------------------- receiving

  const RESPONSE_LIMIT := 65536

  datatype ReceiveEvent = Chunk(bytes: string) | Closed | ReceiveInterrupted | ReceiveError

  datatype Response = Complete(bytes: string) | Errored | StillReceiving

  function Receive(response: string, events: seq<ReceiveEvent>): Response
    decreases events
  {
    if events == [] then StillReceiving
    else
      match events[0]
      case Chunk(bytes) =>
        if |response + bytes| > RESPONSE_LIMIT then Complete(response + bytes)
        else Receive(response + bytes, events[1..])
      case Closed => Complete(response)
      case ReceiveInterrupted => Receive(response, events[1..])
      case ReceiveError => Errored
  }

  /** All bytes the events bring. */
  function Bytes(events: seq<ReceiveEvent>): string {
    if events == [] then ""
    else
      var n := |events| - 1;
      Bytes(events[..n]) + if events[n].Chunk? then events[n].bytes else ""
  }

  /** Ends the loop: the close, an error other than an interrupt, or the chunk that
      brings more than 64 KiB together. */
  predicate IsEnd(events: seq<ReceiveEvent>, i: nat)
    requires i < |events|
  {
    events[i].Closed? || events[i].ReceiveError? || |Bytes(events[..i + 1])| > 65536
  }

  /** Position of the first event that ends the loop, from `i` on. */
  function End(events: seq<ReceiveEvent>, i: nat): (r: nat)
    requires i <= |events|
    ensures i <= r <= |events| && (r < |events| ==> IsEnd(events, r))
    ensures forall k :: i <= k < r ==> !IsEnd(events, k)
    decreases |events| - i
  {
    if i == |events| || IsEnd(events, i) then i else End(events, i + 1)
  }

  lemma NoBytes()
    ensures Bytes([]) == ""
  {
  }

  lemma BytesNext(events: seq<ReceiveEvent>, i: nat)
    requires i < |events|
    ensures Bytes(events[..i + 1]) == Bytes(events[..i]) + if events[i].Chunk? then events[i].bytes else ""
    ensures !events[i].Chunk? ==> Bytes(events[..i + 1]) == Bytes(events[..i])
  {
    assert events[..i + 1][..i] == events[..i];
    assert Bytes(events[..i]) + "" == Bytes(events[..i]);
  }

  /** For every sequence of events: an error behind any bytes is an error, and a
      complete response is all bytes up to the event that ends the loop. */
  method ReceiveAll(events: seq<ReceiveEvent>) returns (r: Response)
    ensures r == Receive("", events)
    ensures r == StillReceiving <==> End(events, 0) == |events|
    ensures r == Errored <==> End(events, 0) < |events| && events[End(events, 0)].ReceiveError?
    ensures r.Complete? ==> r.bytes == Bytes(events[..End(events, 0) + 1])
  {
    hide Bytes;
    var response := "";
    var i := 0;
    assert Bytes([]) == "" by { NoBytes(); }
    while i < |events|
      invariant 0 <= i <= |events|
      invariant Receive("", events) == Receive(response, events[i..])
      invariant response == Bytes(events[..i]) && |response| <= 65536
      invariant End(events, 0) == End(events, i)
    {
      var e := events[i];
      assert events[i..][1..] == events[i + 1..];
      BytesNext(events, i);
      i := i + 1;
      match e {
        case Chunk(bytes) =>
          response := response + bytes;
          if |response| > RESPONSE_LIMIT {
            return Complete(response);
          }
        case Closed =>
          return Complete(response);
        case ReceiveInterrupted =>
        case ReceiveError =>
          return Errored;
      }
    }
    return StillReceiving;
  }

  // ------------------------------------------------------------ the status line

  function FindCrlf(s: string): (r: Option<nat>)
    ensures r.Some? ==> r.value + 2 <= |s|
  {
    if |s| < 2 then None
    else if s[0] == '\r' && s[1] == '\n' then Some(0)
    else
      match FindCrlf(s[1..])
      case None => None
      case Some(i) => Some(i + 1)
  }

  predicate IsSpace(c: char) {
    c == ' ' || (0x09 <= c as int <= 0x0D)
  }

  function SkipSpaces(s: string): string {
    if s != "" && IsSpace(s[0]) then SkipSpaces(s[1..]) else s
  }

  /** `std::stoi`: leading spaces, a sign, digits, anything behind; none when
      there is no digit or the value leaves int32. */
  function Stoi(s: string): Option<int> {
    var t := SkipSpaces(s);
    var sign := if t != "" && (t[0] == '-' || t[0] == '+') then 1 else 0;
    var d := Json.DigitSpan(t[sign..]);
    if d == 0 then None
    else
      var magnitude: int := ValueOf(t[sign..][..d]);
      var value := if t[0] == '-' then -magnitude else magnitude;
      if -0x8000_0000 <= value < 0x8000_0000 then Some(value) else None
  }

  function CodeText(line: string): Option<string> {
    match Find(line, ' ')
    case None => None
    case Some(first) =>
      match Find(line[first + 1..], ' ')
      case None => Some(line[first + 1..])
      case Some(second) => Some(line[first + 1..][..second])
  }

  function ParseLine(line: string): int {
    if |line| < 5 || line[..5] != "HTTP/" then -1
    else
      match CodeText(line)
      case None => -1
      case Some(code) => match Stoi(code) case None => -1 case Some(v) => v
  }

  /** `parse_status_line`; a code that is no int32 gives -1. */
  function ParseStatusLine(buffer: string): int {
    match FindCrlf(buffer)
    case None => -1
    case Some(eol) => ParseLine(buffer[..eol])
  }

  datatype PostResult = PostResult(ok: bool, status: int)

  /** The verdict of `http_post_json` on a complete response. */
  function Verdict(response: string): PostResult {
    var status := ParseStatusLine(response);
    PostResult(200 <= status < 300, status)
  }

  /** `http_post_json` behind the connect: send the request, receive the response,
      judge it. None while a call is still unfinished. */
  method HttpPostJson(url: HttpUrl.Url, body: string, sends: seq<SendEvent>, receives: seq<ReceiveEvent>)
    returns (r: Option<PostResult>)
    ensures var sent := Capacity(sends) >= |Request(url, body)|; var end := End(receives, 0);
            && (r.None? <==> if sent then end == |receives| else Stop(sends) == |sends|)
            && (r.Some? && r.value.ok <==>
                  && sent && end < |receives| && !receives[end].ReceiveError?
                  && 200 <= ParseStatusLine(Bytes(receives[..end + 1])) < 300)
            && (r.Some? && (!sent || receives[end].ReceiveError?) ==> r.value.status == -1)
            && (r.Some? && sent && !receives[end].ReceiveError? ==>
                  r.value.status == ParseStatusLine(Bytes(receives[..end + 1])))
  {
    hide Request, Capacity, Bytes, IsEnd, ParseStatusLine, Receive;
    var sending, _ := SendAll(Request(url, body), sends);
    if sending == StillSending {
      return None;
    }
    if sending != AllSent {
      return Some(PostResult(false, -1));
    }
    var response := ReceiveAll(receives);
    match response
    case StillReceiving => return None;
    case Errored => return Some(PostResult(false, -1));
    case Complete(bytes) => return Some(Verdict(bytes));
  }

  // ------------------------------------------- independence of the chunking

  /** The bytes of an error-free response up to the close. */
  function Stream(events: seq<ReceiveEvent>): string {
    if events == [] || events[0].Closed? then ""
    else (if events[0].Chunk? then events[0].bytes else "") + Stream(events[1..])
  }

  predicate ErrorFree(events: seq<ReceiveEvent>) {
    events != [] &&
    match events[0]
    case Closed => true
    case Chunk(bytes) => bytes != "" && ErrorFree(events[1..])
    case ReceiveInterrupted => ErrorFree(events[1..])
    case ReceiveError => false
  }

  /** The loop returns a prefix of the stream: all of it, or more than the limit. */
  lemma {:induction false} ReceivesPrefix(response: string, events: seq<ReceiveEvent>)
    requires ErrorFree(events)
    ensures Receive(response, events).Complete?
    ensures var got := Receive(response, events).bytes;
            got <= response + Stream(events) && (got == response + Stream(events) || |got| > 65536)
    decreases events
  {
    match events[0]
    case Closed =>
      assert response + "" == response;
    case Chunk(bytes) =>
      var r, tail := response + bytes, Stream(events[1..]);
      Assoc(response, bytes, tail);
      if |r| <= RESPONSE_LIMIT { ReceivesPrefix(r, events[1..]); }
    case ReceiveInterrupted =>
      assert "" + Stream(events[1..]) == Stream(events[1..]);
      ReceivesPrefix(response, events[1..]);
  }

  lemma {:induction false} CrlfInPrefix(a: string, b: string)
    requires a <= b
    ensures FindCrlf(a) == if FindCrlf(b).Some? && FindCrlf(b).value + 2 <= |a| then FindCrlf(b) else None
  {
    if |a| >= 2 && !(a[0] == '\r' && a[1] == '\n') { CrlfInPrefix(a[1..], b[1..]); }
    if |a| == 1 && |b| >= 2 && FindCrlf(b).Some? { assert FindCrlf(b).value + 2 > 1; }
  }

  /** The status of a prefix is that of the whole as soon as it holds the first
      line, and -1 before that. */
  lemma StatusOfPrefix(a: string, b: string)
    requires a <= b
    ensures ParseStatusLine(a) ==
            if FindCrlf(b).Some? && FindCrlf(b).value + 2 <= |a| then ParseStatusLine(b) else -1
  {
    hide FindCrlf, ParseLine;
    CrlfInPrefix(a, b);
    if FindCrlf(b).Some? && FindCrlf(b).value + 2 <= |a| {
      assert a[..FindCrlf(b).value] == b[..FindCrlf(b).value];
    }
  }

  /** One byte per `recv`, then the close. */
  function OneByOne(s: string): seq<ReceiveEvent> {
    if s == "" then [Closed] else [Chunk([s[0]])] + OneByOne(s[1..])
  }

  lemma {:induction false} OneByOneReceives(response: string, s: string)
    requires |response| <= RESPONSE_LIMIT
    ensures ErrorFree(OneByOne(s)) && Stream(OneByOne(s)) == s
    ensures Receive(response, OneByOne(s)) ==
            Complete(if |response + s| > RESPONSE_LIMIT then (response + s)[..RESPONSE_LIMIT + 1] else response + s)
    decreases s
  {
    if s == "" {
      assert response + s == response;
    } else {
      var events := OneByOne(s);
      assert events[1..] == OneByOne(s[1..]);
      assert response + s == (response + [s[0]]) + s[1..] && s == [s[0]] + s[1..];
      if |response| == RESPONSE_LIMIT {
        assert (response + s)[..RESPONSE_LIMIT + 1] == response + [s[0]];
        OneByOneIsErrorFree(s[1..]);
      } else {
        OneByOneReceives(response + [s[0]], s[1..]);
      }
    }
  }

  lemma {:induction false} OneByOneIsErrorFree(s: string)
    ensures ErrorFree(OneByOne(s)) && Stream(OneByOne(s)) == s
  {
    if s != "" {
      assert OneByOne(s)[1..] == OneByOne(s[1..]);
      OneByOneIsErrorFree(s[1..]);
      assert s == [s[0]] + s[1..];
    }
  }

  ghost predicate ChunkingIndependent(whole: string) {
    forall events :: ErrorFree(events) && Stream(events) == whole ==>
      Receive("", events).Complete? && ParseStatusLine(Receive("", events).bytes) == ParseStatusLine(whole)
  }

  /** Every chunking of a response gives the status of the whole response,
      exactly when its first line ends within the limit (or has no status). */
  lemma ChunkingIndependentIff(whole: string)
    ensures ChunkingIndependent(whole) <==>
            ParseStatusLine(whole) == -1 || FindCrlf(whole).value + 2 <= 65537
  {
    hide ParseLine, FindCrlf, ErrorFree;
    var early := FindCrlf(whole).Some? && FindCrlf(whole).value + 2 <= RESPONSE_LIMIT + 1;
    if ParseStatusLine(whole) == -1 || early {
      forall events | ErrorFree(events) && Stream(events) == whole
        ensures Receive("", events).Complete? && ParseStatusLine(Receive("", events).bytes) == ParseStatusLine(whole)
      {
        ReceivesPrefix("", events);
        assert "" + whole == whole;
        StatusOfPrefix(Receive("", events).bytes, whole);
      }
    } else {
      var events := OneByOne(whole);
      OneByOneReceives("", whole);
      assert "" + whole == whole;
      var got := Receive("", events).bytes;
      assert got <= whole;
      StatusOfPrefix(got, whole);
    }
  }

  // -------------------------------------------------------- status lines read

  lemma FindBehind(a: string, c: char, b: string)
    requires c !in a
    ensures Find(a + ([c] + b), c) == Some(|a|)
  {
    assert (a + ([c] + b))[..|a|] == a;
    FirstAt(a + ([c] + b), c, |a|);
  }

  /** Text without a line break. */
  predicate NoBreak(s: string) {
    FindCrlf(s).None?
  }

  /** The first line break of `a` followed by one is that of `a`, if it has any. */
  lemma {:induction false} BreakBehind(a: string, b: string)
    ensures FindCrlf(a + ("\r\n" + b)) == Some(match FindCrlf(a) case Some(k) => k case None => |a|)
  {
    var s := a + ("\r\n" + b);
    if a == "" {
      assert s == "\r\n" + b;
    } else {
      assert s[1..] == a[1..] + ("\r\n" + b);
      BreakBehind(a[1..], b);
    }
  }

  lemma {:induction false} BreakOfConcat(a: string, b: string)
    requires a == "" || a[|a| - 1] != '\r' || b == "" || b[0] != '\n'
    ensures NoBreak(a + b) <==> NoBreak(a) && NoBreak(b)
  {
    if a == "" {
      assert a + b == b;
    } else {
      assert (a + b)[1..] == a[1..] + b;
      BreakOfConcat(a[1..], b);
    }
  }

  lemma {:induction false} NoReturnNoBreak(s: string)
    requires '\r' !in s
    ensures NoBreak(s)
  {
    if s != "" {
      assert s[0] in s;
      NoReturnNoBreak(s[1..]);
    }
  }

  lemma StoiReads(code: nat)
    requires code < 0x8000_0000
    ensures Stoi(Digits(code)) == Some(code as int)
  {
    var s := Digits(code);
    ReadDigits(code);
    assert IsDigit(s[0]);
    SpanAll(s);
    assert s[0..] == s && s[..|s|] == s;
  }

  lemma {:induction false} SpanAll(s: string)
    requires AllDigits(s)
    ensures Json.DigitSpan(s) == |s|
  {
    if s != "" { SpanAll(s[1..]); }
  }

  lemma NoneIn(s: string, c: char)
    requires AllDigits(s) && !IsDigit(c)
    ensures c !in s
  {
  }

  lemma CodeTextReads(version: string, code: string, reason: string)
    requires ' ' !in version && ' ' !in code
    ensures CodeText(("HTTP/" + version) + (" " + (code + (" " + reason)))) == Some(code)
  {
    var front, back := "HTTP/" + version, code + (" " + reason);
    FindBehind(front, ' ', back);
    assert (front + (" " + back))[|front| + 1..] == back;
    FindBehind(code, ' ', reason);
    assert back[..|code|] == code;
  }

  lemma NoCarriageReturn(version: string, code: string, reason: string)
    requires '\r' !in version && '\r' !in code && '\r' !in reason
    ensures '\r' !in ("HTTP/" + version) + (" " + (code + (" " + reason)))
  {
  }

  /** A status line (RFC 9112, section 4) gives its code, whatever version,
      reason phrase and rest of the response surround it; success is 2xx. */
  lemma StatusLineReads(version: string, code: nat, reason: string, rest: string)
    requires ' ' !in version && '\r' !in version && '\r' !in reason && code < 0x8000_0000
    ensures var line := ("HTTP/" + version) + (" " + (Digits(code) + (" " + reason)));
            && ParseStatusLine(line + ("\r\n" + rest)) == code
            && (Verdict(line + ("\r\n" + rest)).ok <==> 200 <= code < 300)
  {
    hide Stoi, Digits, FindCrlf, CodeText;
    var line := ("HTTP/" + version) + (" " + (Digits(code) + (" " + reason)));
    ReadDigits(code);
    NoneIn(Digits(code), ' ');
    NoneIn(Digits(code), '\r');
    NoCarriageReturn(version, Digits(code), reason);
    NoReturnNoBreak(line);
    BreakBehind(line, rest);
    assert (line + ("\r\n" + rest))[..|line|] == line;
    CodeTextReads(version, Digits(code), reason);
    StoiReads(code);
    assert line[..5] == ("HTTP/" + version)[..5] == "HTTP/";
  }

  /** A line without a reason phrase, not even its space, gives its code too. */
  lemma ShortStatusLineReads(version: string, code: nat, rest: string)
    requires ' ' !in version && '\r' !in version && code < 0x8000_0000
    ensures ParseStatusLine(("HTTP/" + version) + (" " + Digits(code)) + ("\r\n" + rest)) == code
  {
    hide Stoi, Digits, FindCrlf, Find;
    var front, line := "HTTP/" + version, ("HTTP/" + version) + (" " + Digits(code));
    ReadDigits(code);
    NoneIn(Digits(code), ' ');
    NoneIn(Digits(code), '\r');
    NoReturnNoBreak(line);
    BreakBehind(line, rest);
    assert (line + ("\r\n" + rest))[..|line|] == line;
    FindBehind(front, ' ', Digits(code));
    assert line[|front| + 1..] == Digits(code);
    StoiReads(code);
    assert line[..5] == front[..5] == "HTTP/";
  }

  /** No complete first line, or one that does not begin with "HTTP/" or holds no
      space, gives -1. */
  lemma OtherLinesAreRefused(response: string)
    ensures FindCrlf(response).None? ==> ParseStatusLine(response) == -1
    ensures FindCrlf(response).Some? ==>
              var line := response[..FindCrlf(response).value];
              !Json.StartsWith(line, "HTTP/") || ' ' !in line ==> ParseStatusLine(response) == -1
  {
    hide FindCrlf, Stoi;
  }

  predicate AllSpaces(s: string) {
    forall i :: 0 <= i < |s| ==> IsSpace(s[i])
  }

  lemma {:induction false} SpacesSkipped(spaces: string, s: string)
    requires AllSpaces(spaces) && s != "" && !IsSpace(s[0])
    ensures SkipSpaces(spaces + s) == s
  {
    if spaces == "" {
      assert spaces + s == s;
    } else {
      assert (spaces + s)[1..] == spaces[1..] + s;
      SpacesSkipped(spaces[1..], s);
    }
  }

  lemma {:induction false} SpanBefore(a: string, b: string)
    requires AllDigits(a) && (b == "" || !IsDigit(b[0]))
    ensures Json.DigitSpan(a + b) == |a|
  {
    if a == "" {
      assert a + b == b;
    } else {
      assert (a + b)[1..] == a[1..] + b;
      SpanBefore(a[1..], b);
    }
  }

  /** `std::stoi` on any spaces, an optional sign, digits and anything behind them:
      the number with its sign, or none outside int32. */
  lemma StoiReadsSigned(spaces: string, sign: string, n: nat, rest: string)
    requires AllSpaces(spaces) && (sign == "" || sign == "+" || sign == "-")
    requires rest == "" || !IsDigit(rest[0])
    ensures var value: int := if sign == "-" then -(n as int) else n;
            Stoi(spaces + (sign + (Digits(n) + rest))) ==
            if -0x8000_0000 <= value <= 0x7FFF_FFFF then Some(value) else None
  {
    hide Digits;
    var digits := Digits(n);
    ReadDigits(n);
    assert IsDigit(digits[0]);
    var t := sign + (digits + rest);
    assert t[|sign|..] == digits + rest;
    assert t[0] == if sign == "" then digits[0] else sign[0];
    SpacesSkipped(spaces, t);
    SpanBefore(digits, rest);
    assert (digits + rest)[..|digits|] == digits;
  }

  // ------------------------------------------------------------- the request

  function HostText(url: HttpUrl.Url): string {
    if url.port != "80" then url.host + (":" + url.port) else url.host
  }

  /** The head of the request, line by line. */
  function HeadLines(url: HttpUrl.Url, size: nat): seq<string> {
    ["POST " + url.path + " HTTP/1.1",
     "Host: " + HostText(url),
     "User-Agent: vehicle_detection/1.0.0",
     "Content-Type: application/json",
     "Content-Length: " + Digits(size),
     "Connection: close",
     "Accept: */*"]
  }

  function JoinLines(lines: seq<string>): string {
    if lines == [] then "" else lines[0] + ("\r\n" + JoinLines(lines[1..]))
  }

  function Request(url: HttpUrl.Url, body: string): string {
    JoinLines(HeadLines(url, |body|)) + ("\r\n" + body)
  }

  /** A receiver (RFC 9112, sections 2 and 6): header lines up to the first empty
      line, then as many bytes as `Content-Length` says. */
  function ReadHead(s: string): (r: Option<(seq<string>, string)>)
    decreases |s|
  {
    match FindCrlf(s)
    case None => None
    case Some(eol) =>
      if eol == 0 then Some(([], s[2..]))
      else
        match ReadHead(s[eol + 2..])
        case None => None
        case Some((lines, rest)) => Some(([s[..eol]] + lines, rest))
  }

  const LENGTH_FIELD := "Content-Length: "

  function DeclaredLength(lines: seq<string>): Option<nat> {
    if lines == [] then None
    else if Json.StartsWith(lines[0], LENGTH_FIELD) then
      var digits := lines[0][|LENGTH_FIELD|..];
      if digits != "" && AllDigits(digits) then Some(ValueOf(digits)) else None
    else DeclaredLength(lines[1..])
  }

  function ReadBody(request: string): Option<string> {
    match ReadHead(request)
    case None => None
    case Some((lines, rest)) =>
      match DeclaredLength(lines)
      case None => None
      case Some(n) => if |rest| >= n then Some(rest[..n]) else None
  }

  lemma {:induction false} LinesReadIff(lines: seq<string>, rest: string)
    requires forall i :: 0 <= i < |lines| ==> lines[i] != ""
    ensures ReadHead(JoinLines(lines) + ("\r\n" + rest)) == Some((lines, rest))
       <==> forall i :: 0 <= i < |lines| ==> NoBreak(lines[i])
  {
    hide FindCrlf;
    var s := JoinLines(lines) + ("\r\n" + rest);
    if lines == [] {
      assert s == "" + ("\r\n" + rest);
      NoReturnNoBreak("");
      BreakBehind("", rest);
      assert s[2..] == rest;
    } else {
      var first, more := lines[0], JoinLines(lines[1..]) + ("\r\n" + rest);
      assert s == first + ("\r\n" + more);
      BreakBehind(first, more);
      if NoBreak(first) {
        assert s[..|first|] == first && s[|first| + 2..] == more;
        LinesReadIff(lines[1..], rest);
        assert lines == [first] + lines[1..];
      }
    }
  }

  lemma FirstDiffers(line: string, c: char)
    requires line != "" && line[0] == c && c != 'C'
    ensures !Json.StartsWith(line, LENGTH_FIELD)
  {
    Differs(line, 0);
  }

  lemma Differs(line: string, k: nat)
    requires k < |line| && k < |LENGTH_FIELD| && line[k] != LENGTH_FIELD[k]
    ensures !Json.StartsWith(line, LENGTH_FIELD)
  {
    if Json.StartsWith(line, LENGTH_FIELD) { PrefixAgrees(line, LENGTH_FIELD, k); }
  }

  lemma PrefixAgrees(line: string, prefix: string, k: nat)
    requires Json.StartsWith(line, prefix) && k < |prefix|
    ensures line[k] == prefix[k]
  {
    assert line[..|prefix|][k] == line[k];
  }

  lemma LengthDeclared(url: HttpUrl.Url, size: nat)
    ensures DeclaredLength(HeadLines(url, size)) == Some(size)
  {
    hide Digits;
    var lines := HeadLines(url, size);
    FirstDiffers(lines[0], 'P');
    FirstDiffers(lines[1], 'H');
    FirstDiffers(lines[2], 'U');
    Differs(lines[3], 8);
    ReadDigits(size);
    assert lines[4][..|LENGTH_FIELD|] == LENGTH_FIELD && lines[4][|LENGTH_FIELD|..] == Digits(size);
    assert lines[1..][1..][1..][1..][0] == lines[4];
    assert lines[1..][0] == lines[1] && lines[1..][1..][0] == lines[2] && lines[1..][1..][1..][0] == lines[3];
    assert DeclaredLength(lines[1..][1..][1..][1..]) == Some(size);
    assert DeclaredLength(lines[1..][1..]) == Some(size);
  }

  /** Free of line breaks. The parser does not insist on it. */
  predicate Writable(url: HttpUrl.Url) {
    NoBreak(url.host) && NoBreak(url.port) && NoBreak(url.path)
  }

  /** The receiver reads back the seven lines written and the body behind them
      exactly for URLs free of line breaks, whatever the body. */
  lemma RequestReadsIff(url: HttpUrl.Url, body: string)
    ensures ReadHead(Request(url, body)) == Some((HeadLines(url, |body|), body)) <==> Writable(url)
  {
    hide Digits, ReadHead, JoinLines, NoBreak;
    var lines := HeadLines(url, |body|);
    HeadIsClean(url, |body|);
    LinesReadIff(lines, body);
    if Writable(url) {
      forall i | 0 <= i < |lines| ensures NoBreak(lines[i]) {}
    } else {
      assert !NoBreak(lines[0]) || !NoBreak(lines[1]);
    }
  }

  /** A receiver that frames by the blank line and `Content-Length` gets exactly
      the body, for every body and every URL free of line breaks. */
  lemma RequestFramesBody(url: HttpUrl.Url, body: string)
    requires Writable(url)
    ensures ReadBody(Request(url, body)) == Some(body)
  {
    hide Digits, DeclaredLength, ReadHead, Request, HeadLines, Writable;
    LengthDeclared(url, |body|);
    RequestReadsIff(url, body);
    assert body[..|body|] == body;
  }

  lemma HeadIsClean(url: HttpUrl.Url, size: nat)
    ensures var lines := HeadLines(url, size);
            && (NoBreak(lines[0]) <==> NoBreak(url.path))
            && (NoBreak(lines[1]) <==> NoBreak(url.host) && NoBreak(url.port))
            && forall i :: 2 <= i < |lines| ==> NoBreak(lines[i])
  {
    hide Digits, HostText, FindCrlf;
    AgentLineIsClean();
    FixedLinesAreClean();
    FixedPiecesAreClean();
    BreakOfConcat("POST ", url.path);
    BreakOfConcat("POST " + url.path, " HTTP/1.1");
    HostIsClean(url);
    BreakOfConcat("Host: ", HostText(url));
    ReadDigits(size);
    NoneIn(Digits(size), '\r');
    NoReturnNoBreak(Digits(size));
    BreakOfConcat("Content-Length: ", Digits(size));
  }

  lemma AgentLineIsClean()
    ensures NoBreak("User-Agent: vehicle_detection/1.0.0")
  {
    hide NoBreak;
    NoReturnNoBreak("User-Agent: vehicle_detection/1.0.0");
  }

  lemma FixedLinesAreClean()
    ensures NoBreak("Content-Type: application/json") && NoBreak("Connection: close") && NoBreak("Accept: */*")
  {
    hide NoBreak;
    NoReturnNoBreak("Content-Type: application/json");
    NoReturnNoBreak("Connection: close");
    NoReturnNoBreak("Accept: */*");
  }

  lemma FixedPiecesAreClean()
    ensures NoBreak("POST ") && NoBreak(" HTTP/1.1") && NoBreak("Host: ") && NoBreak("Content-Length: ")
    ensures NoBreak(":") && NoBreak("80")
  {
    hide NoBreak;
    NoReturnNoBreak("POST ");
    NoReturnNoBreak(" HTTP/1.1");
    NoReturnNoBreak("Host: ");
    NoReturnNoBreak("Content-Length: ");
    NoReturnNoBreak(":");
    NoReturnNoBreak("80");
  }

  lemma HostIsClean(url: HttpUrl.Url)
    ensures NoBreak(HostText(url)) <==> NoBreak(url.host) && NoBreak(url.port)
  {
    hide FindCrlf;
    FixedPiecesAreClean();
    BreakOfConcat(":", url.port);
    BreakOfConcat(url.host, ":" + url.port);
  }

  // ------------------------------------------- line breaks seen by the caller

  lemma AuthorityBreaks(a: string, host: string, port: string)
    requires HttpUrl.SpellsAuthority(a, host, port)
    ensures NoBreak(a) <==> NoBreak(host) && NoBreak(port)
  {
    hide FindCrlf;
    FixedPiecesAreClean();
    BracketsAreClean();
    if a == host && port == "80" {
    } else if a == host + (":" + port) {
      BreakOfConcat(":", port);
      BreakOfConcat(host, ":" + port);
    } else if a == "[" + (host + "]") {
      BreakOfConcat(host, "]");
      BreakOfConcat("[", host + "]");
    } else {
      BreakOfConcat("]:", port);
      BreakOfConcat(host, "]:" + port);
      BreakOfConcat("[", host + ("]:" + port));
    }
  }

  lemma BracketsAreClean()
    ensures NoBreak("[") && NoBreak("]") && NoBreak("]:") && NoBreak("/") && NoBreak("http://")
  {
    hide NoBreak;
    NoReturnNoBreak("[");
    NoReturnNoBreak("]");
    NoReturnNoBreak("]:");
    NoReturnNoBreak("/");
    NoReturnNoBreak("http://");
  }

  /** The parts of an accepted URL are free of line breaks exactly when the
      endpoint it was parsed from is. */
  lemma WritableIff(endpoint: string, u: HttpUrl.Url)
    requires HttpUrl.ParseHttpUrl(endpoint) == Some(u)
    ensures Writable(u) <==> NoBreak(endpoint)
  {
    hide FindCrlf, NoBreak, HttpUrl.SpellsAuthority, HttpUrl.ParseHttpUrl;
    HttpUrl.ParseInvertsSpelling(endpoint, u);
    var a, p :| endpoint == HttpUrl.SCHEME + (a + p) && '/' !in a
                && HttpUrl.SpellsAuthority(a, u.host, u.port) && HttpUrl.SpellsPath(p, u.path);
    AuthorityBreaks(a, u.host, u.port);
    BracketsAreClean();
    NoReturnNoBreak("");
    BreakOfConcat(a, p);
    BreakOfConcat(HttpUrl.SCHEME, a + p);
  }

  /** ... so that is what decides whether requests to it are read as written. */
  lemma EndpointReadsIff(endpoint: string, u: HttpUrl.Url, body: string)
    requires HttpUrl.ParseHttpUrl(endpoint) == Some(u)
    ensures ReadHead(Request(u, body)) == Some((HeadLines(u, |body|), body)) <==> NoBreak(endpoint)
  {
    hide Writable, NoBreak, ReadHead, Request, HeadLines, HttpUrl.ParseHttpUrl;
    WritableIff(endpoint, u);
    RequestReadsIff(u, body);
  }

  /** Endpoints that are not do pass the parser. */
  lemma LineBreakIsAccepted()
    ensures HttpUrl.ParseHttpUrl("http://a/\r\n") == Some(HttpUrl.Url("a", "80", "/\r\n"))
    ensures !NoBreak("http://a/\r\n")
  {
    hide HttpUrl.ParseHttpUrl, NoBreak, FindCrlf, HttpUrl.SpellsAuthority;
    var u := HttpUrl.Url("a", "80", "/\r\n");
    assert "http://a/\r\n" == HttpUrl.SCHEME + ("a" + u.path);
    LetterSpells();
    HttpUrl.SpelledParses("http://a/\r\n", "a", u.path, u);
    WritableIff("http://a/\r\n", u);
    PathBreaks();
  }

  lemma LetterSpells()
    ensures HttpUrl.SpellsAuthority("a", "a", "80") && '/' !in "a"
  {
  }

  lemma PathBreaks()
    ensures !NoBreak("/\r\n")
  {
    assert "/\r\n"[1..] == "\r\n";
  }

  // -------------------------------------------------- what the head says

  /** Method, target and version of a request line. */
  function ReadRequestLine(line: string): Option<(string, string, string)> {
    match (Find(line, ' '), FindLast(line, ' '))
    case (Some(i), Some(j)) => if i < j then Some((line[..i], line[i + 1..j], line[j + 1..])) else None
    case _ => None
  }

  /** Value of the first field of that name. */
  function Field(lines: seq<string>, name: string): Option<string> {
    if lines == [] then None
    else if Json.StartsWith(lines[0], name + ": ") then Some(lines[0][|name| + 2..])
    else Field(lines[1..], name)
  }

  lemma RequestLineReads(path: string)
    ensures ReadRequestLine("POST " + path + " HTTP/1.1") == Some(("POST", path, "HTTP/1.1"))
  {
    var line := "POST " + path + " HTTP/1.1";
    assert line[..4] == "POST";
    FirstAt(line, ' ', 4);
    var j := |path| + 5;
    assert line[j + 1..] == "HTTP/1.1";
    LastAt(line, ' ', j);
    assert line[5..j] == path;
  }

  lemma FieldHere(lines: seq<string>, name: string, value: string)
    requires lines != [] && lines[0] == name + ": " + value
    ensures Field(lines, name) == Some(value)
  {
    assert lines[0][..|name| + 2] == name + ": ";
  }

  lemma FieldBehind(lines: seq<string>, name: string)
    requires lines != [] && lines[0] != "" && name != "" && lines[0][0] != name[0]
    ensures Field(lines, name) == Field(lines[1..], name)
  {
    if Json.StartsWith(lines[0], name + ": ") { PrefixAgrees(lines[0], name + ": ", 0); }
  }

  lemma HostFieldReads(url: HttpUrl.Url, size: nat)
    ensures Field(HeadLines(url, size), "Host") == Some(HostText(url))
  {
    hide Digits, HostText, Field;
    var lines := HeadLines(url, size);
    FieldBehind(lines, "Host");
    FieldHere(lines[1..], "Host", HostText(url));
  }

  lemma TypeFieldReads(url: HttpUrl.Url, size: nat)
    ensures Field(HeadLines(url, size), "Content-Type") == Some("application/json")
  {
    hide Digits, HostText, Field;
    var lines := HeadLines(url, size);
    FieldBehind(lines, "Content-Type");
    FieldBehind(lines[1..], "Content-Type");
    FieldBehind(lines[1..][1..], "Content-Type");
    FieldHere(lines[1..][1..][1..], "Content-Type", "application/json");
  }

  /** What a receiver makes of the request to a URL free of line breaks: a POST of
      JSON to the path, for the host, and the body. */
  lemma RequestSays(url: HttpUrl.Url, body: string)
    requires Writable(url)
    ensures ReadHead(Request(url, body)).Some?
    ensures var (lines, rest) := ReadHead(Request(url, body)).value;
            && lines != [] && ReadRequestLine(lines[0]) == Some(("POST", url.path, "HTTP/1.1"))
            && Field(lines, "Host") == Some(HostText(url))
            && Field(lines, "Content-Type") == Some("application/json")
            && DeclaredLength(lines) == Some(|body|) && rest == body
  {
    hide Digits, ReadHead, Request, HostText, Field, Writable, DeclaredLength, ReadRequestLine;
    RequestReadsIff(url, body);
    RequestLineReads(url.path);
    HostFieldReads(url, |body|);
    TypeFieldReads(url, |body|);
    LengthDeclared(url, |body|);
  }

  /** The host named there is read back as host and port exactly for hosts that do
      not begin with a bracket and, of host and port, whichever is written last
      being free of colons. */
  lemma HostReadsBackIff(url: HttpUrl.Url)
    requires url.host != "" && url.port != ""
    ensures HttpUrl.SplitAuthority(HostText(url)) == Some((url.host, url.port)) <==>
            url.host[0] != '[' && ':' !in (if url.port == "80" then url.host else url.port)
  {
    hide HttpUrl.SplitAuthority;
    var a := HostText(url);
    if HttpUrl.SplitAuthority(a) == Some((url.host, url.port)) {
      HttpUrl.SplitAuthoritySpells(a, url.host, url.port);
    } else if HttpUrl.SpellsAuthority(a, url.host, url.port) {
      HttpUrl.SpelledAuthoritySplits(a, url.host, url.port);
    }
    if url.port == "80" { assert a == url.host; } else { assert |a| == |url.host| + 1 + |url.port|; }
  }

  /** Bracketed addresses lose their brackets: without a port the last colon of the
      address is taken for the one in front of a port. */
  lemma BracketsAreLost()
    ensures HttpUrl.ParseHttpUrl("http://[::1]/") == Some(HttpUrl.Url("::1", "80", "/"))
    ensures HttpUrl.SplitAuthority(HostText(HttpUrl.Url("::1", "80", "/"))) == Some((":", "1"))
  {
    hide HttpUrl.ParseHttpUrl, Find, FindLast;
    assert "http://[::1]/" == HttpUrl.SCHEME + ("[::1]" + "/");
    AddressSpells();
    HttpUrl.SpelledParses("http://[::1]/", "[::1]", "/", HttpUrl.Url("::1", "80", "/"));
    var a := "::1";
    assert a[2..] == "1" && a[..1] == ":";
    LastAt(a, ':', 1);
  }

  lemma AddressSpells()
    ensures HttpUrl.SpellsAuthority("[::1]", "::1", "80") && '/' !in "[::1]"
  {
    assert "[" + ("::1" + "]") == "[::1]";
  }
}
