/** A reference parser for JSON texts (RFC 8259, sections 2 to 7), written
    from the standard and independent of the printer it judges.

    A number keeps its lexeme; `NumberFormat` gives lexemes their value. */
module Json {
  import opened Prelude
  import opened Decimal
  import opened JsonEscape
  import Unicode

  datatype Json =
    | Null
    | Bool(b: bool)
    | Num(lexeme: string)
    | Str(text: string)
    | Arr(items: seq<Json>)
    | Obj(members: seq<(string, Json)>)

  // -------------------------------------------------- section 2: structure

  predicate IsWs(c: char) {
    c == ' ' || c == '\t' || c == '\n' || c == '\r'
  }

  function SkipWs(s: string): (r: string)
    ensures |r| <= |s|
  {
    if s != "" && IsWs(s[0]) then SkipWs(s[1..]) else s
  }

  predicate StartsWith(s: string, prefix: string) {
    |prefix| <= |s| && s[..|prefix|] == prefix
  }

  // -------------------------------------------------- section 6: numbers

  function DigitSpan(s: string): (n: nat)
    ensures n <= |s| && AllDigits(s[..n]) && (n < |s| ==> !IsDigit(s[n]))
  {
    if s != "" && IsDigit(s[0]) then
      var n := DigitSpan(s[1..]);
      assert s[..n + 1] == [s[0]] + s[1..][..n];
      1 + n
    else 0
  }

  /** End of `int`, which starts at `i`. */
  function IntEnd(s: string, i: nat): (r: Option<nat>)
    requires i <= |s|
    ensures r.Some? ==> i < r.value <= |s|
  {
    var d := DigitSpan(s[i..]);
    if d == 0 then None
    else if s[i] == '0' then Some(i + 1)
    else Some(i + d)
  }

  /** End of the optional `frac` at `j`. */
  function FracEnd(s: string, j: nat): (r: Option<nat>)
    requires j <= |s|
    ensures r.Some? ==> j <= r.value <= |s|
  {
    if j < |s| && s[j] == '.' then
      var d := DigitSpan(s[j + 1..]);
      if d == 0 then None else Some(j + 1 + d)
    else Some(j)
  }

  /** First digit of an exponent that starts at `k`. */
  function ExpDigits(s: string, k: nat): (l: nat)
    requires k < |s|
    ensures k < l <= |s|
  {
    if k + 1 < |s| && (s[k + 1] == '+' || s[k + 1] == '-') then k + 2 else k + 1
  }

  /** End of the optional `exp` at `k`. */
  function ExpEnd(s: string, k: nat): (r: Option<nat>)
    requires k <= |s|
    ensures r.Some? ==> k <= r.value <= |s|
  {
    if k < |s| && (s[k] == 'e' || s[k] == 'E') then
      var l := ExpDigits(s, k);
      var d := DigitSpan(s[l..]);
      if d == 0 then None else Some(l + d)
    else Some(k)
  }

  function SignEnd(s: string): (i: nat)
    ensures i <= |s|
  {
    if s != "" && s[0] == '-' then 1 else 0
  }

  /** Length of the number at the start of `s`. */
  function NumberLength(s: string): (r: Option<nat>)
    ensures r.Some? ==> 0 < r.value <= |s|
  {
    match IntEnd(s, SignEnd(s))
    case None => None
    case Some(j) =>
      match FracEnd(s, j)
      case None => None
      case Some(k) => ExpEnd(s, k)
  }

  predicate IsNumber(t: string) {
    NumberLength(t) == Some(|t|)
  }

  // -------------------------------------------------- section 7: strings

  function HexValue(c: char): Option<nat> {
    if '0' <= c <= '9' then Some(c as int - '0' as int)
    else if 'a' <= c <= 'f' then Some(c as int - 'a' as int + 10)
    else if 'A' <= c <= 'F' then Some(c as int - 'A' as int + 10)
    else None
  }

  function Hex4(s: string): Option<nat> {
    if |s| < 4 then None
    else
      match (HexValue(s[0]), HexValue(s[1]), HexValue(s[2]), HexValue(s[3]))
      case (Some(a), Some(b), Some(c), Some(d)) => Some(((a * 16 + b) * 16 + c) * 16 + d)
      case _ => None
  }

  function SimpleEscape(c: char): Option<char> {
    if c == '"' || c == '\\' || c == '/' then Some(c)
    else if c == 'b' then Some(0x08 as char)
    else if c == 'f' then Some(0x0C as char)
    else if c == 'n' then Some('\n')
    else if c == 'r' then Some('\r')
    else if c == 't' then Some('\t')
    else None
  }

  /** The escape sequence at the start of `s` (behind its backslash): decoded
      bytes and length. An unpaired surrogate is refused. */
  function EscapeSequence(s: string): (r: Option<(string, nat)>)
    ensures r.Some? ==> 0 < r.value.1 <= |s|
  {
    if s == "" then None
    else if s[0] != 'u' then
      match SimpleEscape(s[0])
      case None => None
      case Some(c) => Some(([c], 1))
    else
      match Hex4(s[1..])
      case None => None
      case Some(u) =>
        if 0xD800 <= u < 0xDC00 then
          if |s| >= 11 && s[5] == '\\' && s[6] == 'u' then
            match Hex4(s[7..])
            case Some(v) =>
              if 0xDC00 <= v < 0xE000 then
                Some((Unicode.Utf8(0x10000 + (u - 0xD800) * 1024 + (v - 0xDC00)), 11))
              else None
            case None => None
          else None
        else if 0xDC00 <= u < 0xE000 || u >= 0x110000 then None
        else Some((Unicode.Utf8(u), 5))
  }

  /** The rest of a string behind its opening quote: decoded text, and what
      follows the closing quote. */
  function ParseChars(s: string): (r: Option<(string, string)>)
    ensures r.Some? ==> |r.value.1| < |s|
    decreases |s|
  {
    if s == "" then None
    else if s[0] == '"' then Some(("", s[1..]))
    else if s[0] == '\\' then
      match EscapeSequence(s[1..])
      case None => None
      case Some((text, n)) =>
        match ParseChars(s[1 + n..])
        case None => None
        case Some((more, rest)) => Some((text + more, rest))
    else if s[0] as int < 0x20 then None
    else
      match ParseChars(s[1..])
      case None => None
      case Some((more, rest)) => Some(([s[0]] + more, rest))
  }

  // ------------------------------------------ sections 3 to 5: values

  function ParseValue(s: string): (r: Option<(Json, string)>)
    ensures r.Some? ==> |r.value.1| < |s|
    decreases |s|, 0
  {
    var t := SkipWs(s);
    if t == "" then None
    else if t[0] == '{' then
      var u := SkipWs(t[1..]);
      if u != "" && u[0] == '}' then Some((Obj([]), u[1..]))
      else
        match ParseMembers(u)
        case None => None
        case Some((members, rest)) => Some((Obj(members), rest))
    else if t[0] == '[' then
      var u := SkipWs(t[1..]);
      if u != "" && u[0] == ']' then Some((Arr([]), u[1..]))
      else
        match ParseItems(u)
        case None => None
        case Some((items, rest)) => Some((Arr(items), rest))
    else if t[0] == '"' then
      match ParseChars(t[1..])
      case None => None
      case Some((text, rest)) => Some((Str(text), rest))
    else if StartsWith(t, "null") then Some((Null, t[4..]))
    else if StartsWith(t, "true") then Some((Bool(true), t[4..]))
    else if StartsWith(t, "false") then Some((Bool(false), t[5..]))
    else
      match NumberLength(t)
      case None => None
      case Some(n) => Some((Num(t[..n]), t[n..]))
  }

  /** One or more members and the closing brace. */
  function ParseMembers(s: string): (r: Option<(seq<(string, Json)>, string)>)
    ensures r.Some? ==> |r.value.1| < |s|
    decreases |s|, 1
  {
    var t := SkipWs(s);
    if t == "" || t[0] != '"' then None
    else
      match ParseChars(t[1..])
      case None => None
      case Some((key, afterKey)) =>
        var u := SkipWs(afterKey);
        if u == "" || u[0] != ':' then None
        else
          match ParseValue(u[1..])
          case None => None
          case Some((value, afterValue)) =>
            var v := SkipWs(afterValue);
            if v == "" then None
            else if v[0] == '}' then Some(([(key, value)], v[1..]))
            else if v[0] == ',' then
              match ParseMembers(v[1..])
              case None => None
              case Some((more, rest)) => Some(([(key, value)] + more, rest))
            else None
  }

  /** One or more array elements and the closing bracket. */
  function ParseItems(s: string): (r: Option<(seq<Json>, string)>)
    ensures r.Some? ==> |r.value.1| < |s|
    decreases |s|, 1
  {
    match ParseValue(s)
    case None => None
    case Some((value, afterValue)) =>
      var v := SkipWs(afterValue);
      if v == "" then None
      else if v[0] == ']' then Some(([value], v[1..]))
      else if v[0] == ',' then
        match ParseItems(v[1..])
        case None => None
        case Some((more, rest)) => Some(([value] + more, rest))
      else None
  }

  function ParseText(s: string): Option<Json> {
    match ParseValue(s)
    case None => None
    case Some((value, rest)) => if SkipWs(rest) == "" then Some(value) else None
  }

  // ------------------------------------------------ the compact text of a tree

  function Quoted(s: string): string {
    "\"" + (Escape(s) + "\"")
  }

  function Compact(j: Json): string
    decreases j, 0
  {
    match j
    case Null => "null"
    case Bool(b) => if b then "true" else "false"
    case Num(t) => t
    case Str(text) => Quoted(text)
    case Arr(items) => "[" + (CompactItems(items) + "]")
    case Obj(members) => "{" + (CompactMembers(members) + "}")
  }

  function CompactItems(items: seq<Json>): string
    decreases items, 0
  {
    if items == [] then ""
    else if |items| == 1 then Compact(items[0])
    else Compact(items[0]) + ("," + CompactItems(items[1..]))
  }

  function CompactMember(m: (string, Json)): string
    decreases m, 1
  {
    Quoted(m.0) + (":" + Compact(m.1))
  }

  function CompactMembers(members: seq<(string, Json)>): string
    decreases members, 0
  {
    if members == [] then ""
    else if |members| == 1 then CompactMember(members[0])
    else CompactMember(members[0]) + ("," + CompactMembers(members[1..]))
  }
}
