/** The reference parser inverts the compact text of every tree whose lexemes
    are numbers, and refuses the text as soon as one lexeme is cut off right
    behind its decimal point. */
module JsonRoundTrip {
  import opened Prelude
  import opened Decimal
  import opened JsonEscape
  import opened Json

  // ---------------------------------------------------------------- strings

  lemma HexPair(n: nat)
    requires n < 0x20
    ensures Hex4(['0', '0', HexDigit(n / 16), HexDigit(n % 16)]) == Some(n)
  {
    assert HexValue('0') == Some(0);
    assert HexValue(HexDigit(n / 16)) == Some(n / 16);
    assert HexValue(HexDigit(n % 16)) == Some(n % 16);
  }

  lemma EscapeDecodes(c: char, tail: string)
    requires EscapeChar(c) != [c]
    ensures EscapeChar(c) != "" && EscapeChar(c)[0] == '\\'
    ensures EscapeSequence(EscapeChar(c)[1..] + tail) == Some(([c], |EscapeChar(c)| - 1))
  {
    var s := EscapeChar(c)[1..] + tail;
    if s[0] == 'u' {
      HexPair(c as int);
      assert s[1..][..4] == ['0', '0', HexDigit(c as int / 16), HexDigit(c as int % 16)];
      assert Hex4(s[1..]) == Some(c as int);
    }
  }

  /** The decoded text of `s` with `text` in front. */
  function InFront(text: string, parsed: Option<(string, string)>): Option<(string, string)> {
    match parsed
    case None => None
    case Some((more, rest)) => Some((text + more, rest))
  }

  lemma PlainParses(c: char, s: string)
    requires EscapeChar(c) == [c]
    ensures ParseChars([c] + s) == InFront([c], ParseChars(s))
  {
    assert ([c] + s)[1..] == s;
  }

  lemma SequenceParses(e: string, s: string, text: string)
    requires EscapeSequence(e + s) == Some((text, |e|))
    ensures ParseChars("\\" + (e + s)) == InFront(text, ParseChars(s))
  {
    var all := "\\" + (e + s);
    assert all[1..] == e + s && all[1 + |e|..] == s;
  }

  lemma {:induction false} CharsParse(x: string, rest: string)
    ensures ParseChars(Escape(x) + ("\"" + rest)) == Some((x, rest))
  {
    var tail := "\"" + rest;
    if x == "" {
      assert Escape(x) + tail == tail;
      assert tail[1..] == rest;
    } else {
      CharsParse(x[1..], rest);
      var e, more := EscapeChar(x[0]), Escape(x[1..]) + tail;
      Assoc(e, Escape(x[1..]), tail);
      assert x == [x[0]] + x[1..];
      if e == [x[0]] {
        PlainParses(x[0], more);
      } else {
        EscapeDecodes(x[0], more);
        assert e == "\\" + e[1..];
        Assoc("\\", e[1..], more);
        SequenceParses(e[1..], more, [x[0]]);
      }
    }
  }

  lemma HexNeedsDigits(s: string, k: nat)
    requires k < 4 && k < |s| && s[k] == '"'
    ensures Hex4(s) == None
  {
  }

  lemma OneCharacter(text: string, more: string, c: char)
    requires text != "" && text + more == [c]
    ensures text == [c]
  {
    assert (text + more)[0] == text[0];
  }

  lemma SequenceIsText(s: string)
    ensures EscapeSequence(s).Some? ==> EscapeSequence(s).value.0 != ""
  {
  }

  lemma EscapedParses(s: string)
    requires s != "" && s[0] == '\\'
    ensures ParseChars(s) == match EscapeSequence(s[1..])
                             case None => None
                             case Some((text, n)) => InFront(text, ParseChars(s[1 + n..]))
  {
  }

  /** Text that is read as one character begins with it, unless it begins with a
      backslash and its escape sequence. */
  lemma FirstPiece(s: string, c: char, rest: string)
    requires ParseChars(s) == Some(([c], rest))
    ensures s != "" && s[0] != '"'
    ensures s[0] != '\\' ==> s[0] == c && c as int >= 0x20
    ensures s[0] == '\\' ==> EscapeSequence(s[1..]).Some? && EscapeSequence(s[1..]).value.0 == [c]
  {
    if s[0] == '\\' {
      hide ParseChars, EscapeSequence;
      EscapedParses(s);
      SequenceIsText(s[1..]);
      var (text, n) := EscapeSequence(s[1..]).value;
      OneCharacter(text, ParseChars(s[1 + n..]).value.0, c);
    } else if s[0] != '"' {
      OneCharacter([s[0]], ParseChars(s[1..]).value.0, c);
    }
  }

  /** Only the two-character sequences are shorter than a `\u` sequence. */
  lemma ShortSequence(s: string, c: char)
    requires EscapeSequence(s).Some? && EscapeSequence(s).value.0 == [c]
    ensures s != "" && (s[0] != 'u' ==> |EscapeChar(c)| <= 2)
    ensures s[0] == 'u' ==> Hex4(s[1..]).Some?
  {
  }

  lemma EscapeLength(c: char)
    ensures 1 <= |EscapeChar(c)| <= 6
    ensures c as int >= 0x20 && c != '"' && c != '\\' ==> |EscapeChar(c)| == 1
  {
  }

  lemma CutSequence(e: string, rest: string)
    requires 2 <= |e| < 6
    ensures Hex4((e + ("\"" + rest))[1..][1..]) == None
  {
    hide Hex4;
    var s := e + ("\"" + rest);
    assert s[|e|] == '"';
    assert s[1..][1..][|e| - 2] == s[|e|];
    HexNeedsDigits(s[1..][1..], |e| - 2);
  }

  lemma QuoteEscaped(s: string, c: char, rest: string)
    requires |s| >= 2 && s[0] == '\\' && s[1] == '"' && s[2..] == rest
    ensures ParseChars(s) != Some(([c], rest))
  {
    EscapedParses(s);
  }

  /** A backslash alone escapes the closing quote, and the text goes on behind it. */
  lemma LoneBackslash(c: char, e: string, rest: string)
    requires |e| == 1 && e[0] == '\\'
    ensures ParseChars(e + ("\"" + rest)) != Some(([c], rest))
  {
    hide ParseChars;
    var s := e + ("\"" + rest);
    assert s[1] == '"' && s[2..] == rest;
    QuoteEscaped(s, c, rest);
  }

  lemma ShortestSequence(c: char, length: nat, s: string)
    requires EscapeSequence(s).Some? && EscapeSequence(s).value.0 == [c]
    requires 2 <= length && (length < 6 ==> Hex4(s[1..]) == None)
    ensures |EscapeChar(c)| <= length
  {
    hide EscapeSequence, Hex4, EscapeChar;
    EscapeLength(c);
    ShortSequence(s, c);
  }

  lemma FirstOf(e: string, rest: string)
    ensures (e + ("\"" + rest))[0] == if e == "" then '"' else e[0]
  {
  }

  /** No spelling of a character inside a string is shorter than the one printed. */
  lemma EscapeIsShortest(c: char, e: string, rest: string)
    requires ParseChars(e + ("\"" + rest)) == Some(([c], rest))
    ensures |EscapeChar(c)| <= |e|
  {
    hide ParseChars, EscapeSequence, Hex4, EscapeChar;
    EscapeLength(c);
    FirstOf(e, rest);
    FirstPiece(e + ("\"" + rest), c, rest);
    if e != "" && e[0] == '\\' {
      if |e| == 1 {
        LoneBackslash(c, e, rest);
      } else {
        if |e| < 6 { CutSequence(e, rest); }
        ShortestSequence(c, |e|, (e + ("\"" + rest))[1..]);
      }
    }
  }

  lemma QuotedParses(x: string, rest: string)
    ensures Quoted(x) + rest == "\"" + (Escape(x) + ("\"" + rest))
    ensures ParseChars((Quoted(x) + rest)[1..]) == Some((x, rest))
  {
    CharsParse(x, rest);
    assert Quoted(x) + rest == "\"" + (Escape(x) + ("\"" + rest));
  }

  // ---------------------------------------------------------------- numbers

  /** `rest` cannot continue a number. */
  predicate Delimited(rest: string) {
    rest != "" ==> !IsDigit(rest[0]) && rest[0] !in ".eE+-"
  }

  /** An integer cut off behind its decimal point. */
  predicate Dotted(t: string) {
    t != "" && t[|t| - 1] == '.' && IntEnd(t, SignEnd(t)) == Some((|t| - 1) as nat)
  }

  lemma {:induction false} SpanExtends(a: string, b: string)
    requires DigitSpan(a) < |a| || b == "" || !IsDigit(b[0])
    ensures DigitSpan(a + b) == DigitSpan(a)
  {
    if a == "" {
      assert a + b == b;
    } else if IsDigit(a[0]) {
      assert (a + b)[1..] == a[1..] + b;
      SpanExtends(a[1..], b);
    }
  }

  lemma IntEndExtends(t: string, rest: string)
    requires IntEnd(t, SignEnd(t)).Some?
    requires rest == "" || !IsDigit(rest[0])
    ensures SignEnd(t + rest) == SignEnd(t) && IntEnd(t + rest, SignEnd(t)) == IntEnd(t, SignEnd(t))
  {
    var i := SignEnd(t);
    assert (t + rest)[i..] == t[i..] + rest;
    SpanExtends(t[i..], rest);
  }

  lemma FracEndExtends(t: string, rest: string, j: nat)
    requires j <= |t| && FracEnd(t, j).Some? && Delimited(rest)
    ensures FracEnd(t + rest, j) == FracEnd(t, j)
  {
    if j < |t| && t[j] == '.' {
      assert (t + rest)[j + 1..] == t[j + 1..] + rest;
      SpanExtends(t[j + 1..], rest);
    }
  }

  lemma ExpDigitsExtend(t: string, rest: string, k: nat)
    requires k < |t| && Delimited(rest)
    ensures ExpDigits(t + rest, k) == ExpDigits(t, k)
  {
  }

  lemma ExpEndExtends(t: string, rest: string, k: nat)
    requires k <= |t| && ExpEnd(t, k) == Some(|t|) && Delimited(rest)
    ensures ExpEnd(t + rest, k) == Some(|t|)
  {
    hide DigitSpan;
    if k < |t| {
      var l := ExpDigits(t, k);
      ExpDigitsExtend(t, rest, k);
      assert (t + rest)[l..] == t[l..] + rest;
      SpanExtends(t[l..], rest);
    }
  }

  lemma NumberThenRest(t: string, rest: string)
    requires IsNumber(t) && Delimited(rest)
    ensures NumberLength(t + rest) == Some(|t|)
  {
    IntEndExtends(t, rest);
    var j := IntEnd(t, SignEnd(t)).value;
    FracEndExtends(t, rest, j);
    ExpEndExtends(t, rest, FracEnd(t, j).value);
  }

  lemma DottedThenRest(t: string, rest: string)
    requires Dotted(t) && Delimited(rest)
    ensures NumberLength(t + rest) == None && !IsNumber(t)
  {
    IntEndExtends(t, rest);
    assert (t + rest)[|t|..] == rest;
    assert t[|t|..] == "";
  }

  lemma DottedIsNoNumber(t: string)
    requires Dotted(t)
    ensures !IsNumber(t)
  {
    DottedThenRest(t, "");
  }

  lemma NumberStart(t: string)
    requires IsNumber(t) || Dotted(t)
    ensures t != "" && (t[0] == '-' || IsDigit(t[0]))
  {
    var i := SignEnd(t);
    assert IntEnd(t, i).Some?;
    assert DigitSpan(t[i..]) > 0;
    assert t[i..][..DigitSpan(t[i..])][0] == t[i];
  }

  // ------------------------------------------------------------------ trees

  predicate Lexical(j: Json) {
    match j
    case Num(t) => IsNumber(t) || Dotted(t)
    case Arr(items) => forall i :: 0 <= i < |items| ==> Lexical(items[i])
    case Obj(members) => forall i :: 0 <= i < |members| ==> Lexical(members[i].1)
    case _ => true
  }

  predicate WellFormed(j: Json) {
    match j
    case Num(t) => IsNumber(t)
    case Arr(items) => forall i :: 0 <= i < |items| ==> WellFormed(items[i])
    case Obj(members) => forall i :: 0 <= i < |members| ==> WellFormed(members[i].1)
    case _ => true
  }

  predicate WellFormedItems(items: seq<Json>) {
    forall i :: 0 <= i < |items| ==> WellFormed(items[i])
  }

  predicate WellFormedMembers(members: seq<(string, Json)>) {
    forall i :: 0 <= i < |members| ==> WellFormed(members[i].1)
  }

  /** What the parser is to make of the text of a value. */
  function Reading<T>(ok: bool, value: T, rest: string): Option<(T, string)> {
    if ok then Some((value, rest)) else None
  }

  lemma {:induction false} CompactParses(j: Json, rest: string)
    requires Lexical(j) && Delimited(rest)
    ensures ParseValue(Compact(j) + rest) == Reading(WellFormed(j), j, rest)
    decreases j, 0
  {
    match j
    case Null =>
      LiteralParses(j, rest);
    case Bool(b) =>
      LiteralParses(j, rest);
    case Num(t) =>
      LexemeParses(t, rest);
    case Str(text) =>
      StringParses(text, rest);
    case Arr(items) =>
      var inner := CompactItems(items) + ("]" + rest);
      assert Compact(j) + rest == "[" + inner;
      if items == [] {
        EmptyParses(j, rest);
      } else {
        ItemsParse(items, rest);
        ItemsStart(items, "]" + rest);
        BracketParses("[" + inner, inner);
      }
    case Obj(members) =>
      var inner := CompactMembers(members) + ("}" + rest);
      assert Compact(j) + rest == "{" + inner;
      if members == [] {
        EmptyParses(j, rest);
      } else {
        MembersParse(members, rest);
        MembersStart(members, "}" + rest);
        BraceParses("{" + inner, inner);
      }
  }

  lemma EmptyParses(j: Json, rest: string)
    requires j == Arr([]) || j == Obj([])
    ensures ParseValue(Compact(j) + rest) == Some((j, rest))
  {
    var s := Compact(j) + rest;
    assert SkipWs(s) == s && s[1] == Compact(j)[1];
    assert SkipWs(s[1..]) == s[1..] && s[1..][1..] == rest;
  }

  lemma BracketParses(s: string, inner: string)
    requires s == "[" + inner && inner != "" && !IsWs(inner[0]) && inner[0] != ']'
    ensures ParseValue(s) == match ParseItems(inner)
                             case None => None
                             case Some((items, rest)) => Some((Arr(items), rest))
  {
    assert s[1..] == inner;
    assert SkipWs(s) == s;
  }

  lemma BraceParses(s: string, inner: string)
    requires s == "{" + inner && inner != "" && inner[0] == '"'
    ensures ParseValue(s) == match ParseMembers(inner)
                             case None => None
                             case Some((members, rest)) => Some((Obj(members), rest))
  {
    assert s[1..] == inner;
    assert SkipWs(s) == s;
  }

  lemma StartsLike(s: string, prefix: string)
    requires prefix != ""
    ensures StartsWith(s, prefix) ==> s[0] == prefix[0]
  {
    if StartsWith(s, prefix) { assert s[..|prefix|][0] == s[0]; }
  }

  lemma LiteralParses(j: Json, rest: string)
    requires j.Null? || j.Bool?
    ensures ParseValue(Compact(j) + rest) == Some((j, rest))
  {
    var s := Compact(j) + rest;
    assert s[..|Compact(j)|] == Compact(j) && s[|Compact(j)|..] == rest;
    assert SkipWs(s) == s;
    StartsLike(s, "null");
    StartsLike(s, "true");
  }

  lemma StringParses(text: string, rest: string)
    ensures ParseValue(Quoted(text) + rest) == Some((Str(text), rest))
  {
    QuotedParses(text, rest);
    var s := Quoted(text) + rest;
    assert s[0] == '"' && SkipWs(s) == s;
  }

  lemma LexemeParses(t: string, rest: string)
    requires (IsNumber(t) || Dotted(t)) && Delimited(rest)
    ensures ParseValue(t + rest) == Reading(IsNumber(t), Num(t), rest)
  {
    var s := t + rest;
    NumberStart(t);
    assert s[0] == t[0];
    NumericStart(s);
    if IsNumber(t) {
      NumberThenRest(t, rest);
      assert s[..|t|] == t && s[|t|..] == rest;
    } else {
      DottedThenRest(t, rest);
    }
  }

  lemma NumericStart(s: string)
    requires s != "" && (s[0] == '-' || IsDigit(s[0]))
    ensures ParseValue(s) == match NumberLength(s)
                             case None => None
                             case Some(n) => Some((Num(s[..n]), s[n..]))
  {
    assert SkipWs(s) == s;
    StartsLike(s, "null");
    StartsLike(s, "true");
    StartsLike(s, "false");
  }

  lemma ValueStart(j: Json)
    requires Lexical(j)
    ensures Compact(j) != "" && !IsWs(Compact(j)[0]) && Compact(j)[0] != ']'
  {
    if j.Num? { NumberStart(j.lexeme); }
  }

  lemma ItemsStart(items: seq<Json>, rest: string)
    requires items != [] && Lexical(items[0])
    ensures var s := CompactItems(items) + rest; s != "" && !IsWs(s[0]) && s[0] != ']'
  {
    ValueStart(items[0]);
  }

  lemma MembersStart(members: seq<(string, Json)>, rest: string)
    requires members != []
    ensures var s := CompactMembers(members) + rest; s != "" && s[0] == '"'
  {
  }

  lemma {:induction false} ItemsParse(items: seq<Json>, rest: string)
    requires items != [] && forall i :: 0 <= i < |items| ==> Lexical(items[i])
    ensures ParseItems(CompactItems(items) + ("]" + rest)) == Reading(WellFormedItems(items), items, rest)
    decreases items, 1
  {
    hide ParseItems, ParseValue, Compact, CompactItems, ContinueItems;
    var more := CompactItems(items[1..]) + ("]" + rest);
    var tail := if |items| == 1 then "]" + rest else "," + more;
    ItemsText(items, rest);
    CompactParses(items[0], tail);
    ItemParses(CompactItems(items) + ("]" + rest));
    NothingContinues("");
    if WellFormed(items[0]) {
      if |items| == 1 {
        ContinueItemsClosed(items[0], rest);
        assert items == [items[0]];
      } else {
        ContinueItemsComma(items[0], more);
        ItemsParse(items[1..], rest);
        assert items == [items[0]] + items[1..];
      }
    }
  }

  lemma ItemsText(items: seq<Json>, rest: string)
    requires items != []
    ensures var tail := if |items| == 1 then "]" + rest else "," + (CompactItems(items[1..]) + ("]" + rest));
            CompactItems(items) + ("]" + rest) == Compact(items[0]) + tail
  {
    if |items| > 1 {
      Assoc(Compact(items[0]), "," + CompactItems(items[1..]), "]" + rest);
      Assoc(",", CompactItems(items[1..]), "]" + rest);
    }
  }

  /** The end of an array, behind its first remaining element. */
  function ContinueItems(parsed: Option<(Json, string)>): Option<(seq<Json>, string)> {
    match parsed
    case None => None
    case Some((value, afterValue)) =>
      var v := SkipWs(afterValue);
      if v == "" then None
      else if v[0] == ']' then Some(([value], v[1..]))
      else if v[0] == ',' then
        match ParseItems(v[1..])
        case None => None
        case Some((more, rest)) => Some(([value] + more, rest))
      else None
  }

  lemma ItemParses(s: string)
    ensures ParseItems(s) == ContinueItems(ParseValue(s))
  {
  }

  lemma NothingContinues(key: string)
    ensures ContinueItems(None) == None && Continue(key, None) == None
  {
  }

  lemma ContinueItemsClosed(value: Json, rest: string)
    ensures ContinueItems(Some((value, "]" + rest))) == Some(([value], rest))
  {
    var v := "]" + rest;
    assert SkipWs(v) == v && v[1..] == rest;
  }

  lemma ContinueItemsComma(value: Json, rest: string)
    ensures ContinueItems(Some((value, "," + rest))) ==
            match ParseItems(rest)
            case None => None
            case Some((more, end)) => Some(([value] + more, end))
  {
    var v := "," + rest;
    assert SkipWs(v) == v && v[1..] == rest;
  }

  lemma {:induction false} ValueParses(member: (string, Json), rest: string)
    requires Lexical(member.1) && Delimited(rest)
    ensures ParseValue(Compact(member.1) + rest) == Reading(WellFormed(member.1), member.1, rest)
    decreases member, 0
  {
    CompactParses(member.1, rest);
  }

  lemma {:induction false} MembersParse(members: seq<(string, Json)>, rest: string)
    requires members != [] && forall i :: 0 <= i < |members| ==> Lexical(members[i].1)
    ensures ParseMembers(CompactMembers(members) + ("}" + rest)) == Reading(WellFormedMembers(members), members, rest)
    decreases members, 1
  {
    hide ParseMembers, ParseValue, Compact, CompactMembers, ParseChars, Escape, SkipWs, Continue;
    var (key, value) := members[0];
    NothingContinues(key);
    var more := CompactMembers(members[1..]) + ("}" + rest);
    var tail := if |members| == 1 then "}" + rest else "," + more;
    MembersText(members, rest);
    var s := CompactMembers(members) + ("}" + rest);
    QuotedParses(key, ":" + (Compact(value) + tail));
    ValueParses(members[0], tail);
    MemberParses(s, key, ":" + (Compact(value) + tail), Compact(value) + tail);
    if WellFormed(value) {
      if |members| == 1 {
        ContinueClosed(key, value, rest);
        assert members == [(key, value)];
      } else {
        ContinueComma(key, value, more);
        MembersParse(members[1..], rest);
        assert members == [(key, value)] + members[1..];
      }
    }
  }

  lemma MembersText(members: seq<(string, Json)>, rest: string)
    requires members != []
    ensures var tail := if |members| == 1 then "}" + rest else "," + (CompactMembers(members[1..]) + ("}" + rest));
            CompactMembers(members) + ("}" + rest) ==
            Quoted(members[0].0) + (":" + (Compact(members[0].1) + tail))
  {
    var tail := if |members| == 1 then "}" + rest else "," + (CompactMembers(members[1..]) + ("}" + rest));
    if |members| > 1 {
      Assoc(CompactMember(members[0]), "," + CompactMembers(members[1..]), "}" + rest);
      Assoc(",", CompactMembers(members[1..]), "}" + rest);
    }
    Assoc(Quoted(members[0].0), ":" + Compact(members[0].1), tail);
    Assoc(":", Compact(members[0].1), tail);
  }

  /** The end of a member list, behind the value of `key`. */
  function Continue(key: string, parsed: Option<(Json, string)>): Option<(seq<(string, Json)>, string)> {
    match parsed
    case None => None
    case Some((value, afterValue)) =>
      var v := SkipWs(afterValue);
      if v == "" then None
      else if v[0] == '}' then Some(([(key, value)], v[1..]))
      else if v[0] == ',' then
        match ParseMembers(v[1..])
        case None => None
        case Some((more, rest)) => Some(([(key, value)] + more, rest))
      else None
  }

  lemma MemberParses(s: string, key: string, afterKey: string, valueText: string)
    requires s != "" && s[0] == '"' && ParseChars(s[1..]) == Some((key, afterKey))
    requires afterKey == ":" + valueText
    ensures ParseMembers(s) == Continue(key, ParseValue(valueText))
  {
    assert SkipWs(s) == s && SkipWs(afterKey) == afterKey;
    assert afterKey[1..] == valueText;
  }

  lemma ContinueClosed(key: string, value: Json, rest: string)
    ensures Continue(key, Some((value, "}" + rest))) == Some(([(key, value)], rest))
  {
    var v := "}" + rest;
    assert SkipWs(v) == v && v[1..] == rest;
  }

  lemma ContinueComma(key: string, value: Json, rest: string)
    ensures Continue(key, Some((value, "," + rest))) ==
            match ParseMembers(rest)
            case None => None
            case Some((more, end)) => Some(([(key, value)] + more, end))
  {
    var v := "," + rest;
    assert SkipWs(v) == v && v[1..] == rest;
  }

  /** A whole text. */
  lemma TextParses(j: Json)
    requires Lexical(j)
    ensures ParseText(Compact(j)) == if WellFormed(j) then Some(j) else None
  {
    CompactParses(j, "");
    assert Compact(j) + "" == Compact(j);
  }

  // ----------------------------------------------------------- no line feeds

  predicate PrintableLexemes(j: Json) {
    match j
    case Num(t) => Printable(t)
    case Arr(items) => forall i :: 0 <= i < |items| ==> PrintableLexemes(items[i])
    case Obj(members) => forall i :: 0 <= i < |members| ==> PrintableLexemes(members[i].1)
    case _ => true
  }

  lemma QuotedIsPrintable(s: string)
    ensures Printable(Quoted(s))
  {
    EscapeIsPrintable(s);
  }

  lemma {:induction false} CompactIsPrintable(j: Json)
    requires PrintableLexemes(j)
    ensures Printable(Compact(j))
    decreases j, 0
  {
    match j
    case Str(text) => QuotedIsPrintable(text);
    case Arr(items) => ItemsArePrintable(items);
    case Obj(members) => MembersArePrintable(members);
    case _ =>
  }

  lemma {:induction false} ItemsArePrintable(items: seq<Json>)
    requires forall i :: 0 <= i < |items| ==> PrintableLexemes(items[i])
    ensures Printable(CompactItems(items))
    decreases items, 1
  {
    if items != [] {
      CompactIsPrintable(items[0]);
      ItemsArePrintable(items[1..]);
    }
  }

  lemma {:induction false} MemberIsPrintable(member: (string, Json))
    requires PrintableLexemes(member.1)
    ensures Printable(CompactMember(member))
    decreases member, 0
  {
    QuotedIsPrintable(member.0);
    CompactIsPrintable(member.1);
  }

  lemma {:induction false} MembersArePrintable(members: seq<(string, Json)>)
    requires forall i :: 0 <= i < |members| ==> PrintableLexemes(members[i].1)
    ensures Printable(CompactMembers(members))
    decreases members, 1
  {
    if members != [] {
      MemberIsPrintable(members[0]);
      MembersArePrintable(members[1..]);
    }
  }
}
