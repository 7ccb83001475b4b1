/** Parameters as JSON values and back (`parameter_json.cpp`). */
module ParameterJson {
  import opened Prelude
  import opened Doubles
  import Decimal
  import Json
  import JsonRoundTrip
  import NumberFormat
  import Unicode

  type Uint64 = x: int | 0 <= x < 0x1_0000_0000_0000_0000
  type Byte = x: int | 0 <= x < 256

  /** An in-memory JSON value with the library's three kinds of number. */
  datatype Value =
    | Null
    | Boolean(b: bool)
    | Unsigned(u: Uint64)
    | Signed(i: Int64)
    | Float(d: Double)
    | Text(s: string)
    | Array(items: seq<Value>)
    | Object(members: seq<(string, Value)>)
  {
    predicate IsNumber() {
      Unsigned? || Signed? || Float?
    }
  }

  datatype Type =
    | NotSetType | BoolType | IntegerType | DoubleType | StringType | ByteArrayType
    | BoolArrayType | IntegerArrayType | DoubleArrayType | StringArrayType | UnknownType

  datatype Parameter =
    | NotSet
    | Bool(b: bool)
    | Integer(i: Int64)
    | Real(d: Double)
    | String(s: string)
    | ByteArray(bytes: seq<Byte>)
    | BoolArray(bools: seq<bool>)
    | IntegerArray(ints: seq<Int64>)
    | DoubleArray(doubles: seq<Double>)
    | StringArray(strings: seq<string>)

  datatype Error = CannotConvert(target: Type) | ByteArrayUnsupported | NotDeclared | UnknownTypeCode

  datatype Conversion = Ok(param: Parameter) | Refused(error: Error)

  /** What the number library decides: rounding of integers to double, the text of
      a double, and the double of a text. */
  datatype Library = Library(round: int -> Double, dump: Double -> string, read: string -> Double)

  // ------------------------------------------------------- scalar coercions

  /** `is_finite(d) && trunc(d) == d`: the integer a double holds. */
  function WholeOf(d: Double): Option<int> {
    if d.Finite? && d.Value().Floor as real == d.Value() then Some(d.Value().Floor) else None
  }

  function ToInt(v: Value): Option<Int64> {
    match v
    case Unsigned(u) => if u > 0x7FFF_FFFF_FFFF_FFFF then None else Some(u)
    case Signed(i) => Some(i)
    case Float(d) =>
      (match WholeOf(d)
       case None => None
       case Some(n) => if n < -0x8000_0000_0000_0000 || n >= 0x8000_0000_0000_0000 then None else Some(n))
    case Boolean(b) => Some(if b then 1 else 0)
    case _ => None
  }

  function ToDouble(lib: Library, v: Value): Option<Double> {
    match v
    case Unsigned(u) => Some(lib.round(u))
    case Signed(i) => Some(lib.round(i))
    case Float(d) => Some(d)
    case Boolean(b) => Some(if b then Finite(false, 1.0) else Finite(false, 0.0))
    case _ => None
  }

  function ToBool(v: Value): Option<bool> {
    match v
    case Boolean(b) => Some(b)
    case Unsigned(u) => Some(u != 0)
    case Signed(i) => Some(i != 0)
    case Float(d) => Some(!(d.Finite? && d.mag == 0.0))
    case Text(s) =>
      if s == "true" || s == "1" then Some(true)
      else if s == "false" || s == "0" then Some(false)
      else None
    case _ => None
  }

  function DumpInt(i: int): string {
    if i < 0 then "-" + Decimal.Digits(-i) else Decimal.Digits(i)
  }

  function ToText(lib: Library, v: Value): Option<string> {
    match v
    case Text(s) => Some(s)
    case Boolean(b) => Some(if b then "true" else "false")
    case Unsigned(u) => Some(DumpInt(u))
    case Signed(i) => Some(DumpInt(i))
    case Float(d) => Some(if d.Finite? then lib.dump(d) else "null")
    case _ => None
  }

  // ---------------------------------------------------------- whole parameters

  function TypeOf(p: Parameter): Type {
    match p
    case NotSet => NotSetType
    case Bool(_) => BoolType
    case Integer(_) => IntegerType
    case Real(_) => DoubleType
    case String(_) => StringType
    case ByteArray(_) => ByteArrayType
    case BoolArray(_) => BoolArrayType
    case IntegerArray(_) => IntegerArrayType
    case DoubleArray(_) => DoubleArrayType
    case StringArray(_) => StringArrayType
  }

  function Each<A, B>(f: A -> B, xs: seq<A>): (r: seq<B>)
    ensures |r| == |xs| && forall i :: 0 <= i < |xs| ==> r[i] == f(xs[i])
  {
    seq(|xs|, i requires 0 <= i < |xs| => f(xs[i]))
  }

  function OfByte(b: Byte): Value { Unsigned(b) }

  function OfBool(b: bool): Value { Boolean(b) }

  function OfInt(i: Int64): Value { Signed(i) }

  function OfDouble(d: Double): Value { Float(d) }

  function OfText(s: string): Value { Text(s) }

  function DoubleReader(lib: Library): Value -> Option<Double> {
    v => ToDouble(lib, v)
  }

  function TextReader(lib: Library): Value -> Option<string> {
    v => ToText(lib, v)
  }

  /** The `value` member of `parameter_to_json`. */
  function Encoded(p: Parameter): Value {
    match p
    case NotSet => Null
    case Bool(b) => Boolean(b)
    case Integer(i) => Signed(i)
    case Real(d) => Float(d)
    case String(s) => Text(s)
    case ByteArray(bytes) => Array(Each(OfByte, bytes))
    case BoolArray(bools) => Array(Each(OfBool, bools))
    case IntegerArray(ints) => Array(Each(OfInt, ints))
    case DoubleArray(doubles) => Array(Each(OfDouble, doubles))
    case StringArray(strings) => Array(Each(OfText, strings))
  }

  /** All results, or none as soon as one is missing. */
  function All<A, B>(f: A -> Option<B>, xs: seq<A>): Option<seq<B>> {
    if xs == [] then Some([])
    else
      match (All(f, xs[..|xs| - 1]), f(xs[|xs| - 1]))
      case (Some(bs), Some(b)) => Some(bs + [b])
      case _ => None
  }

  /** The loop of the array cases: the first element that does not convert throws. */
  method ConvertItems<B>(f: Value -> Option<B>, items: seq<Value>) returns (r: Option<seq<B>>)
    ensures r == All(f, items)
  {
    var arr: seq<B> := [];
    var i := 0;
    while i < |items|
      invariant 0 <= i <= |items| && All(f, items[..i]) == Some(arr)
    {
      assert items[..i + 1][..i] == items[..i];
      var b := f(items[i]);
      if b.None? {
        Stuck(f, items, i + 1);
        return None;
      }
      arr := arr + [b.value];
      i := i + 1;
    }
    assert items[..i] == items;
    return Some(arr);
  }

  lemma {:induction false} Stuck<B>(f: Value -> Option<B>, items: seq<Value>, i: nat)
    requires i <= |items| && All(f, items[..i]).None?
    ensures All(f, items).None?
    decreases |items| - i
  {
    if i == |items| {
      assert items[..i] == items;
    } else {
      assert items[..i + 1][..i] == items[..i];
      Stuck(f, items, i + 1);
    }
  }

  function Wrap<B>(target: Type, r: Option<B>, make: B -> Parameter): Conversion {
    match r case None => Refused(CannotConvert(target)) case Some(b) => Ok(make(b))
  }

  function WrapItems<B>(target: Type, v: Value, f: Value -> Option<B>, make: seq<B> -> Parameter): Conversion {
    if !v.Array? then Refused(CannotConvert(target)) else Wrap(target, All(f, v.items), make)
  }

  function Decoded(lib: Library, v: Value, target: Type): Conversion {
    match target
    case BoolType => Wrap(target, ToBool(v), b => Bool(b))
    case IntegerType => Wrap(target, ToInt(v), i => Integer(i))
    case DoubleType => Wrap(target, ToDouble(lib, v), d => Real(d))
    case StringType => Wrap(target, ToText(lib, v), s => String(s))
    case BoolArrayType => WrapItems(target, v, ToBool, bs => BoolArray(bs))
    case IntegerArrayType => WrapItems(target, v, ToInt, ints => IntegerArray(ints))
    case DoubleArrayType => WrapItems(target, v, DoubleReader(lib), ds => DoubleArray(ds))
    case StringArrayType => WrapItems(target, v, TextReader(lib), ss => StringArray(ss))
    case ByteArrayType => Refused(ByteArrayUnsupported)
    case NotSetType => Refused(NotDeclared)
    case UnknownType => Refused(UnknownTypeCode)
  }

  method JsonToParameterValue(lib: Library, v: Value, target: Type) returns (r: Conversion)
    ensures r == Decoded(lib, v, target)
  {
    match target {
      case BoolType => return Wrap(target, ToBool(v), b => Bool(b));
      case IntegerType => return Wrap(target, ToInt(v), i => Integer(i));
      case DoubleType => return Wrap(target, ToDouble(lib, v), d => Real(d));
      case StringType => return Wrap(target, ToText(lib, v), s => String(s));
      case ByteArrayType => return Refused(ByteArrayUnsupported);
      case NotSetType => return Refused(NotDeclared);
      case UnknownType => return Refused(UnknownTypeCode);
      case _ =>
    }
    if !v.Array? {
      return Refused(CannotConvert(target));
    }
    match target {
      case BoolArrayType =>
        var arr := ConvertItems(ToBool, v.items);
        return Wrap(target, arr, bs => BoolArray(bs));
      case IntegerArrayType =>
        var arr := ConvertItems(ToInt, v.items);
        return Wrap(target, arr, ints => IntegerArray(ints));
      case DoubleArrayType =>
        var arr := ConvertItems(DoubleReader(lib), v.items);
        return Wrap(target, arr, ds => DoubleArray(ds));
      case StringArrayType =>
        var arr := ConvertItems(TextReader(lib), v.items);
        return Wrap(target, arr, ss => StringArray(ss));
    }
  }

  // --------------------------------------------------------- the int64 boundary

  /** The number a JSON number stands for; a non-finite double stands for none. */
  function NumberOf(v: Value): Option<real>
    requires v.IsNumber()
  {
    match v
    case Unsigned(u) => Some(u as real)
    case Signed(i) => Some(i as real)
    case Float(d) => if d.Finite? then Some(d.Value()) else None
  }

  /** A JSON number converts exactly when it is an integer in [-2^63, 2^63), and
      then to that integer. */
  lemma IntegerIff(v: Value, n: int)
    requires v.IsNumber()
    ensures (ToInt(v).Some? && ToInt(v).value as int == n) <==>
            (NumberOf(v) == Some(n as real) && -0x8000_0000_0000_0000 <= n < 0x8000_0000_0000_0000)
  {
    if v.Float? && v.d.Finite? { FloorOfWhole(v.d.Value(), n); }
  }

  /** A number is true exactly when it is not zero; NaN and the infinities are. */
  lemma NumberIsTrueIff(v: Value)
    requires v.IsNumber()
    ensures ToBool(v) == Some(NumberOf(v) != Some(0.0))
  {
    if v.Float? && v.d.Finite? { assert v.d.Value() == 0.0 <==> v.d.mag == 0.0; }
  }

  /** A JSON boolean stands for the same number as integer and as double. */
  lemma BooleanNumbersAgree(lib: Library, b: bool)
    ensures ToInt(Boolean(b)).Some? && ToDouble(lib, Boolean(b)).Some?
    ensures NumberOf(Signed(ToInt(Boolean(b)).value)) == NumberOf(Float(ToDouble(lib, Boolean(b)).value))
    ensures ToBool(Boolean(b)) == Some(b)
  {
  }

  /** Doubles convert to themselves, integers to what they round to: to the same
      number wherever the library rounds exactly. */
  lemma NumberToDouble(lib: Library, v: Value)
    requires v.IsNumber()
    ensures ToDouble(lib, v).Some?
    ensures v.Float? ==> ToDouble(lib, v) == Some(v.d)
    ensures !v.Float? ==>
              var n := if v.Unsigned? then v.u as int else v.i as int;
              lib.round(n).Finite? && lib.round(n).Value() == n as real ==>
                NumberOf(Float(ToDouble(lib, v).value)) == NumberOf(v)
  {
  }

  /** What is neither boolean, number nor, where text is read, text converts to no
      scalar. */
  lemma OthersAreRefused(lib: Library, v: Value)
    ensures !v.IsNumber() && !v.Boolean? ==> ToInt(v).None? && ToDouble(lib, v).None?
    ensures !v.IsNumber() && !v.Boolean? && !v.Text? ==> ToBool(v).None? && ToText(lib, v).None?
  {
  }

  /** A refused array is one that is no array or holds a refused element; an accepted
      one is converted element by element. */
  lemma {:induction false} AllIff<A, B>(f: A -> Option<B>, xs: seq<A>, ys: seq<B>)
    ensures All(f, xs) == Some(ys) <==> |xs| == |ys| && forall i :: 0 <= i < |xs| ==> f(xs[i]) == Some(ys[i])
  {
    if xs != [] {
      var n := |xs| - 1;
      if |ys| == |xs| {
        AllIff(f, xs[..n], ys[..n]);
        assert ys == ys[..n] + [ys[n]];
        if forall i :: 0 <= i < |xs| ==> f(xs[i]) == Some(ys[i]) {
          assert All(f, xs[..n]) == Some(ys[..n]);
        }
        if All(f, xs) == Some(ys) {
          var bs := All(f, xs[..n]).value;
          assert ys[..n] == (bs + [f(xs[n]).value])[..n];
          AllLength(f, xs[..n]);
          assert bs == ys[..n] && f(xs[n]).value == ys[n];
        }
      } else {
        AllLength(f, xs);
      }
    }
  }

  lemma {:induction false} AllLength<A, B>(f: A -> Option<B>, xs: seq<A>)
    ensures All(f, xs).Some? ==> |All(f, xs).value| == |xs|
  {
    if xs != [] { AllLength(f, xs[..|xs| - 1]); }
  }

  /** Arrays are decoded element by element, and only from arrays. */
  lemma ArraysDecodeIff(lib: Library, v: Value, bools: seq<bool>, ints: seq<Int64>, ds: seq<Double>, ss: seq<string>)
    ensures Decoded(lib, v, BoolArrayType) == Ok(BoolArray(bools)) <==>
            v.Array? && |v.items| == |bools| && forall i :: 0 <= i < |bools| ==> ToBool(v.items[i]) == Some(bools[i])
    ensures Decoded(lib, v, IntegerArrayType) == Ok(IntegerArray(ints)) <==>
            v.Array? && |v.items| == |ints| && forall i :: 0 <= i < |ints| ==> ToInt(v.items[i]) == Some(ints[i])
    ensures Decoded(lib, v, DoubleArrayType) == Ok(DoubleArray(ds)) <==>
            v.Array? && |v.items| == |ds| && forall i :: 0 <= i < |ds| ==> ToDouble(lib, v.items[i]) == Some(ds[i])
    ensures Decoded(lib, v, StringArrayType) == Ok(StringArray(ss)) <==>
            v.Array? && |v.items| == |ss| && forall i :: 0 <= i < |ss| ==> ToText(lib, v.items[i]) == Some(ss[i])
  {
    hide All, ToBool, ToInt, ToDouble, ToText;
    if v.Array? {
      AllIff(ToBool, v.items, bools);
      AllIff(ToInt, v.items, ints);
      AllIff(DoubleReader(lib), v.items, ds);
      AllIff(TextReader(lib), v.items, ss);
    }
  }

  /** A decoded parameter has the type asked for; byte arrays, undeclared and unknown
      types are never decoded. */
  lemma DecodedHasType(lib: Library, v: Value, target: Type)
    ensures var r := Decoded(lib, v, target);
            && (r.Ok? ==> TypeOf(r.param) == target && Carried(r.param))
            && (target.ByteArrayType? ==> r == Refused(ByteArrayUnsupported))
            && (target.NotSetType? ==> r == Refused(NotDeclared))
            && (target.UnknownType? ==> r == Refused(UnknownTypeCode))
            && (r.Refused? ==> r.error == CannotConvert(target)
                               || target.ByteArrayType? || target.NotSetType? || target.UnknownType?)
  {
    hide All, ToBool, ToInt, ToDouble, ToText;
  }

  lemma FloorOfWhole(r: real, n: int)
    ensures r == n as real ==> r.Floor == n
  {
  }

  // ---------------------------------------------------------------- round trips

  lemma {:induction false} AllOfEach<A>(encode: A -> Value, decode: Value -> Option<A>, xs: seq<A>)
    requires forall x :: x in xs ==> decode(encode(x)) == Some(x)
    ensures All(decode, Each(encode, xs)) == Some(xs)
  {
    if xs != [] {
      var n := |xs| - 1;
      assert xs[n] in xs && forall x :: x in xs[..n] ==> x in xs;
      AllOfEach(encode, decode, xs[..n]);
      assert Each(encode, xs)[..n] == Each(encode, xs[..n]);
      assert xs == xs[..n] + [xs[n]];
    }
  }

  predicate Carried(p: Parameter) {
    !p.NotSet? && !p.ByteArray?
  }

  lemma BoolsRoundTrip(lib: Library, bools: seq<bool>)
    ensures Decoded(lib, Encoded(BoolArray(bools)), BoolArrayType) == Ok(BoolArray(bools))
  {
    AllOfEach(OfBool, ToBool, bools);
  }

  lemma IntsRoundTrip(lib: Library, ints: seq<Int64>)
    ensures Decoded(lib, Encoded(IntegerArray(ints)), IntegerArrayType) == Ok(IntegerArray(ints))
  {
    AllOfEach(OfInt, ToInt, ints);
  }

  lemma DoublesRoundTrip(lib: Library, doubles: seq<Double>)
    ensures Decoded(lib, Encoded(DoubleArray(doubles)), DoubleArrayType) == Ok(DoubleArray(doubles))
  {
    AllOfEach(OfDouble, DoubleReader(lib), doubles);
  }

  lemma StringsRoundTrip(lib: Library, strings: seq<string>)
    ensures Decoded(lib, Encoded(StringArray(strings)), StringArrayType) == Ok(StringArray(strings))
  {
    AllOfEach(OfText, TextReader(lib), strings);
  }

  /** Decoding the encoded value at its own type gives it back: every scalar and
      array type except the two that are refused, arrays of any length. */
  lemma RoundTrip(lib: Library, p: Parameter)
    requires Carried(p)
    ensures Decoded(lib, Encoded(p), TypeOf(p)) == Ok(p)
  {
    hide All, Each, WrapItems;
    match p
    case BoolArray(bools) => BoolsRoundTrip(lib, bools);
    case IntegerArray(ints) => IntsRoundTrip(lib, ints);
    case DoubleArray(doubles) => DoublesRoundTrip(lib, doubles);
    case StringArray(strings) => StringsRoundTrip(lib, strings);
    case _ =>
  }

  // ------------------------------------------------------------- as JSON text

  /** The document `dump()` writes; a non-finite double becomes `null`. */
  function Tree(lib: Library, v: Value): Json.Json {
    match v
    case Null => Json.Null
    case Boolean(b) => Json.Bool(b)
    case Unsigned(u) => Json.Num(DumpInt(u))
    case Signed(i) => Json.Num(DumpInt(i))
    case Float(d) => if d.Finite? then Json.Num(lib.dump(d)) else Json.Null
    case Text(s) => Json.Str(s)
    case Array(items) => Json.Arr(seq(|items|, i requires 0 <= i < |items| => Tree(lib, items[i])))
    case Object(members) =>
      Json.Obj(seq(|members|, i requires 0 <= i < |members| => (members[i].0, Tree(lib, members[i].1))))
  }

  /** Every string is UTF-8; otherwise `dump()` throws. */
  predicate IsUtf8(v: Value) {
    match v
    case Text(s) => Unicode.WellFormed(s)
    case Array(items) => forall i :: 0 <= i < |items| ==> IsUtf8(items[i])
    case Object(members) =>
      forall i :: 0 <= i < |members| ==> Unicode.WellFormed(members[i].0) && IsUtf8(members[i].1)
    case _ => true
  }

  function Dump(lib: Library, v: Value): Option<string> {
    if IsUtf8(v) then Some(Json.Compact(Tree(lib, v))) else None
  }

  /** A number without fraction and exponent. */
  predicate IsIntegerText(t: string) {
    var i := Json.SignEnd(t);
    i < |t| && Decimal.AllDigits(t[i..])
  }

  /** The library's kind for a number: unsigned or signed while it fits, else double. */
  function OfLexeme(lib: Library, t: string): Value {
    var i := Json.SignEnd(t);
    if !IsIntegerText(t) then Float(lib.read(t))
    else
      var n: int := Decimal.ValueOf(t[i..]);
      if i == 0 && n < 0x1_0000_0000_0000_0000 then Unsigned(n)
      else if i == 1 && n <= 0x8000_0000_0000_0000 then Signed(-n)
      else Float(lib.read(t))
  }

  function OfJson(lib: Library, j: Json.Json): Value {
    match j
    case Null => Null
    case Bool(b) => Boolean(b)
    case Num(t) => OfLexeme(lib, t)
    case Str(s) => Text(s)
    case Arr(items) => Array(seq(|items|, i requires 0 <= i < |items| => OfJson(lib, items[i])))
    case Obj(members) =>
      Object(seq(|members|, i requires 0 <= i < |members| => (members[i].0, OfJson(lib, members[i].1))))
  }

  /** Printed, and parsed again by a reader of RFC 8259. */
  function OverText(lib: Library, v: Value): Option<Value> {
    match Dump(lib, v)
    case None => None
    case Some(text) => match Json.ParseText(text) case None => None case Some(j) => Some(OfJson(lib, j))
  }

  /** The library writes this double as a number with fraction or exponent that it
      reads back as the double. */
  predicate ReadsBack(lib: Library, d: Double) {
    d.Finite? ==> Json.IsNumber(lib.dump(d)) && !IsIntegerText(lib.dump(d)) && lib.read(lib.dump(d)) == d
  }

  predicate AllReadBack(lib: Library, v: Value) {
    match v
    case Float(d) => ReadsBack(lib, d)
    case Array(items) => forall i :: 0 <= i < |items| ==> AllReadBack(lib, items[i])
    case Object(members) => forall i :: 0 <= i < |members| ==> AllReadBack(lib, members[i].1)
    case _ => true
  }

  /** What should come out: non-negative integers come back unsigned, non-finite
      doubles as `null`. */
  function Scanned(v: Value): Value {
    match v
    case Signed(i) => if i >= 0 then Unsigned(i) else v
    case Float(d) => if d.Finite? then v else Null
    case Array(items) => Array(seq(|items|, i requires 0 <= i < |items| => Scanned(items[i])))
    case Object(members) =>
      Object(seq(|members|, i requires 0 <= i < |members| => (members[i].0, Scanned(members[i].1))))
    case _ => v
  }

  lemma UnsignedLexeme(lib: Library, digits: string)
    requires NumberFormat.PlainInteger(digits) && Decimal.ValueOf(digits) < 0x1_0000_0000_0000_0000
    ensures OfLexeme(lib, digits) == Unsigned(Decimal.ValueOf(digits))
  {
    hide Decimal.ValueOf;
    assert Decimal.IsDigit(digits[0]);
    assert Json.SignEnd(digits) == 0 && digits[0..] == digits;
  }

  lemma NegativeLexeme(lib: Library, digits: string)
    requires NumberFormat.PlainInteger(digits) && Decimal.ValueOf(digits) <= 0x8000_0000_0000_0000
    ensures OfLexeme(lib, "-" + digits) == Signed(-(Decimal.ValueOf(digits) as int))
  {
    hide Decimal.ValueOf;
    var t := "-" + digits;
    assert Json.SignEnd(t) == 1 && t[1..] == digits;
  }

  lemma IntegerLexeme(lib: Library, i: int)
    requires -0x8000_0000_0000_0000 <= i < 0x1_0000_0000_0000_0000
    ensures Json.IsNumber(DumpInt(i))
    ensures OfLexeme(lib, DumpInt(i)) == if i >= 0 then Unsigned(i) else Signed(i)
  {
    hide Decimal.Digits, Decimal.ValueOf, Decimal.AllDigits, OfLexeme, Json.IsNumber, NumberFormat.ReadNumber;
    var digits := Decimal.Digits(if i < 0 then -i else i);
    Decimal.ReadDigits(if i < 0 then -i else i);
    NumberFormat.IntegerShape(i < 0, digits);
    if i < 0 {
      NegativeLexeme(lib, digits);
    } else {
      assert "" + digits == digits;
      UnsignedLexeme(lib, digits);
    }
  }

  lemma {:induction false} TreeReads(lib: Library, v: Value)
    requires AllReadBack(lib, v)
    ensures JsonRoundTrip.WellFormed(Tree(lib, v)) && JsonRoundTrip.Lexical(Tree(lib, v))
    ensures OfJson(lib, Tree(lib, v)) == Scanned(v)
  {
    hide DumpInt, OfLexeme, Json.IsNumber, JsonRoundTrip.Dotted, IsIntegerText;
    match v
    case Unsigned(u) => IntegerLexeme(lib, u);
    case Signed(i) => IntegerLexeme(lib, i);
    case Float(d) => if d.Finite? { FloatLexeme(lib, d); }
    case Array(items) =>
      forall i | 0 <= i < |items|
        ensures JsonRoundTrip.WellFormed(Tree(lib, items[i])) && JsonRoundTrip.Lexical(Tree(lib, items[i]))
        ensures OfJson(lib, Tree(lib, items[i])) == Scanned(items[i])
      {
        TreeReads(lib, items[i]);
      }
    case Object(members) =>
      forall i | 0 <= i < |members|
        ensures JsonRoundTrip.WellFormed(Tree(lib, members[i].1)) && JsonRoundTrip.Lexical(Tree(lib, members[i].1))
        ensures OfJson(lib, Tree(lib, members[i].1)) == Scanned(members[i].1)
      {
        TreeReads(lib, members[i].1);
      }
    case _ =>
  }

  lemma FloatLexeme(lib: Library, d: Double)
    requires d.Finite? && ReadsBack(lib, d)
    ensures Json.IsNumber(lib.dump(d)) && OfLexeme(lib, lib.dump(d)) == Float(d)
  {
    hide Json.IsNumber;
  }

  /** Printing fails exactly when some string is no UTF-8; otherwise the text is
      JSON and is read as the value, up to the two changes of `Scanned`. */
  lemma OverTextIs(lib: Library, v: Value)
    requires AllReadBack(lib, v)
    ensures OverText(lib, v) == if IsUtf8(v) then Some(Scanned(v)) else None
  {
    hide Json.ParseText, Json.Compact, JsonRoundTrip.WellFormed, JsonRoundTrip.Lexical;
    hide Tree, OfJson, Scanned, AllReadBack, IsUtf8;
    TreeReads(lib, v);
    JsonRoundTrip.TextParses(Tree(lib, v));
  }

  /** A string parameter given a boolean or a number gets the text it is printed as. */
  lemma TextIsDump(lib: Library, v: Value)
    requires v.Boolean? || v.IsNumber()
    ensures ToText(lib, v) == Dump(lib, v)
  {
  }

  /** A text converts to a boolean exactly when it is what that boolean is printed
      as, or the integer it converts to; every other text is refused. */
  lemma TextIsBoolIff(lib: Library, s: string, b: bool)
    ensures ToBool(Text(s)) == Some(b) <==>
            Some(s) == Dump(lib, Boolean(b)) || Some(s) == Dump(lib, Signed(ToInt(Boolean(b)).value))
  {
    assert DumpInt(0) == "0" && DumpInt(1) == "1";
  }

  predicate AllUtf8(p: Parameter) {
    match p
    case String(s) => Unicode.WellFormed(s)
    case StringArray(strings) => forall i :: 0 <= i < |strings| ==> Unicode.WellFormed(strings[i])
    case _ => true
  }

  predicate AllFinite(p: Parameter) {
    match p
    case Real(d) => d.Finite?
    case DoubleArray(doubles) => forall i :: 0 <= i < |doubles| ==> doubles[i].Finite?
    case _ => true
  }

  function ScannedBool(b: bool): Value { Scanned(OfBool(b)) }

  function ScannedInt(i: Int64): Value { Scanned(OfInt(i)) }

  function ScannedDouble(d: Double): Value { Scanned(OfDouble(d)) }

  function ScannedText(s: string): Value { Scanned(OfText(s)) }

  lemma ScannedEach<A>(encode: A -> Value, scanned: A -> Value, xs: seq<A>)
    requires forall x :: x in xs ==> scanned(x) == Scanned(encode(x))
    ensures Scanned(Array(Each(encode, xs))) == Array(Each(scanned, xs))
  {
    forall i | 0 <= i < |xs| ensures Scanned(Each(encode, xs)[i]) == Each(scanned, xs)[i] {
      assert xs[i] in xs;
    }
  }

  lemma NullIsRefused(lib: Library, doubles: seq<Double>)
    requires exists i :: 0 <= i < |doubles| && !doubles[i].Finite?
    ensures All(DoubleReader(lib), Each(ScannedDouble, doubles)).None?
  {
    var f := DoubleReader(lib);
    var items := Each(ScannedDouble, doubles);
    var i :| 0 <= i < |doubles| && !doubles[i].Finite?;
    assert items[..i + 1][i] == Null && f(Null).None?;
    Stuck(f, items, i + 1);
  }

  lemma BoolsOverText(lib: Library, bools: seq<bool>)
    ensures Decoded(lib, Scanned(Encoded(BoolArray(bools))), BoolArrayType) == Ok(BoolArray(bools))
  {
    ScannedEach(OfBool, ScannedBool, bools);
    AllOfEach(ScannedBool, ToBool, bools);
  }

  lemma IntsOverText(lib: Library, ints: seq<Int64>)
    ensures Decoded(lib, Scanned(Encoded(IntegerArray(ints))), IntegerArrayType) == Ok(IntegerArray(ints))
  {
    ScannedEach(OfInt, ScannedInt, ints);
    AllOfEach(ScannedInt, ToInt, ints);
  }

  lemma DoublesOverText(lib: Library, doubles: seq<Double>)
    ensures Decoded(lib, Scanned(Encoded(DoubleArray(doubles))), DoubleArrayType) == Ok(DoubleArray(doubles))
            <==> AllFinite(DoubleArray(doubles))
  {
    ScannedEach(OfDouble, ScannedDouble, doubles);
    if AllFinite(DoubleArray(doubles)) {
      AllOfEach(ScannedDouble, DoubleReader(lib), doubles);
    } else {
      NullIsRefused(lib, doubles);
    }
  }

  lemma StringsOverText(lib: Library, strings: seq<string>)
    ensures Decoded(lib, Scanned(Encoded(StringArray(strings))), StringArrayType) == Ok(StringArray(strings))
  {
    ScannedEach(OfText, ScannedText, strings);
    AllOfEach(ScannedText, TextReader(lib), strings);
  }

  lemma ScannedRoundTripIff(lib: Library, p: Parameter)
    requires Carried(p)
    ensures Decoded(lib, Scanned(Encoded(p)), TypeOf(p)) == Ok(p) <==> AllFinite(p)
  {
    match p
    case BoolArray(bools) => BoolsOverText(lib, bools);
    case IntegerArray(ints) => IntsOverText(lib, ints);
    case DoubleArray(doubles) => DoublesOverText(lib, doubles);
    case StringArray(strings) => StringsOverText(lib, strings);
    case _ =>
  }

  lemma EncodedIsUtf8Iff(p: Parameter)
    ensures IsUtf8(Encoded(p)) <==> AllUtf8(p)
  {
    hide Unicode.WellFormed;
    if p.StringArray? {
      assert forall i :: 0 <= i < |p.strings| ==> Encoded(p).items[i] == Text(p.strings[i]);
    }
  }

  /** The round trip through JSON text: it holds whichever way integers arrive, and
      exactly when no double is infinite or NaN and every string is UTF-8. */
  lemma TextRoundTripIff(lib: Library, p: Parameter)
    requires Carried(p) && AllReadBack(lib, Encoded(p))
    ensures (match OverText(lib, Encoded(p)) case None => false case Some(v) => Decoded(lib, v, TypeOf(p)) == Ok(p))
            <==> AllFinite(p) && AllUtf8(p)
  {
    hide OverText, Scanned, Decoded, Encoded, AllReadBack, IsUtf8, AllUtf8, AllFinite;
    OverTextIs(lib, Encoded(p));
    ScannedRoundTripIff(lib, p);
    EncodedIsUtf8Iff(p);
  }

  /** A string parameter of one byte 0xFF cannot be printed. */
  lemma LoneByteIsRefused(lib: Library)
    ensures OverText(lib, Encoded(String([0xFF as char]))) == None
  {
    Unicode.HighByteIsRefused(0xFF as char, "");
    assert [0xFF as char] + "" == [0xFF as char];
  }
}
