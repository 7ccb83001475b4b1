/** What a receiver recovers from the bytes of `serialize_detections`: the
    HTTP body and the line of the JSONL file alike. */
module PayloadRoundTrip {
  import opened Prelude
  import opened Doubles
  import opened Json
  import opened CivilTime
  import opened DetectionJson
  import NumberFormat
  import JsonRoundTrip
  import JsonEscape

  // ------------------------------------------------------------ the receiver

  /** A frame as received: time to the millisecond, numbers to the sixth decimal. */
  datatype Received = Received(sec: int, millis: nat, frameId: string, items: seq<ReceivedItem>)

  datatype ReceivedItem = ReceivedItem(id: string, classLabel: string, numbers: seq<NumberFormat.Number>)

  function ReadNum(j: Json): Option<NumberFormat.Number> {
    if j.Num? && IsNumber(j.lexeme) then Some(NumberFormat.ReadNumber(j.lexeme)) else None
  }

  predicate HasKeys(j: Json, keys: seq<string>) {
    j.Obj? && |j.members| == |keys| && forall i :: 0 <= i < |keys| ==> j.members[i].0 == keys[i]
  }

  /** An object of three numbers under the given names. */
  function ReadTriple(j: Json, k0: string, k1: string, k2: string): Option<seq<NumberFormat.Number>> {
    if !HasKeys(j, [k0, k1, k2]) then None
    else
      match (ReadNum(j.members[0].1), ReadNum(j.members[1].1), ReadNum(j.members[2].1))
      case (Some(a), Some(b), Some(c)) => Some([a, b, c])
      case _ => None
  }

  function ReadItem(j: Json): Option<ReceivedItem> {
    if !HasKeys(j, ["id", "class", "confidence", "center", "size", "yaw"]) then None
    else
      var m := j.members;
      if !m[0].1.Str? || !m[1].1.Str? then None
      else
        match (ReadNum(m[2].1), ReadTriple(m[3].1, "x", "y", "z"),
               ReadTriple(m[4].1, "length", "width", "height"), ReadNum(m[5].1))
        case (Some(confidence), Some(center), Some(size), Some(yaw)) =>
          Some(ReceivedItem(m[0].1.text, m[1].1.text, [confidence] + center + size + [yaw]))
        case _ => None
  }

  function ReadItems(js: seq<Json>): Option<seq<ReceivedItem>> {
    if js == [] then Some([])
    else
      match (ReadItem(js[0]), ReadItems(js[1..]))
      case (Some(item), Some(more)) => Some([item] + more)
      case _ => None
  }

  /** The document of schema version 1.0. */
  function ReadDocument(j: Json): Option<Received> {
    if !HasKeys(j, ["schema_version", "timestamp", "frame_id", "detections"]) then None
    else
      var m := j.members;
      if m[0].1 != Str("1.0") || !m[1].1.Str? || !m[2].1.Str? || !m[3].1.Arr? then None
      else
        match (ReadStamp(m[1].1.text), ReadItems(m[3].1.items))
        case (Some((sec, millis)), Some(items)) => Some(Received(sec, millis, m[2].1.text, items))
        case _ => None
  }

  function Receive(text: string): Option<Received> {
    match ParseText(text)
    case None => None
    case Some(j) => ReadDocument(j)
  }

  // ------------------------------------------------------- what it should get

  /** Millionths of a finite value; a non-finite one counts as 0.0. */
  function Rounded(d: Double): NumberFormat.Number {
    match d
    case Finite(neg, mag) => NumberFormat.Number(neg, NumberFormat.Millionths(mag), 6)
    case _ => NumberFormat.Number(false, 0, 1)
  }

  function NormalItem(d: Item): ReceivedItem {
    ReceivedItem(d.id, d.classLabel,
                 [Rounded(d.confidence), Rounded(d.centerX), Rounded(d.centerY), Rounded(d.centerZ),
                  Rounded(d.length), Rounded(d.width), Rounded(d.height), Rounded(d.yaw)])
  }

  function NormalItems(ds: seq<Item>): seq<ReceivedItem> {
    seq(|ds|, i requires 0 <= i < |ds| => NormalItem(ds[i]))
  }

  function Normal(p: Payload): Received {
    Received(p.stampSec, p.stampNanosec / 1000000, p.frameId, NormalItems(p.detections))
  }

  // -------------------------------------------------------------- conditions

  predicate ItemNumbers(d: Item, ok: Double -> bool) {
    && ok(d.confidence) && ok(d.centerX) && ok(d.centerY) && ok(d.centerZ)
    && ok(d.length) && ok(d.width) && ok(d.height) && ok(d.yaw)
  }

  predicate AllNumbers(p: Payload, ok: Double -> bool) {
    forall i :: 0 <= i < |p.detections| ==> ItemNumbers(p.detections[i], ok)
  }

  /** Not exactly 30 characters in front of the decimal point. */
  predicate NotCutAtPoint(d: Double) {
    !(d.Finite? && NumberFormat.Width(d.neg, NumberFormat.Millionths(d.mag)) == 30)
  }

  predicate Exact(p: Payload) {
    p.stampNanosec < 1000000000 && AllNumbers(p, NumberFormat.InBound)
  }

  // ------------------------------------------------------------- valid JSON

  lemma NumberWellFormed(d: Double)
    ensures JsonRoundTrip.Lexical(Number(d)) && (JsonRoundTrip.WellFormed(Number(d)) <==> NotCutAtPoint(d))
  {
    NumberFormat.PrintedIsNumberIff(d);
  }

  lemma ItemWellFormed(d: Item)
    ensures JsonRoundTrip.Lexical(ItemTree(d))
    ensures JsonRoundTrip.WellFormed(ItemTree(d)) <==> ItemNumbers(d, NotCutAtPoint)
  {
    hide Number, NotCutAtPoint, CenterMembers, SizeMembers, IsNumber, JsonRoundTrip.Dotted;
    NumberWellFormed(d.confidence);
    NumberWellFormed(d.yaw);
    CenterWellFormed(d);
    var m := ItemMembers(d);
    assert m[0].1 == Str(d.id) && m[1].1 == Str(d.classLabel) && m[2].1 == Number(d.confidence);
    assert m[3].1 == Obj(CenterMembers(d)) && m[4].1 == Obj(SizeMembers(d)) && m[5].1 == Number(d.yaw);
  }

  lemma CenterWellFormed(d: Item)
    ensures JsonRoundTrip.Lexical(Obj(CenterMembers(d))) && JsonRoundTrip.Lexical(Obj(SizeMembers(d)))
    ensures JsonRoundTrip.WellFormed(Obj(CenterMembers(d))) <==>
            NotCutAtPoint(d.centerX) && NotCutAtPoint(d.centerY) && NotCutAtPoint(d.centerZ)
    ensures JsonRoundTrip.WellFormed(Obj(SizeMembers(d))) <==>
            NotCutAtPoint(d.length) && NotCutAtPoint(d.width) && NotCutAtPoint(d.height)
  {
    hide Number, NotCutAtPoint;
    TripleWellFormed(CenterMembers(d), d.centerX, d.centerY, d.centerZ);
    TripleWellFormed(SizeMembers(d), d.length, d.width, d.height);
  }

  lemma TripleWellFormed(ms: seq<(string, Json)>, a: Double, b: Double, c: Double)
    requires |ms| == 3 && ms[0].1 == Number(a) && ms[1].1 == Number(b) && ms[2].1 == Number(c)
    ensures JsonRoundTrip.Lexical(Obj(ms))
    ensures JsonRoundTrip.WellFormed(Obj(ms)) <==> NotCutAtPoint(a) && NotCutAtPoint(b) && NotCutAtPoint(c)
  {
    hide Number, NotCutAtPoint, IsNumber, JsonRoundTrip.Dotted;
    NumberWellFormed(a);
    NumberWellFormed(b);
    NumberWellFormed(c);
  }

  /** For every payload whatsoever: the text is a JSON text, and then the text
      of exactly this document, unless one number was cut at its point. */
  lemma SerializedIsJsonIff(p: Payload)
    ensures ParseText(Serialized(p)) == if AllNumbers(p, NotCutAtPoint) then Some(PayloadTree(p)) else None
  {
    hide ItemTree, ItemNumbers, NotCutAtPoint, ParseText, Compact, FormatIso8601Utc;
    var trees := ItemTrees(p.detections);
    forall i | 0 <= i < |trees|
      ensures JsonRoundTrip.Lexical(trees[i])
      ensures JsonRoundTrip.WellFormed(trees[i]) <==> ItemNumbers(p.detections[i], NotCutAtPoint)
    {
      ItemWellFormed(p.detections[i]);
    }
    var m := PayloadMembers(p);
    assert m[0].1.Str? && m[1].1.Str? && m[2].1.Str? && m[3].1 == Arr(trees);
    assert JsonRoundTrip.WellFormed(Arr(trees)) <==> AllNumbers(p, NotCutAtPoint);
    JsonRoundTrip.TextParses(PayloadTree(p));
  }

  // ---------------------------------------------------------------- round trip

  lemma BoundIsEnough(p: Payload)
    requires AllNumbers(p, NumberFormat.InBound)
    ensures AllNumbers(p, NotCutAtPoint)
  {
    hide NumberFormat.InBound, NotCutAtPoint;
    forall i | 0 <= i < |p.detections| ensures ItemNumbers(p.detections[i], NotCutAtPoint) {
      var d := p.detections[i];
      assert ItemNumbers(d, NumberFormat.InBound);
      BoundKeepsPoint(d.confidence);
      BoundKeepsPoint(d.centerX);
      BoundKeepsPoint(d.centerY);
      BoundKeepsPoint(d.centerZ);
      BoundKeepsPoint(d.length);
      BoundKeepsPoint(d.width);
      BoundKeepsPoint(d.height);
      BoundKeepsPoint(d.yaw);
    }
  }

  lemma BoundKeepsPoint(d: Double)
    requires NumberFormat.InBound(d)
    ensures NotCutAtPoint(d)
  {
    if d.Finite? { NumberFormat.InBoundIsWidth(d.neg, d.mag); }
  }

  lemma NumberReads(d: Double)
    requires NumberFormat.InBound(d)
    ensures ReadNum(Number(d)) == Some(Rounded(d))
  {
    NumberFormat.PrintedReadsBack(d);
  }

  lemma TripleReads(ms: seq<(string, Json)>, k0: string, a: Double, k1: string, b: Double, k2: string, c: Double)
    requires ms == [(k0, Number(a)), (k1, Number(b)), (k2, Number(c))]
    requires NumberFormat.InBound(a) && NumberFormat.InBound(b) && NumberFormat.InBound(c)
    ensures ReadTriple(Obj(ms), k0, k1, k2) == Some([Rounded(a), Rounded(b), Rounded(c)])
  {
    hide NumberFormat.FormatDouble, NumberFormat.InBound, ReadNum, Rounded;
    NumberReads(a);
    NumberReads(b);
    NumberReads(c);
  }

  lemma ItemReads(d: Item)
    requires ItemNumbers(d, NumberFormat.InBound)
    ensures ReadItem(ItemTree(d)) == Some(NormalItem(d))
  {
    hide Number, NumberFormat.InBound, ReadNum, Rounded, ReadTriple;
    var m := ItemMembers(d);
    assert m[0] == ("id", Str(d.id)) && m[1] == ("class", Str(d.classLabel));
    assert m[2] == ("confidence", Number(d.confidence)) && m[3] == ("center", Obj(CenterMembers(d)));
    assert m[4] == ("size", Obj(SizeMembers(d))) && m[5] == ("yaw", Number(d.yaw));
    NumberReads(d.confidence);
    NumberReads(d.yaw);
    TripleReads(CenterMembers(d), "x", d.centerX, "y", d.centerY, "z", d.centerZ);
    TripleReads(SizeMembers(d), "length", d.length, "width", d.width, "height", d.height);
    ReadItemParts(m, d.id, d.classLabel, Rounded(d.confidence),
                  [Rounded(d.centerX), Rounded(d.centerY), Rounded(d.centerZ)],
                  [Rounded(d.length), Rounded(d.width), Rounded(d.height)], Rounded(d.yaw));
    assert NormalItem(d).numbers ==
           [Rounded(d.confidence)] + [Rounded(d.centerX), Rounded(d.centerY), Rounded(d.centerZ)] +
           [Rounded(d.length), Rounded(d.width), Rounded(d.height)] + [Rounded(d.yaw)];
  }

  lemma ReadItemParts(m: seq<(string, Json)>, id: string, kind: string, confidence: NumberFormat.Number,
                      center: seq<NumberFormat.Number>, size: seq<NumberFormat.Number>, yaw: NumberFormat.Number)
    requires |m| == 6 && m[0] == ("id", Str(id)) && m[1] == ("class", Str(kind))
    requires m[2].0 == "confidence" && ReadNum(m[2].1) == Some(confidence)
    requires m[3].0 == "center" && ReadTriple(m[3].1, "x", "y", "z") == Some(center)
    requires m[4].0 == "size" && ReadTriple(m[4].1, "length", "width", "height") == Some(size)
    requires m[5].0 == "yaw" && ReadNum(m[5].1) == Some(yaw)
    ensures ReadItem(Obj(m)) == Some(ReceivedItem(id, kind, [confidence] + center + size + [yaw]))
  {
    hide ReadNum, ReadTriple;
  }

  lemma {:induction false} ItemsRead(ds: seq<Item>)
    requires forall i :: 0 <= i < |ds| ==> ItemNumbers(ds[i], NumberFormat.InBound)
    ensures ReadItems(ItemTrees(ds)) == Some(NormalItems(ds))
  {
    hide ItemNumbers, ReadItem, ItemTree, NormalItem;
    if ds != [] {
      ItemReads(ds[0]);
      ItemsRead(ds[1..]);
      assert ItemTrees(ds)[1..] == ItemTrees(ds[1..]);
      assert NormalItems(ds) == [NormalItem(ds[0])] + NormalItems(ds[1..]);
    }
  }

  /** Receiving a serialized payload gives the payload, for every number of
      detections and every string: strings exactly, numbers rounded to six
      decimals, time as the second and the floored millisecond. */
  lemma SerializedReceived(p: Payload)
    requires Exact(p)
    ensures Receive(Serialized(p)) == Some(Normal(p))
  {
    hide ParseText, Compact, FormatIso8601Utc, ReadStamp, ReadItems, ItemTrees, NormalItems, Serialized;
    BoundIsEnough(p);
    SerializedIsJsonIff(p);
    ItemsRead(p.detections);
    StampReadsBack(p.stampSec, p.stampNanosec);
    var m := PayloadMembers(p);
    assert m[0] == ("schema_version", Str(SCHEMA_VERSION));
    assert m[1] == ("timestamp", Str(FormatIso8601Utc(p.stampSec, p.stampNanosec)));
    assert m[2] == ("frame_id", Str(p.frameId)) && m[3] == ("detections", Arr(ItemTrees(p.detections)));
  }

  lemma RoundedDeterminesText(d: Double, e: Double)
    requires Rounded(d) == Rounded(e)
    ensures NumberFormat.FormatDouble(d) == NumberFormat.FormatDouble(e)
  {
  }

  lemma NormalDeterminesItem(d: Item, e: Item)
    requires NormalItem(d) == NormalItem(e)
    ensures ItemTree(d) == ItemTree(e)
  {
    var n, o := NormalItem(d).numbers, NormalItem(e).numbers;
    assert n[0] == o[0] && n[1] == o[1] && n[2] == o[2] && n[3] == o[3];
    assert n[4] == o[4] && n[5] == o[5] && n[6] == o[6] && n[7] == o[7];
    RoundedDeterminesText(d.confidence, e.confidence);
    RoundedDeterminesText(d.centerX, e.centerX);
    RoundedDeterminesText(d.centerY, e.centerY);
    RoundedDeterminesText(d.centerZ, e.centerZ);
    RoundedDeterminesText(d.length, e.length);
    RoundedDeterminesText(d.width, e.width);
    RoundedDeterminesText(d.height, e.height);
    RoundedDeterminesText(d.yaw, e.yaw);
  }

  /** Two payloads share an output exactly when they agree after that rounding. */
  lemma SerializedEqualIff(p: Payload, q: Payload)
    requires Exact(p) && Exact(q)
    ensures Serialized(p) == Serialized(q) <==> Normal(p) == Normal(q)
  {
    hide Receive, FormatIso8601Utc, ItemTree, NormalItem, Compact, NumberFormat.InBound, CanonicalText;
    SerializedReceived(p);
    SerializedReceived(q);
    if Normal(p) == Normal(q) {
      var n, o := NormalItems(p.detections), NormalItems(q.detections);
      assert |n| == |o|;
      forall i | 0 <= i < |n| ensures ItemTree(p.detections[i]) == ItemTree(q.detections[i]) {
        assert n[i] == o[i];
        NormalDeterminesItem(p.detections[i], q.detections[i]);
      }
      assert ItemTrees(p.detections) == ItemTrees(q.detections);
      FormatIsCanonical(p.stampSec, p.stampNanosec);
      FormatIsCanonical(q.stampSec, q.stampNanosec);
    }
  }

  // ------------------------------------------------------------- no line feed

  lemma ItemIsPrintable(d: Item)
    ensures JsonRoundTrip.PrintableLexemes(ItemTree(d))
  {
    hide NumberFormat.FormatDouble;
    NumberFormat.PrintedIsPrintable(d.confidence);
    NumberFormat.PrintedIsPrintable(d.yaw);
    TripleIsPrintable(CenterMembers(d), d.centerX, d.centerY, d.centerZ);
    TripleIsPrintable(SizeMembers(d), d.length, d.width, d.height);
    var m := ItemMembers(d);
    assert m[0].1 == Str(d.id) && m[1].1 == Str(d.classLabel) && m[2].1 == Number(d.confidence);
    assert m[3].1 == Obj(CenterMembers(d)) && m[4].1 == Obj(SizeMembers(d)) && m[5].1 == Number(d.yaw);
  }

  lemma TripleIsPrintable(ms: seq<(string, Json)>, a: Double, b: Double, c: Double)
    requires |ms| == 3 && ms[0].1 == Number(a) && ms[1].1 == Number(b) && ms[2].1 == Number(c)
    ensures JsonRoundTrip.PrintableLexemes(Obj(ms))
  {
    NumberFormat.PrintedIsPrintable(a);
    NumberFormat.PrintedIsPrintable(b);
    NumberFormat.PrintedIsPrintable(c);
  }

  /** No serialized payload holds a byte below 0x20, whatever its strings hold. */
  lemma SerializedIsPrintable(p: Payload)
    ensures JsonEscape.Printable(Serialized(p))
  {
    hide ItemTree, Compact, FormatIso8601Utc;
    var trees := ItemTrees(p.detections);
    forall i | 0 <= i < |trees| ensures JsonRoundTrip.PrintableLexemes(trees[i]) {
      ItemIsPrintable(p.detections[i]);
    }
    var m := PayloadMembers(p);
    assert m[0].1.Str? && m[1].1.Str? && m[2].1.Str? && m[3].1 == Arr(trees);
    JsonRoundTrip.CompactIsPrintable(PayloadTree(p));
  }
}
