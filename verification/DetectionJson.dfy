/** The hand-written printer `serialize_detections` of `detection_json.cpp`,
    judged by the reference parser. */
module DetectionJson {
  import opened Prelude
  import opened Doubles
  import opened JsonEscape
  import opened Json
  import opened CivilTime
  import NumberFormat
  import Decimal

  const SCHEMA_VERSION := "1.0"

  datatype Item = Item(id: string, classLabel: string, confidence: Double,
                       centerX: Double, centerY: Double, centerZ: Double,
                       length: Double, width: Double, height: Double, yaw: Double)

  datatype Payload = Payload(stampSec: Int32, stampNanosec: Uint32, frameId: string, detections: seq<Item>)

  // ----------------------------------------------- the document of a payload

  function Number(d: Double): Json {
    Num(NumberFormat.FormatDouble(d))
  }

  function CenterMembers(d: Item): seq<(string, Json)> {
    [("x", Number(d.centerX)), ("y", Number(d.centerY)), ("z", Number(d.centerZ))]
  }

  function SizeMembers(d: Item): seq<(string, Json)> {
    [("length", Number(d.length)), ("width", Number(d.width)), ("height", Number(d.height))]
  }

  function ItemMembers(d: Item): seq<(string, Json)> {
    [("id", Str(d.id)), ("class", Str(d.classLabel)), ("confidence", Number(d.confidence)),
     ("center", Obj(CenterMembers(d))), ("size", Obj(SizeMembers(d))), ("yaw", Number(d.yaw))]
  }

  function ItemTree(d: Item): Json {
    Obj(ItemMembers(d))
  }

  function ItemTrees(ds: seq<Item>): seq<Json> {
    seq(|ds|, i requires 0 <= i < |ds| => ItemTree(ds[i]))
  }

  function Members(stamp: string, frameId: string, ds: seq<Item>): seq<(string, Json)> {
    [("schema_version", Str(SCHEMA_VERSION)),
     ("timestamp", Str(stamp)),
     ("frame_id", Str(frameId)),
     ("detections", Arr(ItemTrees(ds)))]
  }

  function PayloadMembers(p: Payload): seq<(string, Json)> {
    Members(FormatIso8601Utc(p.stampSec, p.stampNanosec), p.frameId, p.detections)
  }

  function PayloadTree(p: Payload): Json {
    Obj(PayloadMembers(p))
  }

  /** The compact JSON text of the payload's document. */
  function Serialized(p: Payload): string {
    Compact(PayloadTree(p))
  }

  // ------------------------------------------------------ the stream printer

  /** What the stream writes in front of a member's value. */
  function Lead(first: bool, key: string): string {
    (if first then "" else ",") + ("\"" + key + "\":")
  }

  lemma {:induction false} MembersSnoc(ms: seq<(string, Json)>, m: (string, Json))
    ensures CompactMembers(ms + [m]) ==
            if ms == [] then CompactMember(m) else CompactMembers(ms) + ("," + CompactMember(m))
  {
    if ms == [] {
      assert ms + [m] == [m];
    } else if |ms| == 1 {
      assert (ms + [m])[1..] == [m];
    } else {
      assert (ms + [m])[1..] == ms[1..] + [m];
      MembersSnoc(ms[1..], m);
      Assoc(",", CompactMembers(ms[1..]), "," + CompactMember(m));
      Assoc(CompactMember(ms[0]), "," + CompactMembers(ms[1..]), "," + CompactMember(m));
    }
  }

  lemma {:induction false} ItemsSnoc(js: seq<Json>, j: Json)
    ensures CompactItems(js + [j]) ==
            if js == [] then Compact(j) else CompactItems(js) + ("," + Compact(j))
  {
    if js == [] {
      assert js + [j] == [j];
    } else if |js| == 1 {
      assert (js + [j])[1..] == [j];
    } else {
      assert (js + [j])[1..] == js[1..] + [j];
      ItemsSnoc(js[1..], j);
      Assoc(",", CompactItems(js[1..]), "," + Compact(j));
      Assoc(Compact(js[0]), "," + CompactItems(js[1..]), "," + Compact(j));
    }
  }

  lemma LeadMember(done: string, key: string, j: Json, first: bool)
    requires Plain(key) && (first ==> done == "")
    ensures (done + Lead(first, key)) + Compact(j) ==
            if first then CompactMember((key, j)) else done + ("," + CompactMember((key, j)))
  {
    EscapeKeepsPlain(key);
    var k := "\"" + key + "\":";
    assert CompactMember((key, j)) == k + Compact(j) by {
      assert Quoted(key) == "\"" + (key + "\"");
      assert k == Quoted(key) + ":";
      Assoc(Quoted(key), ":", Compact(j));
    }
    if first {
      assert "" + ("" + k) == k;
    } else {
      Assoc(",", k, Compact(j));
      Assoc(done, "," + k, Compact(j));
    }
  }

  /** Streaming a lead and a value adds one member. */
  lemma PutMember(head: string, ms: seq<(string, Json)>, key: string, j: Json, first: bool)
    requires Plain(key) && (first <==> ms == [])
    ensures ((head + CompactMembers(ms)) + Lead(first, key)) + Compact(j) == head + CompactMembers(ms + [(key, j)])
  {
    LeadMember(CompactMembers(ms), key, j, first);
    MembersSnoc(ms, (key, j));
    Assoc(head, CompactMembers(ms), Lead(first, key));
    Assoc(head, CompactMembers(ms) + Lead(first, key), Compact(j));
  }

  method PutString(os: string, first: bool, key: string, text: string,
                   ghost head: string, ghost ms: seq<(string, Json)>)
    returns (out: string)
    requires Plain(key) && (first <==> ms == []) && os == head + CompactMembers(ms)
    ensures out == head + CompactMembers(ms + [(key, Str(text))])
  {
    var escaped := EscapeJsonString(text);
    out := os + Lead(first, key) + "\"" + escaped + "\"";
    PutMember(head, ms, key, Str(text), first);
    Assoc(os + Lead(first, key), "\"", escaped);
    Assoc(os + Lead(first, key), "\"" + escaped, "\"");
    Assoc("\"", escaped, "\"");
  }

  method PutNumber(os: string, first: bool, key: string, d: Double, ghost head: string, ghost ms: seq<(string, Json)>)
    returns (out: string)
    requires Plain(key) && (first <==> ms == []) && os == head + CompactMembers(ms)
    ensures out == head + CompactMembers(ms + [(key, Number(d))])
  {
    out := os + Lead(first, key) + NumberFormat.FormatDouble(d);
    PutMember(head, ms, key, Number(d), first);
  }

  /** A nested object of three numbers. */
  method PutTriple(os: string, key: string, k0: string, a: Double, k1: string, b: Double, k2: string, c: Double,
                   ghost head: string, ghost ms: seq<(string, Json)>)
    returns (out: string)
    requires Plain(key) && Plain(k0) && Plain(k1) && Plain(k2)
    requires ms != [] && os == head + CompactMembers(ms)
    ensures out == head + CompactMembers(ms + [(key, Obj([(k0, Number(a)), (k1, Number(b)), (k2, Number(c))]))])
  {
    ghost var inner := [(k0, Number(a)), (k1, Number(b)), (k2, Number(c))];
    out := os + Lead(false, key) + "{";
    ghost var open := out;
    assert open + CompactMembers([]) == open;
    assert [] + [inner[0]] == inner[..1] && inner[..1] + [inner[1]] == inner[..2] && inner[..2] + [inner[2]] == inner;
    out := PutNumber(out, true, k0, a, open, []);
    out := PutNumber(out, false, k1, b, open, inner[..1]);
    out := PutNumber(out, false, k2, c, open, inner[..2]);
    out := out + "}";
    PutMember(head, ms, key, Obj(inner), false);
    Close(os + Lead(false, key), "{", CompactMembers(inner), "}");
  }

  lemma Close(a: string, open: string, inner: string, close: string)
    ensures ((a + open) + inner) + close == a + (open + (inner + close))
  {
  }

  lemma ItemKeysArePlain()
    ensures Plain("id") && Plain("class") && Plain("confidence") && Plain("center") && Plain("size") && Plain("yaw")
  {
  }

  lemma TripleKeysArePlain()
    ensures Plain("x") && Plain("y") && Plain("z") && Plain("length") && Plain("width") && Plain("height")
  {
  }

  lemma PayloadKeysArePlain()
    ensures Plain("schema_version") && Plain("timestamp") && Plain("frame_id") && Plain("detections")
  {
  }

  lemma Prefixes<T>(s: seq<T>)
    ensures forall i :: 0 <= i < |s| ==> s[..i] + [s[i]] == s[..i + 1]
    ensures s[..|s|] == s && s[..0] == []
  {
  }

  /** The body of the loop over the detections. */
  method SerializeItem(os: string, d: Item) returns (out: string)
    ensures out == os + Compact(ItemTree(d))
  {
    ghost var ms := ItemMembers(d);
    ItemKeysArePlain();
    TripleKeysArePlain();
    hide Plain, NumberFormat.FormatDouble;
    Prefixes(ms);
    var head := os + "{";
    assert head == head + CompactMembers(ms[..0]);
    out := PutString(head, true, "id", d.id, head, ms[..0]);
    out := PutString(out, false, "class", d.classLabel, head, ms[..1]);
    out := PutNumber(out, false, "confidence", d.confidence, head, ms[..2]);
    out := PutTriple(out, "center", "x", d.centerX, "y", d.centerY, "z", d.centerZ, head, ms[..3]);
    out := PutTriple(out, "size", "length", d.length, "width", d.width, "height", d.height, head, ms[..4]);
    out := PutNumber(out, false, "yaw", d.yaw, head, ms[..5]);
    out := out + "}";
    Close(os, "{", CompactMembers(ms), "}");
  }

  method SerializeMembers(head: string, stamp: string, frameId: string, ds: seq<Item>) returns (os: string)
    requires Plain(stamp)
    ensures os == head + CompactMembers(Members(stamp, frameId, ds))
  {
    ghost var ms := Members(stamp, frameId, ds);
    PayloadKeysArePlain();
    hide Plain;
    Prefixes(ms);
    assert head == head + CompactMembers(ms[..0]);
    assert ms[0] == ("schema_version", Str(SCHEMA_VERSION)) && ms[1] == ("timestamp", Str(stamp));
    assert ms[2] == ("frame_id", Str(frameId)) && ms[3] == ("detections", Arr(ItemTrees(ds)));
    os := PutString(head, true, "schema_version", SCHEMA_VERSION, head, ms[..0]);
    os := PutPlain(os, "timestamp", stamp, head, ms[..1]);
    os := PutString(os, false, "frame_id", frameId, head, ms[..2]);
    os := PutItems(os, ds, head, ms[..3]);
  }

  method SerializeDetections(p: Payload) returns (os: string)
    ensures os == Serialized(p)
  {
    var stamp := FormatIso8601Utc(p.stampSec, p.stampNanosec);
    StampIsPlain(p.stampSec, p.stampNanosec);
    os := SerializeMembers("{", stamp, p.frameId, p.detections);
    os := os + "}";
    ClosedObject(PayloadMembers(p));
  }

  lemma ClosedObject(ms: seq<(string, Json)>)
    ensures ("{" + CompactMembers(ms)) + "}" == Compact(Obj(ms))
  {
    Assoc("{", CompactMembers(ms), "}");
  }

  /** The timestamp is streamed without escaping. */
  method PutPlain(os: string, key: string, text: string, ghost head: string, ghost ms: seq<(string, Json)>)
    returns (out: string)
    requires Plain(key) && Plain(text) && ms != [] && os == head + CompactMembers(ms)
    ensures out == head + CompactMembers(ms + [(key, Str(text))])
  {
    out := os + Lead(false, key) + "\"" + text + "\"";
    EscapeKeepsPlain(text);
    PutMember(head, ms, key, Str(text), false);
    Assoc(os + Lead(false, key), "\"", text);
    Assoc(os + Lead(false, key), "\"" + text, "\"");
    Assoc("\"", text, "\"");
  }

  method PutItems(os: string, ds: seq<Item>, ghost head: string, ghost ms: seq<(string, Json)>)
    returns (out: string)
    requires ms != [] && os == head + CompactMembers(ms)
    ensures out == head + CompactMembers(ms + [("detections", Arr(ItemTrees(ds)))])
  {
    out := os + Lead(false, "detections") + "[";
    ghost var open := out;
    ghost var trees := ItemTrees(ds);
    Prefixes(trees);
    var i := 0;
    while i < |ds|
      invariant 0 <= i <= |ds|
      invariant out == open + CompactItems(trees[..i])
    {
      ItemsSnoc(trees[..i], trees[i]);
      if i > 0 {
        out := out + ",";
        Comma(open, CompactItems(trees[..i]), Compact(trees[i]));
      }
      out := SerializeItem(out, ds[i]);
      i := i + 1;
    }
    out := out + "]";
    PayloadKeysArePlain();
    PutMember(head, ms, "detections", Arr(trees), false);
    Close(os + Lead(false, "detections"), "[", CompactItems(trees), "]");
  }

  lemma Comma(head: string, items: string, j: string)
    ensures ((head + items) + ",") + j == head + (items + ("," + j))
  {
  }

  lemma PartIsPlain(c: char, digits: string, rest: string)
    requires Plain([c]) && Decimal.AllDigits(digits) && Plain(rest)
    ensures Plain([c] + (digits + rest))
  {
    assert forall i :: 0 <= i < |digits| ==> Decimal.IsDigit(digits[i]);
  }

  lemma StampIsPlain(sec: Int32, nanosec: Uint32)
    ensures Plain(FormatIso8601Utc(sec, nanosec))
  {
    Int32Years(sec);
    var year := Decimal.Digits(GmTime(sec).year);
    Decimal.ReadDigits(GmTime(sec).year);
    Decimal.ReadDigits(nanosec / 1000000);
    StampTextIsPlain(year, GmTime(sec), Decimal.AtLeast(nanosec / 1000000, 3));
  }

  lemma StampTextIsPlain(year: string, t: Tm, millis: string)
    requires ValidTm(t) && Decimal.AllDigits(year) && Decimal.AllDigits(millis)
    ensures Plain(StampText(year, t, millis))
  {
    var c3 := "." + (millis + "Z");
    var c2 := ":" + (Decimal.Padded(t.second, 2) + c3);
    var c1 := ":" + (Decimal.Padded(t.minute, 2) + c2);
    var c0 := "T" + (Decimal.Padded(t.hour, 2) + c1);
    var d1 := "-" + (Decimal.Padded(t.day, 2) + c0);
    var d0 := "-" + (Decimal.Padded(t.month, 2) + d1);
    PartIsPlain('.', millis, "Z");
    PartIsPlain(':', Decimal.Padded(t.second, 2), c3);
    PartIsPlain(':', Decimal.Padded(t.minute, 2), c2);
    PartIsPlain('T', Decimal.Padded(t.hour, 2), c1);
    PartIsPlain('-', Decimal.Padded(t.day, 2), c0);
    PartIsPlain('-', Decimal.Padded(t.month, 2), d1);
    assert forall i :: 0 <= i < |year| ==> Decimal.IsDigit(year[i]);
    assert StampText(year, t, millis) == year + d0;
  }
}
