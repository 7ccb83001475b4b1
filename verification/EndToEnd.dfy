/** The pieces together: a frame as the detector found it is what the HTTP
    receiver and the reader of the result file recover. */
module EndToEnd {
  import opened Prelude
  import opened Doubles
  import opened Detector
  import Decimal
  import DetectionJson
  import PayloadRoundTrip
  import HttpClient
  import HttpUrl
  import NumberFormat

  /** The bytes posted for a payload to an endpoint without line breaks, framed and
      parsed by the receiver, are the payload to six decimals and to the millisecond. */
  lemma PostedPayloadIsReceived(endpoint: string, url: HttpUrl.Url, p: DetectionJson.Payload)
    requires HttpUrl.ParseHttpUrl(endpoint) == Some(url) && HttpClient.NoBreak(endpoint)
    requires PayloadRoundTrip.Exact(p)
    ensures var body := HttpClient.ReadBody(HttpClient.Request(url, DetectionJson.Serialized(p)));
            body.Some? && PayloadRoundTrip.Receive(body.value) == Some(PayloadRoundTrip.Normal(p))
  {
    hide PayloadRoundTrip.Exact, PayloadRoundTrip.Receive, PayloadRoundTrip.Normal, DetectionJson.Serialized,
         HttpClient.Request, HttpClient.ReadBody, HttpClient.Writable, HttpClient.NoBreak, HttpUrl.ParseHttpUrl;
    HttpClient.WritableIff(endpoint, url);
    HttpClient.RequestFramesBody(url, DetectionJson.Serialized(p));
    PayloadRoundTrip.SerializedReceived(p);
  }

  /** Of a frame the receiver gets one item per passing cluster, in order,
      numbered from 1, labelled with the detection class and with confidence 0.8. */
  lemma DetectedFrameIsReceived(cloud: seq<Point>, clusters: seq<seq<int>>, l: Limits,
                                ds: seq<Detection>, p: DetectionJson.Payload, k: nat)
    requires DetectionsAre(ds, Kept(cloud, clusters, l), cloud, clusters)
    requires |p.detections| == |ds| && forall i :: 0 <= i < |ds| ==> p.detections[i] == ItemOf(ds[i])
    requires PayloadRoundTrip.Exact(p) && k < |ds|
    ensures PayloadRoundTrip.Receive(DetectionJson.Serialized(p)) == Some(PayloadRoundTrip.Normal(p))
    ensures var items := PayloadRoundTrip.Normal(p).items;
            && |items| == |Kept(cloud, clusters, l)|
            && items[k].id == Decimal.Digits(k + 1)
            && items[k].classLabel == "car"
            && |items[k].numbers| == 8 && items[k].numbers[0] == NumberFormat.Number(false, 800000, 6)
            && items[k].numbers[7] == NumberFormat.Number(false, 0, 6)
  {
    hide PayloadRoundTrip.Exact, PayloadRoundTrip.Receive, DetectionJson.Serialized, Kept, KeptAre, DetectionsAre;
    var kept := Kept(cloud, clusters, l);
    PayloadRoundTrip.SerializedReceived(p);
    SameCount(ds, kept, cloud, clusters);
    SenderAgreesWithDetector(cloud, clusters, l, ds, k);
    assert p.detections[k] == ItemOf(ds[k]);
    ConfidenceIs(cloud, clusters, ds, kept, k);
    hide NumberFormat.Millionths, ItemOf;
  }

  lemma SameCount(ds: seq<Detection>, kept: seq<nat>, cloud: seq<Point>, clusters: seq<seq<int>>)
    requires DetectionsAre(ds, kept, cloud, clusters)
    ensures |ds| == |kept|
  {
  }

  lemma ConfidenceIs(cloud: seq<Point>, clusters: seq<seq<int>>, ds: seq<Detection>, kept: seq<nat>, k: nat)
    requires DetectionsAre(ds, kept, cloud, clusters) && k < |ds|
    ensures ItemOf(ds[k]).confidence == DETECTION_CONFIDENCE
    ensures PayloadRoundTrip.Rounded(DETECTION_CONFIDENCE) == NumberFormat.Number(false, 800000, 6)
  {
    assert ds[k] == DetectionOf(ClusterBox(cloud, clusters[kept[k]]), k + 1);
    assert 0.8 * 1000000.0 == 800000.0;
    assert (800000.0).Floor == 800000;
  }

  // ------------------------------------------------------------- received boxes

  /** Centre and extent of one axis as received, and a coordinate they cover to one
      millionth. */
  predicate Covers(center: NumberFormat.Number, size: NumberFormat.Number, v: real)
    requires center.scale >= 0 && size.scale >= 0
  {
    var c, half := NumberFormat.RealOf(center), NumberFormat.RealOf(size) / 2.0;
    c - half - 0.000001 <= v <= c + half + 0.000001
  }

  /** The numbers of an item as received: confidence, centre, length, width, height,
      yaw. Length and width are the horizontal extents in one order or the other. */
  predicate ReceivedCovers(n: seq<NumberFormat.Number>, point: Point) {
    && |n| == 8 && (forall i :: 1 <= i <= 6 ==> n[i].scale >= 0)
    && (|| (Covers(n[1], n[4], point.x) && Covers(n[2], n[5], point.y))
        || (Covers(n[1], n[5], point.x) && Covers(n[2], n[4], point.y)))
    && Covers(n[3], n[6], point.z)
  }

  lemma AxisCovers(center: Double, size: Double, vs: seq<real>, v: real)
    requires Spans(center, size, vs) && v in vs
    ensures Covers(PayloadRoundTrip.Rounded(center), PayloadRoundTrip.Rounded(size), v)
  {
    hide NumberFormat.Millionths, NumberFormat.RealOf;
    NumberFormat.RoundingIsClose(center.neg, center.mag);
    NumberFormat.RoundingIsClose(size.neg, size.mag);
  }

  lemma PointOnAxes(ps: seq<Point>, point: Point)
    requires point in ps
    ensures point.x in Xs(ps) && point.y in Ys(ps) && point.z in Zs(ps)
  {
    var i :| 0 <= i < |ps| && ps[i] == point;
    assert Xs(ps)[i] == point.x && Ys(ps)[i] == point.y && Zs(ps)[i] == point.z;
  }

  lemma BoxCovers(d: Detection, ps: seq<Point>, point: Point)
    requires Encloses(d, ps) && point in ps
    ensures ReceivedCovers(PayloadRoundTrip.NormalItem(ItemOf(d)).numbers, point)
  {
    hide Covers, Xs, Ys, Zs, NumberFormat.Millionths, Least, Greatest;
    PointOnAxes(ps, point);
    AxisCovers(d.cx, d.sx, Xs(ps), point.x);
    AxisCovers(d.cy, d.sy, Ys(ps), point.y);
    if d.sx.Value() == d.sy.Value() { AxisCovers(d.cy, d.sx, Ys(ps), point.y); }
    AxisCovers(d.cz, d.sz, Zs(ps), point.z);
  }

  /** The receiver's box of a detection encloses every point of its cluster to one
      millionth. */
  lemma ReceivedBoxEncloses(cloud: seq<Point>, clusters: seq<seq<int>>, l: Limits,
                            ds: seq<Detection>, p: DetectionJson.Payload, k: nat, point: Point)
    requires DetectionsAre(ds, Kept(cloud, clusters, l), cloud, clusters)
    requires |p.detections| == |ds| && forall i :: 0 <= i < |ds| ==> p.detections[i] == ItemOf(ds[i])
    requires PayloadRoundTrip.Exact(p) && k < |ds|
    requires point in Selected(cloud, clusters[Kept(cloud, clusters, l)[k]])
    ensures PayloadRoundTrip.Receive(DetectionJson.Serialized(p)) == Some(PayloadRoundTrip.Normal(p))
    ensures ReceivedCovers(PayloadRoundTrip.Normal(p).items[k].numbers, point)
  {
    hide PayloadRoundTrip.Exact, PayloadRoundTrip.Receive, DetectionJson.Serialized, Kept, KeptAre, Selected, Encloses;
    hide PayloadRoundTrip.NormalItem, ItemOf, ReceivedCovers;
    PayloadRoundTrip.SerializedReceived(p);
    var ps := Selected(cloud, clusters[Kept(cloud, clusters, l)[k]]);
    DetectionsEnclose(cloud, clusters, l, ds, k);
    BoxCovers(ds[k], ps, point);
    assert p.detections[k] == ItemOf(ds[k]);
  }
}
