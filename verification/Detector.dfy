/** From clusters to detections (`point_cloud_processing.cpp`, the cluster loop
    of `vehicle_detector_node.cpp`) and on to the sender's payload. */
module Detector {
  import opened Prelude
  import opened Doubles
  import Decimal
  import DetectionJson
  import CivilTime

  /** A point of a filtered cloud; its float coordinates are finite. */
  datatype Point = Point(x: real, y: real, z: real)

  datatype Box = Box(minX: Double, minY: Double, minZ: Double, maxX: Double, maxY: Double, maxZ: Double)

  datatype Dimensions = Dimensions(length: Double, width: Double, height: Double)

  datatype Limits = Limits(minLength: Double, maxLength: Double, minWidth: Double, maxWidth: Double,
                           minHeight: Double, maxHeight: Double)

  datatype Roi = Roi(minX: real, minY: real, minZ: real, maxX: real, maxY: real, maxZ: real)

  // --------------------------------------------------------------- bounding boxes

  const EMPTY_BOX := Box(Infinite(false), Infinite(false), Infinite(false),
                         Infinite(true), Infinite(true), Infinite(true))

  predicate InCloud(cloud: seq<Point>, idx: int) {
    0 <= idx < |cloud|
  }

  /** The points the in-range indices of a cluster select, in order. */
  function Selected(cloud: seq<Point>, indices: seq<int>): seq<Point> {
    if indices == [] then []
    else
      var n := |indices| - 1;
      Selected(cloud, indices[..n]) + if InCloud(cloud, indices[n]) then [cloud[indices[n]]] else []
  }

  function Extended(b: Box, p: Point): Box {
    Box(Min(b.minX, Of(p.x)), Min(b.minY, Of(p.y)), Min(b.minZ, Of(p.z)),
        Max(b.maxX, Of(p.x)), Max(b.maxY, Of(p.y)), Max(b.maxZ, Of(p.z)))
  }

  function BoxOf(ps: seq<Point>): Box {
    if ps == [] then EMPTY_BOX else Extended(BoxOf(ps[..|ps| - 1]), ps[|ps| - 1])
  }

  method ComputeAabb(cloud: seq<Point>, indices: seq<int>) returns (box: Box)
    ensures box == BoxOf(Selected(cloud, indices))
    ensures Tight(box, Selected(cloud, indices))
  {
    box := EMPTY_BOX;
    var i := 0;
    while i < |indices|
      invariant 0 <= i <= |indices|
      invariant box == BoxOf(Selected(cloud, indices[..i]))
    {
      var idx := indices[i];
      assert indices[..i + 1][..i] == indices[..i];
      i := i + 1;
      if idx < 0 || idx >= |cloud| {
        assert Selected(cloud, indices[..i]) == Selected(cloud, indices[..i - 1]);
        continue;
      }
      var p := cloud[idx];
      ghost var before := Selected(cloud, indices[..i - 1]);
      assert (before + [p])[..|before|] == before;
      box := Box(Min(box.minX, Of(p.x)), Min(box.minY, Of(p.y)), Min(box.minZ, Of(p.z)),
                 Max(box.maxX, Of(p.x)), Max(box.maxY, Of(p.y)), Max(box.maxZ, Of(p.z)));
    }
    assert indices[..i] == indices;
    BoxIsTight(Selected(cloud, indices));
  }

  /** On one axis: every value lies between the bounds and both are attained. */
  predicate AxisTight(lo: Double, hi: Double, vs: seq<real>) {
    if vs == [] then lo == Infinite(false) && hi == Infinite(true)
    else
      && lo.Finite? && hi.Finite?
      && (forall i :: 0 <= i < |vs| ==> lo.Value() <= vs[i] <= hi.Value())
      && (exists i :: 0 <= i < |vs| && vs[i] == lo.Value())
      && (exists i :: 0 <= i < |vs| && vs[i] == hi.Value())
  }

  function Xs(ps: seq<Point>): seq<real> { seq(|ps|, i requires 0 <= i < |ps| => ps[i].x) }

  function Ys(ps: seq<Point>): seq<real> { seq(|ps|, i requires 0 <= i < |ps| => ps[i].y) }

  function Zs(ps: seq<Point>): seq<real> { seq(|ps|, i requires 0 <= i < |ps| => ps[i].z) }

  /** The smallest box around the points. */
  predicate Tight(b: Box, ps: seq<Point>) {
    AxisTight(b.minX, b.maxX, Xs(ps)) && AxisTight(b.minY, b.maxY, Ys(ps)) && AxisTight(b.minZ, b.maxZ, Zs(ps))
  }

  lemma AxisExtends(lo: Double, hi: Double, vs: seq<real>, v: real)
    requires AxisTight(lo, hi, vs)
    ensures AxisTight(Min(lo, Of(v)), Max(hi, Of(v)), vs + [v])
  {
    var all := vs + [v];
    var lo', hi' := Min(lo, Of(v)), Max(hi, Of(v));
    assert all[|vs|] == v;
    if vs != [] {
      var i :| 0 <= i < |vs| && vs[i] == lo.Value();
      var j :| 0 <= j < |vs| && vs[j] == hi.Value();
      assert all[i] == vs[i] && all[j] == vs[j];
    }
  }

  lemma NothingIsTight()
    ensures Tight(EMPTY_BOX, [])
  {
  }

  lemma {:induction false} BoxIsTight(ps: seq<Point>)
    ensures Tight(BoxOf(ps), ps)
  {
    hide AxisTight, Min, Max;
    if ps == [] {
      NothingIsTight();
    } else {
      var n := |ps| - 1;
      var p, b := ps[n], BoxOf(ps[..n]);
      BoxIsTight(ps[..n]);
      AxisExtends(b.minX, b.maxX, Xs(ps[..n]), p.x);
      AxisExtends(b.minY, b.maxY, Ys(ps[..n]), p.y);
      AxisExtends(b.minZ, b.maxZ, Zs(ps[..n]), p.z);
      assert Xs(ps) == Xs(ps[..n]) + [p.x] && Ys(ps) == Ys(ps[..n]) + [p.y] && Zs(ps) == Zs(ps[..n]) + [p.z];
    }
  }

  predicate InRoi(p: Point, roi: Roi) {
    roi.minX <= p.x <= roi.maxX && roi.minY <= p.y <= roi.maxY && roi.minZ <= p.z <= roi.maxZ
  }

  predicate BoxInRoi(b: Box, roi: Roi) {
    && b.minX.Finite? && b.minY.Finite? && b.minZ.Finite? && b.maxX.Finite? && b.maxY.Finite? && b.maxZ.Finite?
    && roi.minX <= b.minX.Value() <= b.maxX.Value() <= roi.maxX
    && roi.minY <= b.minY.Value() <= b.maxY.Value() <= roi.maxY
    && roi.minZ <= b.minZ.Value() <= b.maxZ.Value() <= roi.maxZ
  }

  lemma AxisInside(lo: Double, hi: Double, vs: seq<real>, a: real, b: real)
    requires AxisTight(lo, hi, vs) && vs != [] && forall i :: 0 <= i < |vs| ==> a <= vs[i] <= b
    ensures a <= lo.Value() <= hi.Value() <= b
  {
    var i :| 0 <= i < |vs| && vs[i] == lo.Value();
    var j :| 0 <= j < |vs| && vs[j] == hi.Value();
  }

  lemma {:induction false} SelectedComeFromCloud(cloud: seq<Point>, indices: seq<int>)
    ensures forall i :: 0 <= i < |Selected(cloud, indices)| ==> Selected(cloud, indices)[i] in cloud
  {
    if indices != [] { SelectedComeFromCloud(cloud, indices[..|indices| - 1]); }
  }

  lemma {:induction false} IndexIsSelected(cloud: seq<Point>, indices: seq<int>, i: nat)
    requires i < |indices| && 0 <= indices[i] < |cloud|
    ensures cloud[indices[i]] in Selected(cloud, indices)
  {
    var n := |indices| - 1;
    if i < n { IndexIsSelected(cloud, indices[..n], i); }
  }

  lemma {:induction false} SelectedHasIndex(cloud: seq<Point>, indices: seq<int>, p: Point) returns (i: nat)
    requires p in Selected(cloud, indices)
    ensures i < |indices| && 0 <= indices[i] < |cloud| && cloud[indices[i]] == p
  {
    var n := |indices| - 1;
    if p in Selected(cloud, indices[..n]) {
      i := SelectedHasIndex(cloud, indices[..n], p);
    } else {
      i := n;
    }
  }

  /** Exactly the in-range indices select a point, index 0 and the last one included. */
  lemma SelectedIff(cloud: seq<Point>, indices: seq<int>, p: Point)
    ensures p in Selected(cloud, indices) <==>
            exists i :: 0 <= i < |indices| && 0 <= indices[i] < |cloud| && cloud[indices[i]] == p
  {
    hide Selected;
    if p in Selected(cloud, indices) { var i := SelectedHasIndex(cloud, indices, p); }
    forall i | 0 <= i < |indices| && 0 <= indices[i] < |cloud| && cloud[indices[i]] == p
      ensures p in Selected(cloud, indices)
    {
      IndexIsSelected(cloud, indices, i);
    }
  }

  predicate Least(vs: seq<real>, x: real) {
    x in vs && forall i :: 0 <= i < |vs| ==> x <= vs[i]
  }

  predicate Greatest(vs: seq<real>, x: real) {
    x in vs && forall i :: 0 <= i < |vs| ==> vs[i] <= x
  }

  lemma AxisEnds(lo: Double, hi: Double, vs: seq<real>)
    requires AxisTight(lo, hi, vs) && vs != []
    ensures lo.Finite? && hi.Finite? && Least(vs, lo.Value()) && Greatest(vs, hi.Value()) && lo.Value() <= hi.Value()
  {
  }

  /** As crop and ground removal only select points, every cluster's box lies in
      the region of interest they were cropped to. */
  lemma ClusterBoxInRoi(cloud: seq<Point>, indices: seq<int>, roi: Roi)
    requires forall i :: 0 <= i < |cloud| ==> InRoi(cloud[i], roi)
    requires Selected(cloud, indices) != []
    ensures BoxInRoi(BoxOf(Selected(cloud, indices)), roi)
  {
    var ps := Selected(cloud, indices);
    var b := BoxOf(ps);
    BoxIsTight(ps);
    SelectedComeFromCloud(cloud, indices);
    forall i | 0 <= i < |ps| ensures InRoi(ps[i], roi) {
      assert ps[i] in cloud;
    }
    AxisInside(b.minX, b.maxX, Xs(ps), roi.minX, roi.maxX);
    AxisInside(b.minY, b.maxY, Ys(ps), roi.minY, roi.maxY);
    AxisInside(b.minZ, b.maxZ, Zs(ps), roi.minZ, roi.maxZ);
  }

  // ----------------------------------------------------------- the size filter

  function DimensionsOf(b: Box): Dimensions {
    var dx, dy := Sub(b.maxX, b.minX), Sub(b.maxY, b.minY);
    Dimensions(Max(dx, dy), Min(dx, dy), Sub(b.maxZ, b.minZ))
  }

  predicate Within(d: Dimensions, l: Limits) {
    && Ge(d.length, l.minLength) && Ge(l.maxLength, d.length)
    && Ge(d.width, l.minWidth) && Ge(l.maxWidth, d.width)
    && Ge(d.height, l.minHeight) && Ge(l.maxHeight, d.height)
  }

  function Bigger(a: real, b: real): real { if a < b then b else a }

  function Smaller(a: real, b: real): real { if a < b then a else b }

  predicate FiniteLimits(l: Limits) {
    && l.minLength.Finite? && l.maxLength.Finite? && l.minWidth.Finite? && l.maxWidth.Finite?
    && l.minHeight.Finite? && l.maxHeight.Finite?
  }

  /** A cluster passes exactly when the larger of its horizontal extents lies within
      the limits of length, the smaller within those of width and the vertical one
      within those of height. */
  lemma VehicleIff(ps: seq<Point>, l: Limits, x0: real, x1: real, y0: real, y1: real, z0: real, z1: real)
    requires ps != [] && FiniteLimits(l)
    requires Least(Xs(ps), x0) && Greatest(Xs(ps), x1)
    requires Least(Ys(ps), y0) && Greatest(Ys(ps), y1)
    requires Least(Zs(ps), z0) && Greatest(Zs(ps), z1)
    ensures Within(DimensionsOf(BoxOf(ps)), l) <==>
            && l.minLength.Value() <= Bigger(x1 - x0, y1 - y0) <= l.maxLength.Value()
            && l.minWidth.Value() <= Smaller(x1 - x0, y1 - y0) <= l.maxWidth.Value()
            && l.minHeight.Value() <= z1 - z0 <= l.maxHeight.Value()
  {
    hide BoxOf, AxisTight;
    var b := BoxOf(ps);
    BoxIsTight(ps);
    AxisEnds(b.minX, b.maxX, Xs(ps));
    AxisEnds(b.minY, b.maxY, Ys(ps));
    AxisEnds(b.minZ, b.maxZ, Zs(ps));
    EndsAreUnique(Xs(ps), x0, x1, b.minX.Value(), b.maxX.Value());
    EndsAreUnique(Ys(ps), y0, y1, b.minY.Value(), b.maxY.Value());
    EndsAreUnique(Zs(ps), z0, z1, b.minZ.Value(), b.maxZ.Value());
    hide Xs, Ys, Zs, Least, Greatest;
  }

  lemma EndsAreUnique(vs: seq<real>, lo: real, hi: real, lo': real, hi': real)
    requires Least(vs, lo) && Greatest(vs, hi) && Least(vs, lo') && Greatest(vs, hi')
    ensures lo == lo' && hi == hi'
  {
  }

  /** A NaN on either side refuses the cluster. */
  lemma NaNIsRefused(d: Dimensions, l: Limits)
    ensures Within(d, l) ==>
              && !d.length.NaN? && !d.width.NaN? && !d.height.NaN?
              && !l.minLength.NaN? && !l.maxLength.NaN? && !l.minWidth.NaN? && !l.maxWidth.NaN?
              && !l.minHeight.NaN? && !l.maxHeight.NaN?
  {
  }

  /** A cluster without in-range points is no vehicle unless a minimum is minus
      infinity: its box has sides of minus infinity. */
  lemma EmptyClusterIsNoVehicle(l: Limits)
    ensures Within(DimensionsOf(EMPTY_BOX), l) ==>
              l.minLength == Infinite(true) && l.minWidth == Infinite(true) && l.minHeight == Infinite(true)
  {
  }

  // ------------------------------------------------------------- the cluster loop

  /** A detection message: identifier, box centre and size, hypotheses. */
  datatype Detection = Detection(id: string, cx: Double, cy: Double, cz: Double, sx: Double, sy: Double, sz: Double,
                                 results: seq<(string, Double)>)

  const DETECTION_CLASS := "car"
  const DETECTION_CONFIDENCE: Double := Finite(false, 0.8)

  function ClusterBox(cloud: seq<Point>, cluster: seq<int>): Box {
    BoxOf(Selected(cloud, cluster))
  }

  predicate IsVehicle(cloud: seq<Point>, cluster: seq<int>, l: Limits) {
    Within(DimensionsOf(ClusterBox(cloud, cluster)), l)
  }

  function DetectionOf(b: Box, number: nat): Detection {
    Detection(Decimal.Digits(number), Middle(b.minX, b.maxX), Middle(b.minY, b.maxY), Middle(b.minZ, b.maxZ),
              Sub(b.maxX, b.minX), Sub(b.maxY, b.minY), Sub(b.maxZ, b.minZ), [(DETECTION_CLASS, DETECTION_CONFIDENCE)])
  }

  /** `kept` lists, in order, exactly the clusters that pass the filter. */
  predicate KeptAre(kept: seq<nat>, cloud: seq<Point>, clusters: seq<seq<int>>, l: Limits) {
    && StrictlyIncreasing(kept)
    && (forall k :: 0 <= k < |kept| ==> kept[k] < |clusters| && IsVehicle(cloud, clusters[kept[k]], l))
    && (forall i :: 0 <= i < |clusters| && IsVehicle(cloud, clusters[i], l) ==> i in kept)
  }

  predicate DetectionsAre(ds: seq<Detection>, kept: seq<nat>, cloud: seq<Point>, clusters: seq<seq<int>>) {
    && |ds| == |kept|
    && forall k :: 0 <= k < |kept| ==>
         kept[k] < |clusters| && ds[k] == DetectionOf(ClusterBox(cloud, clusters[kept[k]]), k + 1)
  }

  lemma NothingKept(cloud: seq<Point>, l: Limits)
    ensures KeptAre([], cloud, [], l)
  {
  }

  lemma NothingDetected(cloud: seq<Point>, clusters: seq<seq<int>>)
    ensures DetectionsAre([], [], cloud, clusters)
  {
  }

  lemma KeptExtends(kept: seq<nat>, cloud: seq<Point>, clusters: seq<seq<int>>, l: Limits, i: nat)
    requires i < |clusters| && KeptAre(kept, cloud, clusters[..i], l)
    ensures KeptAre(if IsVehicle(cloud, clusters[i], l) then kept + [i] else kept, cloud, clusters[..i + 1], l)
  {
    hide IsVehicle;
    var kept' := if IsVehicle(cloud, clusters[i], l) then kept + [i] else kept;
    forall j | 0 <= j < i + 1 && IsVehicle(cloud, clusters[..i + 1][j], l) ensures j in kept' {
      if j < i {
        assert clusters[..i][j] == clusters[..i + 1][j];
        assert j in kept;
      } else {
        assert kept'[|kept|] == j;
      }
    }
  }

  lemma DetectionsExtend(ds: seq<Detection>, kept: seq<nat>, cloud: seq<Point>, clusters: seq<seq<int>>, i: nat)
    requires i < |clusters| && DetectionsAre(ds, kept, cloud, clusters)
    ensures DetectionsAre(ds + [DetectionOf(ClusterBox(cloud, clusters[i]), |ds| + 1)], kept + [i], cloud, clusters)
  {
    hide DetectionOf, ClusterBox;
  }

  /** The positions of the passing clusters. */
  function Kept(cloud: seq<Point>, clusters: seq<seq<int>>, l: Limits): (kept: seq<nat>)
    ensures KeptAre(kept, cloud, clusters, l)
    decreases |clusters|
  {
    hide IsVehicle, KeptAre;
    if clusters == [] then
      NothingKept(cloud, l);
      []
    else
      var n := |clusters| - 1;
      var before := Kept(cloud, clusters[..n], l);
      KeptExtends(before, cloud, clusters, l, n);
      assert clusters[..n + 1] == clusters;
      if IsVehicle(cloud, clusters[n], l) then before + [n] else before
  }

  /** Identifiers are 1..m over exactly the passing clusters, in cluster order. */
  method DetectVehicles(cloud: seq<Point>, clusters: seq<seq<int>>, l: Limits) returns (ds: seq<Detection>)
    ensures DetectionsAre(ds, Kept(cloud, clusters, l), cloud, clusters)
  {
    hide Within, BoxOf, Selected, Tight, KeptAre, DetectionsAre, DetectionOf, DimensionsOf;
    ds := [];
    var detectionId: nat := 0;
    var i := 0;
    NothingDetected(cloud, clusters);
    while i < |clusters|
      invariant 0 <= i <= |clusters| && detectionId == |ds|
      invariant DetectionsAre(ds, Kept(cloud, clusters[..i], l), cloud, clusters)
    {
      var box := ComputeAabb(cloud, clusters[i]);
      var dim := DimensionsOf(box);
      assert clusters[..i + 1][..i] == clusters[..i];
      DetectionsExtend(ds, Kept(cloud, clusters[..i], l), cloud, clusters, i);
      i := i + 1;
      if !Within(dim, l) {
        continue;
      }
      detectionId := detectionId + 1;
      ds := ds + [DetectionOf(box, detectionId)];
    }
    assert clusters[..i] == clusters;
  }

  /** Centre and size of a detection give back the two ends of an axis. */
  predicate Spans(center: Double, size: Double, vs: seq<real>) {
    && center.Finite? && size.Finite? && size.Value() >= 0.0
    && Least(vs, center.Value() - size.Value() / 2.0) && Greatest(vs, center.Value() + size.Value() / 2.0)
  }

  predicate Encloses(d: Detection, ps: seq<Point>) {
    Spans(d.cx, d.sx, Xs(ps)) && Spans(d.cy, d.sy, Ys(ps)) && Spans(d.cz, d.sz, Zs(ps))
  }

  lemma MiddleSpans(lo: Double, hi: Double, vs: seq<real>)
    requires AxisTight(lo, hi, vs) && vs != []
    ensures Spans(Middle(lo, hi), Sub(hi, lo), vs)
  {
    AxisEnds(lo, hi, vs);
    hide AxisTight, Least, Greatest;
    var c, s := Middle(lo, hi).Value(), Sub(hi, lo).Value();
    assert c - s / 2.0 == lo.Value() && c + s / 2.0 == hi.Value();
  }

  /** On each axis, centre minus and plus half the size are the least and the
      greatest coordinate of the cluster's points. */
  lemma DetectionEncloses(ps: seq<Point>, number: nat)
    requires ps != []
    ensures Encloses(DetectionOf(BoxOf(ps), number), ps)
  {
    hide BoxOf, AxisTight, Spans, Middle, Sub;
    BoxIsTight(ps);
    var b := BoxOf(ps);
    MiddleSpans(b.minX, b.maxX, Xs(ps));
    MiddleSpans(b.minY, b.maxY, Ys(ps));
    MiddleSpans(b.minZ, b.maxZ, Zs(ps));
  }

  /** So does the box of every published detection. */
  lemma DetectionsEnclose(cloud: seq<Point>, clusters: seq<seq<int>>, l: Limits, ds: seq<Detection>, k: nat)
    requires DetectionsAre(ds, Kept(cloud, clusters, l), cloud, clusters) && k < |ds|
    requires Selected(cloud, clusters[Kept(cloud, clusters, l)[k]]) != []
    ensures Encloses(ds[k], Selected(cloud, clusters[Kept(cloud, clusters, l)[k]]))
  {
    hide BoxOf, Selected, Encloses, Kept, KeptAre, DetectionOf;
    DetectionEncloses(Selected(cloud, clusters[Kept(cloud, clusters, l)[k]]), k + 1);
  }

  // ------------------------------------------------------- the sender's payload

  datatype Frame = Frame(sec: CivilTime.Int32, nanosec: CivilTime.Uint32, frameId: string, detections: seq<Detection>)

  function ItemOf(d: Detection): DetectionJson.Item {
    DetectionJson.Item(
      d.id,
      if d.results == [] then "" else d.results[0].0,
      if d.results == [] then Finite(false, 0.0) else d.results[0].1,
      d.cx, d.cy, d.cz,
      Max(d.sx, d.sy), Min(d.sx, d.sy), d.sz,
      Finite(false, 0.0))
  }

  method ToJsonPayload(frame: Frame) returns (payload: DetectionJson.Payload)
    ensures payload.stampSec == frame.sec && payload.stampNanosec == frame.nanosec && payload.frameId == frame.frameId
    ensures |payload.detections| == |frame.detections|
    ensures forall i :: 0 <= i < |frame.detections| ==> payload.detections[i] == ItemOf(frame.detections[i])
  {
    var items: seq<DetectionJson.Item> := [];
    var i := 0;
    while i < |frame.detections|
      invariant 0 <= i <= |frame.detections| && |items| == i
      invariant forall k :: 0 <= k < i ==> items[k] == ItemOf(frame.detections[k])
    {
      items := items + [ItemOf(frame.detections[i])];
      i := i + 1;
    }
    return DetectionJson.Payload(frame.sec, frame.nanosec, frame.frameId, items);
  }

  /** An item has the first hypothesis of its detection, or an empty label and
      confidence 0 without one; its centre is the box centre and its yaw is 0. */
  lemma ItemMeans(d: Detection, name: string, score: Double, more: seq<(string, Double)>)
    requires d.results == [(name, score)] + more || d.results == []
    ensures var item := ItemOf(d);
            && item.id == d.id && item.centerX == d.cx && item.centerY == d.cy && item.centerZ == d.cz
            && item.yaw == Finite(false, 0.0)
            && (if d.results == [] then item.classLabel == "" && item.confidence == Finite(false, 0.0)
                else item.classLabel == name && item.confidence == score)
  {
  }

  /** Length, width and height that the sender recomputes from the box size are
      the detector's, so they lie within the limits the detector filtered by. */
  lemma SenderAgreesWithDetector(cloud: seq<Point>, clusters: seq<seq<int>>, l: Limits, ds: seq<Detection>, k: nat)
    requires DetectionsAre(ds, Kept(cloud, clusters, l), cloud, clusters) && k < |ds|
    ensures var item, dim := ItemOf(ds[k]), DimensionsOf(ClusterBox(cloud, clusters[Kept(cloud, clusters, l)[k]]));
            && Dimensions(item.length, item.width, item.height) == dim
            && Within(Dimensions(item.length, item.width, item.height), l)
    ensures ItemOf(ds[k]).id == Decimal.Digits(k + 1) && ItemOf(ds[k]).classLabel == DETECTION_CLASS
  {
    hide BoxOf, Selected;
    assert IsVehicle(cloud, clusters[Kept(cloud, clusters, l)[k]], l);
  }
}
