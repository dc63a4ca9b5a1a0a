/** Validation and normalisation of a mark's geometry (`_unit` and `clean_data`).

    A stored coordinate is a whole number of steps of 0.00001 page widths, so rounding to five places is exact. */
module AnnotationGeometry {
  import opened Numbers
  import opened Text
  import opened Wrappers

  const MAX_DATA_BYTES: nat := 64 * 1024
  const MAX_POINTS: nat := 3000
  const MAX_RECTS: nat := 200
  const MAX_NOTE_CHARS: nat := 2000
  const STEPS: nat := 100000

  datatype Kind = Highlight | Underline | Pen | Note

  /** What a device sent where a coordinate is expected: anything `float` accepts, or something it refuses. */
  datatype Coordinate = Number(value: real) | NotANumber

  /** The JSON value of a mark; a missing or ill-typed member is None. */
  datatype RawData = RawData(
    isObject: bool,
    bytes: nat,
    rects: Option<seq<seq<Coordinate>>>,
    points: Option<seq<seq<Coordinate>>>,
    x: Option<Coordinate>,
    y: Option<Coordinate>,
    text: string)

  datatype Rect = Rect(x: nat, y: nat, w: nat, h: nat)
  datatype Point = Point(x: nat, y: nat)
  datatype Data = Rects(rects: seq<Rect>) | Points(points: seq<Point>) | TextNote(x: nat, y: nat, text: string)

  datatype BadData = BadData

  /** Nearest integer, ties to even, as Python rounds. */
  function RoundHalfEven(r: real): int {
    var f := r.Floor;
    var d := r - f as real;
    if d < 0.5 || (d == 0.5 && f % 2 == 0) then f else f + 1
  }

  function Unit(c: Coordinate): Option<nat> {
    if c.Number? && 0.0 <= c.value <= 1.0 then Some(RoundHalfEven(c.value * STEPS as real)) else None
  }

  function CleanRect(rect: seq<Coordinate>): Option<Rect> {
    if |rect| != 4 then None else
    match (Unit(rect[0]), Unit(rect[1]), Unit(rect[2]), Unit(rect[3]))
    case (Some(x), Some(y), Some(w), Some(h)) =>
      UnitInPage(rect[0]);
      UnitInPage(rect[1]);
      Some(Rect(x, y, Min(w, STEPS - x), Min(h, STEPS - y)))
    case _ => None
  }

  function CleanPoint(point: seq<Coordinate>): Option<Point> {
    if |point| != 2 then None else
    match (Unit(point[0]), Unit(point[1]))
    case (Some(x), Some(y)) => Some(Point(x, y))
    case _ => None
  }

  /** Every element cleaned, or nothing when one is refused. */
  function CleanAll<R, C>(raw: seq<R>, clean: R -> Option<C>): (all: Option<seq<C>>)
    ensures all.Some? <==> forall r <- raw :: clean(r).Some?
    ensures all.Some? ==> |all.value| == |raw| && forall i :: 0 <= i < |raw| ==> clean(raw[i]) == Some(all.value[i])
  {
    if raw == [] then Some([]) else
    match (CleanAll(raw[..|raw| - 1], clean), clean(raw[|raw| - 1]))
    case (Some(init), Some(last)) => Some(init + [last])
    case _ => None
  }

  /** The stored geometry and the searchable copy of a note's text. */
  function CleanData(kind: Kind, raw: RawData): Result<(Data, string), BadData> {
    if !raw.isObject || raw.bytes > MAX_DATA_BYTES then Failure(BadData) else
    match kind
    case Highlight | Underline =>
      if raw.rects.None? || !(1 <= |raw.rects.value| <= MAX_RECTS) then Failure(BadData) else
      (match CleanAll(raw.rects.value, CleanRect)
       case Some(rects) => Success((Rects(rects), ""))
       case None => Failure(BadData))
    case Pen =>
      if raw.points.None? || !(2 <= |raw.points.value| <= MAX_POINTS) then Failure(BadData) else
      (match CleanAll(raw.points.value, CleanPoint)
       case Some(points) => Success((Points(points), ""))
       case None => Failure(BadData))
    case Note =>
      var text := Strip(raw.text, IsBlank);
      if text == [] || |text| > MAX_NOTE_CHARS || raw.x.None? || raw.y.None? then Failure(BadData) else
      match (Unit(raw.x.value), Unit(raw.y.value))
      case (Some(x), Some(y)) => Success((TextNote(x, y, text), text))
      case _ => Failure(BadData)
  }

  lemma UnitInPage(c: Coordinate)
    ensures Unit(c).Some? ==> 0 <= Unit(c).value <= STEPS
  {
  }

  /** Rounding moves a coordinate by at most half a step. */
  lemma UnitIsNearest(c: Coordinate)
    requires Unit(c).Some?
    ensures -0.5 <= Unit(c).value as real - c.value * STEPS as real <= 0.5
  {
  }

  ghost predicate InPage(data: Data) {
    match data
    case Rects(rects) => forall r <- rects :: r.x + r.w <= STEPS && r.y + r.h <= STEPS
    case Points(points) => forall p <- points :: p.x <= STEPS && p.y <= STEPS
    case TextNote(x, y, _) => x <= STEPS && y <= STEPS
  }

  /** Whatever a device sends, an accepted mark lies on the page. */
  lemma AcceptedMarkIsOnThePage(kind: Kind, raw: RawData)
    requires CleanData(kind, raw).Success?
    ensures InPage(CleanData(kind, raw).value.0)
  {
  }

  // ---- what is stored is what was sent ----

  /** The whole number of steps nearest to a coordinate of the page; of two equally near, the even one. */
  ghost predicate Nearest(stored: nat, sent: Coordinate) {
    && sent.Number? && 0.0 <= sent.value <= 1.0
    && var off := stored as real - sent.value * 100000.0;
       -0.5 <= off <= 0.5 && (off == 0.5 || off == -0.5 ==> stored % 2 == 0)
  }

  /** A side of a rectangle: the length sent, cut off at the edge of the page. */
  ghost predicate Side(stored: nat, sent: Coordinate, from: nat) {
    exists full: nat :: Nearest(full, sent) && stored as int == Min(full, 100000 - from)
  }

  ghost predicate RectDepicts(sent: seq<Coordinate>, r: Rect) {
    && |sent| == 4
    && Nearest(r.x, sent[0]) && Nearest(r.y, sent[1]) && Side(r.w, sent[2], r.x) && Side(r.h, sent[3], r.y)
  }

  ghost predicate PointDepicts(sent: seq<Coordinate>, p: Point) {
    |sent| == 2 && Nearest(p.x, sent[0]) && Nearest(p.y, sent[1])
  }

  /** The stored geometry is what was sent for a mark of this kind. */
  ghost predicate Depicts(kind: Kind, raw: RawData, data: Data) {
    match kind
    case Highlight | Underline =>
      && data.Rects? && raw.rects.Some? && 1 <= |raw.rects.value| == |data.rects| <= 200
      && forall i :: 0 <= i < |data.rects| ==> RectDepicts(raw.rects.value[i], data.rects[i])
    case Pen =>
      && data.Points? && raw.points.Some? && 2 <= |raw.points.value| == |data.points| <= 3000
      && forall i :: 0 <= i < |data.points| ==> PointDepicts(raw.points.value[i], data.points[i])
    case Note =>
      && data.TextNote? && raw.x.Some? && raw.y.Some? && Nearest(data.x, raw.x.value) && Nearest(data.y, raw.y.value)
      && 1 <= |data.text| <= 2000 && Trimmed(raw.text, IsBlank, data.text)
  }

  lemma RoundingIsNearest(v: real, k: int, off: real)
    requires off == k as real - v
    ensures RoundHalfEven(v) == k <==> -0.5 <= off <= 0.5 && (off == 0.5 || off == -0.5 ==> k % 2 == 0)
  {
    var f := v.Floor;
    assert f as real <= v < f as real + 1.0;
    if k < f {
      assert k as real <= f as real - 1.0;
    } else if k > f + 1 {
      assert k as real >= f as real + 2.0;
    }
  }

  lemma UnitIsTheNearest(c: Coordinate, k: nat)
    ensures Unit(c) == Some(k) <==> Nearest(k, c)
  {
    if c.Number? && 0.0 <= c.value <= 1.0 {
      var v := c.value * 100000.0;
      RoundingIsNearest(v, k, k as real - v);
    }
  }

  lemma CleanRectDepicts(sent: seq<Coordinate>, r: Rect)
    ensures CleanRect(sent) == Some(r) <==> RectDepicts(sent, r)
  {
    if |sent| == 4 {
      UnitIsTheNearest(sent[0], r.x);
      UnitIsTheNearest(sent[1], r.y);
      SideIsClipped(r.w, sent[2], r.x);
      SideIsClipped(r.h, sent[3], r.y);
    }
  }

  lemma SideIsClipped(stored: nat, sent: Coordinate, from: nat)
    ensures Side(stored, sent, from) <==> Unit(sent).Some? && stored as int == Min(Unit(sent).value, STEPS - from)
  {
    if Unit(sent).Some? {
      UnitIsTheNearest(sent, Unit(sent).value);
    }
    forall full: nat ensures Nearest(full, sent) <==> Unit(sent) == Some(full) {
      UnitIsTheNearest(sent, full);
    }
  }

  lemma CleanPointDepicts(sent: seq<Coordinate>, p: Point)
    ensures CleanPoint(sent) == Some(p) <==> PointDepicts(sent, p)
  {
    if |sent| == 2 {
      UnitIsTheNearest(sent[0], p.x);
      UnitIsTheNearest(sent[1], p.y);
    }
  }

  lemma RectsDepict(raw: seq<seq<Coordinate>>, rects: seq<Rect>)
    ensures CleanAll(raw, CleanRect) == Some(rects) <==>
              |raw| == |rects| && forall i :: 0 <= i < |rects| ==> RectDepicts(raw[i], rects[i])
  {
    forall sent, r ensures CleanRect(sent) == Some(r) <==> RectDepicts(sent, r) {
      CleanRectDepicts(sent, r);
    }
    AllAreCleaned(raw, CleanRect, rects);
  }

  lemma PointsDepict(raw: seq<seq<Coordinate>>, points: seq<Point>)
    ensures CleanAll(raw, CleanPoint) == Some(points) <==>
              |raw| == |points| && forall i :: 0 <= i < |points| ==> PointDepicts(raw[i], points[i])
  {
    forall sent, p ensures CleanPoint(sent) == Some(p) <==> PointDepicts(sent, p) {
      CleanPointDepicts(sent, p);
    }
    AllAreCleaned(raw, CleanPoint, points);
  }

  lemma AllAreCleaned<R, C>(raw: seq<R>, clean: R -> Option<C>, all: seq<C>)
    ensures CleanAll(raw, clean) == Some(all) <==>
              |raw| == |all| && forall i :: 0 <= i < |raw| ==> clean(raw[i]) == Some(all[i])
  {
    if |raw| == |all| && forall i :: 0 <= i < |raw| ==> clean(raw[i]) == Some(all[i]) {
      var cleaned := CleanAll(raw, clean);
      assert cleaned.value == all;
    }
  }

  /** Geometry is accepted and stored exactly when it depicts what was sent; the searchable text is that of a note. */
  lemma {:induction false} StoredGeometryIsWhatWasSent(kind: Kind, raw: RawData, data: Data, text: string)
    ensures CleanData(kind, raw) == Success((data, text)) <==>
              && raw.isObject && raw.bytes <= 65536 && Depicts(kind, raw, data)
              && text == if data.TextNote? then data.text else ""
  {
    match kind
    case Highlight | Underline =>
      if raw.rects.Some? && data.Rects? {
        RectsDepict(raw.rects.value, data.rects);
      }
    case Pen =>
      if raw.points.Some? && data.Points? {
        PointsDepict(raw.points.value, data.points);
      }
    case Note =>
      if raw.x.Some? && raw.y.Some? && data.TextNote? {
        StripTrims(raw.text, IsBlank, data.text);
        UnitIsTheNearest(raw.x.value, data.x);
        UnitIsTheNearest(raw.y.value, data.y);
      }
  }

  /** The JSON a device reads back for stored geometry. */
  function Grid(k: nat): Coordinate {
    Number(k as real / STEPS as real)
  }

  function SentRect(r: Rect): seq<Coordinate> {
    [Grid(r.x), Grid(r.y), Grid(r.w), Grid(r.h)]
  }

  function SentPoint(p: Point): seq<Coordinate> {
    [Grid(p.x), Grid(p.y)]
  }

  function Sent(data: Data, bytes: nat): RawData {
    match data
    case Rects(rects) =>
      RawData(true, bytes, Some(seq(|rects|, i requires 0 <= i < |rects| => SentRect(rects[i]))), None, None, None, "")
    case Points(points) =>
      RawData(true, bytes, None, Some(seq(|points|, i requires 0 <= i < |points| => SentPoint(points[i]))),
              None, None, "")
    case TextNote(x, y, text) => RawData(true, bytes, None, None, Some(Grid(x)), Some(Grid(y)), text)
  }

  lemma GridIsFixed(k: nat)
    requires k <= STEPS
    ensures Unit(Grid(k)) == Some(k)
  {
  }

  lemma RectIsFixed(r: Rect)
    requires r.x + r.w <= STEPS && r.y + r.h <= STEPS
    ensures CleanRect(SentRect(r)) == Some(r)
  {
  }

  lemma RectsAreFixed(rects: seq<Rect>, bytes: nat)
    requires InPage(Rects(rects))
    ensures CleanAll(Sent(Rects(rects), bytes).rects.value, CleanRect) == Some(rects)
  {
    var again := Sent(Rects(rects), bytes).rects.value;
    forall i | 0 <= i < |rects| ensures CleanRect(again[i]) == Some(rects[i]) {
      RectIsFixed(rects[i]);
    }
    assert CleanAll(again, CleanRect).value == rects;
  }

  lemma PointsAreFixed(points: seq<Point>, bytes: nat)
    requires InPage(Points(points))
    ensures CleanAll(Sent(Points(points), bytes).points.value, CleanPoint) == Some(points)
  {
    var again := Sent(Points(points), bytes).points.value;
    forall i | 0 <= i < |points| ensures CleanPoint(again[i]) == Some(points[i]) {
      GridIsFixed(points[i].x);
      GridIsFixed(points[i].y);
    }
    assert CleanAll(again, CleanPoint).value == points;
  }

  /** Cleaning is idempotent: a mark read from the server and sent again is stored unchanged. */
  lemma {:induction false} CleanedMarkIsAFixedPoint(kind: Kind, raw: RawData, bytes: nat)
    requires CleanData(kind, raw).Success?
    requires bytes <= MAX_DATA_BYTES
    ensures CleanData(kind, Sent(CleanData(kind, raw).value.0, bytes)) == CleanData(kind, raw)
  {
    AcceptedMarkIsOnThePage(kind, raw);
    match CleanData(kind, raw).value.0
    case Rects(rects) => RectsAreFixed(rects, bytes);
    case Points(points) => PointsAreFixed(points, bytes);
    case TextNote(x, y, text) =>
      GridIsFixed(x);
      GridIsFixed(y);
  }

  /** `clean_data` itself: rectangles are collected one by one. */
  method Clean(kind: Kind, raw: RawData) returns (r: Result<(Data, string), BadData>)
    ensures r == CleanData(kind, raw)
  {
    if (kind == Highlight || kind == Underline) && raw.isObject && raw.bytes <= MAX_DATA_BYTES {
      if raw.rects.None? || !(1 <= |raw.rects.value| <= MAX_RECTS) {
        return Failure(BadData);
      }
      var rects := raw.rects.value;
      var cleaned: seq<Rect> := [];
      for i := 0 to |rects|
        invariant CleanAll(rects[..i], CleanRect) == Some(cleaned)
      {
        var rect := CleanRect(rects[i]);
        assert rects[..i + 1][..i] == rects[..i];
        if rect.None? {
          assert rects[i] in rects;
          return Failure(BadData);
        }
        cleaned := cleaned + [rect.value];
      }
      assert rects[..|rects|] == rects;
      return Success((Rects(cleaned), ""));
    }
    return CleanData(kind, raw);
  }
}
