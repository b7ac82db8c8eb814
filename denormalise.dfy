/** Turning annotation rows into what the generators buffer: face boxes scaled from normalised
    to pixel coordinates, and landmark rows split into pairs and rounded to pixels. */
module Denormalise {
  import opened Records

  // ---------------------------------------------------------------------------------------
  // Numeric conversions

  /** `n` is `x` with its fractional part dropped (rounded toward zero). */
  predicate IsTruncation(n: int, x: real)
  {
    && (x >= 0.0 ==> n as real <= x < n as real + 1.0)
    && (x < 0.0 ==> n as real - 1.0 < x <= n as real)
  }

  /** `n` is the integer nearest to `x`, ties going to the even neighbour. */
  predicate IsHalfEvenRounding(n: int, x: real)
  {
    && -0.5 <= n as real - x <= 0.5
    && ((n as real - x == 0.5 || x - n as real == 0.5) ==> n % 2 == 0)
  }

  /** Python's `int()` applied to a number. */
  function Trunc(x: real): (n: int)
    ensures IsTruncation(n, x)
  {
    if x >= 0.0 then x.Floor else -((-x).Floor)
  }

  /** numpy's `round()`: to the nearest integer, halves to even. */
  function RoundHalfEven(x: real): (n: int)
    ensures IsHalfEvenRounding(n, x)
  {
    var f := x.Floor;
    var d := x - f as real;
    if d < 0.5 then f
    else if d > 0.5 then f + 1
    else if f % 2 == 0 then f
    else f + 1
  }

  /** Truncation is the only integer with its defining property, so `Trunc` is `int()`. */
  lemma TruncIsUnique(n: int, x: real)
    requires IsTruncation(n, x)
    ensures n == Trunc(x)
  {
  }

  /** The nearest integer with ties to even is unique, so `RoundHalfEven` is `np.round`. */
  lemma RoundHalfEvenIsUnique(n: int, x: real)
    requires IsHalfEvenRounding(n, x)
    ensures n == RoundHalfEven(x)
  {
  }

  // ---------------------------------------------------------------------------------------
  // Face boxes

  /** A row of the face file: `t track left top right bottom status`, coordinates normalised. */
  datatype FaceRecord = FaceRecord(
    time: real, track: int, left: real, top: real, right: real, bottom: real, status: string)

  /** `dlib.rectangle` (integer pixels) or `dlib.drectangle` (floating point). */
  datatype RectKind = Pixel | SubPixel

  datatype Rect = Rect(kind: RectKind, left: int, top: int, right: int, bottom: int)

  /** What the face generator buffers for one row: `(identifier, face, status)`. */
  datatype Face = Face(track: int, box: Rect, status: string)

  /** One face row scaled to the frame: horizontal coordinates by the width, vertical ones by
      the height, each truncated to an integer before the rectangle is built. */
  function DecodeFace(rec: FaceRecord, width: nat, height: nat, double: bool): (row: Row<Face>)
    ensures row.time == rec.time && row.item.track == rec.track && row.item.status == rec.status
    ensures row.item.box.kind == if double then SubPixel else Pixel
    ensures IsTruncation(row.item.box.left, rec.left * width as real)
    ensures IsTruncation(row.item.box.right, rec.right * width as real)
    ensures IsTruncation(row.item.box.top, rec.top * height as real)
    ensures IsTruncation(row.item.box.bottom, rec.bottom * height as real)
  {
    var box := Rect(
      if double then SubPixel else Pixel,
      Trunc(rec.left * width as real), Trunc(rec.top * height as real),
      Trunc(rec.right * width as real), Trunc(rec.bottom * height as real));
    Row(rec.time, Face(rec.track, box, rec.status))
  }

  /** The `double` flag picks the rectangle type only: the integer coordinates are the same. */
  lemma DoubleChangesOnlyKind(rec: FaceRecord, width: nat, height: nat)
    ensures DecodeFace(rec, width, height, true).item.box.(kind := Pixel)
         == DecodeFace(rec, width, height, false).item.box
  {
  }

  /** The face records are in non-decreasing time order, as `sort_values('t')` leaves them. */
  predicate RecordsSorted(records: seq<FaceRecord>)
  {
    forall i, j :: 0 <= i < j < |records| ==> records[i].time <= records[j].time
  }

  /** The records in time order are decoded one by one: decoding keeps every row's time, so the
      decoded rows are in time order exactly when the records are. */
  function FaceRows(sorted: seq<FaceRecord>, width: nat, height: nat, double: bool): (rows: seq<Row<Face>>)
    ensures |rows| == |sorted|
    ensures forall i :: 0 <= i < |rows| ==> rows[i] == DecodeFace(sorted[i], width, height, double)
    ensures TimeSorted(rows) <==> RecordsSorted(sorted)
  {
    seq(|sorted|, i requires 0 <= i < |sorted| => DecodeFace(sorted[i], width, height, double))
  }

  // ---------------------------------------------------------------------------------------
  // Landmark points

  /** `zip(a, a)` over one iterator: consecutive, non-overlapping pairs; an odd last element is dropped. */
  function Pairwise<T>(s: seq<T>): (pairs: seq<(T, T)>)
    ensures |pairs| == |s| / 2
    ensures forall k :: 0 <= k < |pairs| ==> pairs[k] == (s[2 * k], s[2 * k + 1])
    decreases |s|
  {
    if |s| < 2 then [] else [(s[0], s[1])] + Pairwise(s[2..])
  }

  datatype Point = Point(x: int, y: int)

  /** What the landmark generator buffers for one row: `(identifier, landmarks)`. */
  datatype Shape = Shape(track: int, points: seq<Point>)

  /** Why a landmark row cannot be decoded: no identifier column (`row[1]` fails), or no
      coordinate pair, so the points array is one-dimensional and `landmarks[:, 0]` fails. */
  datatype DecodeError = MissingIdentifier | NoLandmark

  /** One point of the landmarks array scaled to the frame and rounded to whole pixels:
      `np.round(x * width)`, `np.round(y * height)`. */
  function ToPixel(p: (real, real), width: nat, height: nat): (pt: Point)
    ensures IsHalfEvenRounding(pt.x, p.0 * width as real) && IsHalfEvenRounding(pt.y, p.1 * height as real)
  {
    Point(RoundHalfEven(p.0 * width as real), RoundHalfEven(p.1 * height as real))
  }

  /** Every point of the landmarks array scaled and rounded, in order. */
  function ToPixels(pairs: seq<(real, real)>, width: nat, height: nat): (points: seq<Point>)
    ensures |points| == |pairs|
    ensures forall k :: 0 <= k < |pairs| ==> points[k] == ToPixel(pairs[k], width, height)
  {
    if pairs == [] then [] else [ToPixel(pairs[0], width, height)] + ToPixels(pairs[1..], width, height)
  }

  /** One landmark row `t track x0 y0 x1 y1 ...`: coordinates paired up and scaled to pixels. */
  function DecodeShape(fields: seq<real>, width: nat, height: nat): (r: Result<Row<Shape>, DecodeError>)
    ensures |fields| < 2 ==> r == Err(MissingIdentifier)
    ensures 2 <= |fields| < 4 ==> r == Err(NoLandmark)
    ensures |fields| >= 4 ==> r.Ok?
    ensures r.Ok? ==> r.value.time == fields[0] && r.value.item.track == Trunc(fields[1])
    ensures r.Ok? ==> |r.value.item.points| == (|fields| - 2) / 2
    ensures r.Ok? ==> forall k :: 0 <= k < |r.value.item.points| ==>
              r.value.item.points[k] == ToPixel((fields[2 + 2 * k], fields[3 + 2 * k]), width, height)
  {
    if |fields| < 2 then Err(MissingIdentifier)
    else if |fields| < 4 then Err(NoLandmark)
    else
      var pairs := Pairwise(fields[2..]);
      var points := ToPixels(pairs, width, height);
      assert forall k :: 0 <= k < |pairs| ==> pairs[k] == (fields[2..][2 * k], fields[2..][2 * k + 1]);
      Ok(Row(fields[0], Shape(Trunc(fields[1]), points)))
  }

  /** The landmark file decoded in file order (no sorting); the first bad row is the error. */
  function LandmarkRows(table: seq<seq<real>>, width: nat, height: nat): (r: Result<seq<Row<Shape>>, DecodeError>)
    ensures r.Ok? <==> forall i :: 0 <= i < |table| ==> |table[i]| >= 4
    ensures r.Ok? ==> |r.value| == |table|
    ensures r.Ok? ==> forall i :: 0 <= i < |table| ==> DecodeShape(table[i], width, height) == Ok(r.value[i])
    decreases |table|
  {
    if table == [] then Ok([])
    else
      match DecodeShape(table[0], width, height)
      case Err(e) => Err(e)
      case Ok(row) =>
        match LandmarkRows(table[1..], width, height)
        case Err(e) => Err(e)
        case Ok(rest) => Ok([row] + rest)
  }
}
