/** The letterbox transform and its inverse (inference_engine/src/Preprocess.cpp,
    Postprocess.cpp and the box handling of InferenceServiceImpl.cpp), in exact
    arithmetic. */
module Letterbox {
  import opened Arithmetic
  import opened Common

  // -------------------------------------------------------------- geometry

  /** std::round: to the nearest integer, halves away from zero. */
  function Round(x: real): int {
    if 0.0 <= x then (x + 0.5).Floor else -((-x + 0.5).Floor)
  }

  function Min(a: real, b: real): real {
    if b < a then b else a
  }

  /** PreprocessMeta. */
  datatype Meta = Meta(scale: real, padX: int, padY: int, origWidth: int, origHeight: int)

  function Scale(origW: int, origH: int, target: int): real
    requires 0 < origW && 0 < origH
  {
    Min(target as real / origW as real, target as real / origH as real)
  }

  function NewSize(orig: int, scale: real): int {
    Round(orig as real * scale)
  }

  function Margin(target: int, size: int): int {
    (target - size) / 2
  }

  function MetaOf(origW: int, origH: int, target: int): Meta
    requires 0 < origW && 0 < origH
  {
    var scale := Scale(origW, origH, target);
    Meta(scale, Margin(target, NewSize(origW, scale)), Margin(target, NewSize(origH, scale)), origW, origH)
  }

  lemma RoundError(x: real)
    requires 0.0 <= x
    ensures 0 <= Round(x) && -0.5 < Round(x) as real - x <= 0.5
  {
  }

  /** Halves go away from zero on both sides. */
  lemma RoundIsOdd(x: real)
    ensures Round(-x) == -Round(x)
  {
  }

  lemma RoundExact(n: int)
    requires 0 <= n
    ensures Round(n as real) == n
  {
  }

  lemma RoundMonotone(x: real, y: real)
    requires 0.0 <= x <= y
    ensures Round(x) <= Round(y)
  {
  }

  /** The scale is positive, fits both sides, and one side exactly. */
  lemma ScaleFits(origW: int, origH: int, target: int)
    requires 0 < origW && 0 < origH && 0 < target
    ensures var scale := Scale(origW, origH, target);
            && 0.0 < scale
            && 0.0 <= origW as real * scale <= target as real
            && 0.0 <= origH as real * scale <= target as real
            && (origW >= origH ==> origW as real * scale == target as real && scale == target as real / origW as real)
            && (origH >= origW ==> origH as real * scale == target as real && scale == target as real / origH as real)
  {
    var w, h, t := origW as real, origH as real, target as real;
    DivTimes(t, w);
    DivTimes(t, h);
    if origH <= origW {
      DivLess(t, h, w);
      MulMono(h, w, t / w);
    }
    if origW <= origH {
      DivLess(t, w, h);
      MulMono(w, h, t / h);
    }
    DivPositive(t, w);
    DivPositive(t, h);
  }

  /** The longer side fills the canvas, the pasted rectangle lies inside it, and opposite
      margins differ by at most one pixel. */
  lemma Geometry(origW: int, origH: int, target: int)
    requires 0 < origW && 0 < origH && 0 < target
    ensures var m := MetaOf(origW, origH, target);
            var newW, newH := NewSize(origW, m.scale), NewSize(origH, m.scale);
            && 0.0 < m.scale
            && 0 <= newW <= target && 0 <= newH <= target
            && (origW >= origH ==> newW == target) && (origH >= origW ==> newH == target)
            && 0 <= m.padX && m.padX + newW <= target && 0 <= m.padY && m.padY + newH <= target
            && 0 <= (target - newW - m.padX) - m.padX <= 1
            && 0 <= (target - newH - m.padY) - m.padY <= 1
  {
    var scale := Scale(origW, origH, target);
    ScaleFits(origW, origH, target);
    RoundExact(target);
    RoundMonotone(origW as real * scale, target as real);
    RoundMonotone(origH as real * scale, target as real);
    RoundError(origW as real * scale);
    RoundError(origH as real * scale);
  }

  /** The resized image has pixels exactly when the longer side is at most 2·target times
      the shorter one; beyond that the shorter side rounds to zero. */
  lemma ResizedHasPixelsIff(origW: int, origH: int, target: int)
    requires 0 < origW && 0 < origH && 0 < target
    ensures var scale := Scale(origW, origH, target);
            1 <= NewSize(origW, scale) && 1 <= NewSize(origH, scale)
            <==> origW <= 2 * target * origH && origH <= 2 * target * origW
  {
    Geometry(origW, origH, target);
    ScaleFits(origW, origH, target);
    if origH <= origW {
      ShortSide(origH, origW, target);
      assert origH <= 2 * target * origW;
    } else {
      ShortSide(origW, origH, target);
      assert origW <= 2 * target * origH;
    }
  }

  lemma ShortSide(short: int, long: int, target: int)
    requires 0 < short <= long && 0 < target
    ensures 1 <= NewSize(short, target as real / long as real) <==> long <= 2 * target * short
  {
    var s, l, t := short as real, long as real, target as real;
    DivTimes(t, l);
    DivPositive(t, l);
    HalfOrMore(s, l, t, t / l);
    assert s * t == (short * target) as real;
  }

  lemma HalfOrMore(s: real, l: real, t: real, q: real)
    requires 0.0 < s && 0.0 < l && 0.0 < q && l * q == t
    ensures 1 <= Round(s * q) <==> l <= 2.0 * (s * t)
  {
    assert l * (s * q) == s * t;
    if 0.5 <= s * q {
      MulMono(0.5, s * q, l);
    } else {
      MulLess(l, s * q, 0.5);
    }
  }

  // ----------------------------------------------------------- the round trip

  function Abs(x: real): real {
    if x < 0.0 then -x else x
  }

  function Clamp(v: real, lo: real, hi: real): real
    requires lo <= hi
  {
    if v < lo then lo else if hi < v then hi else v
  }

  /** Where a coordinate of the image lands on the canvas. */
  function Forward(x: real, orig: int, size: int, pad: int): real
    requires 0 < orig
  {
    x * size as real / orig as real + pad as real
  }

  /** postprocess's inverse, before and after clamping. */
  function Unpad(v: real, pad: int, scale: real): real
    requires 0.0 < scale
  {
    (v - pad as real) / scale
  }

  function Restore(v: real, pad: int, scale: real, orig: int): real
    requires 0.0 < scale && 0 <= orig
  {
    Clamp(Unpad(v, pad, scale), 0.0, orig as real)
  }

  /** Clamping to an interval that holds x brings a value no farther from x. */
  lemma ClampNearer(v: real, x: real, hi: real)
    requires 0.0 <= x <= hi
    ensures Abs(Clamp(v, 0.0, hi) - x) <= Abs(v - x)
  {
  }

  /** Along one side, a coordinate comes back with an error of at most half a resized
      pixel, 0.5/scale. */
  lemma SideRoundTrip(x: real, orig: int, scale: real, pad: int)
    requires 0 < orig && 0.0 < scale && 0.0 <= x <= orig as real
    ensures Abs(Restore(Forward(x, orig, NewSize(orig, scale), pad), pad, scale, orig) - x) <= 0.5 / scale
  {
    var o, n := orig as real, NewSize(orig, scale) as real;
    var r := o * scale;
    RoundError(r);
    var u := x * n / o;
    var v := u / scale;
    assert Unpad(Forward(x, orig, NewSize(orig, scale), pad), pad, scale) == v;
    DivTimes(x * n, o);
    DivTimes(u, scale);
    DivTimes(0.5, scale);
    var half := 0.5 / scale;
    ErrorBound(x, o, n, scale, u, v, half);
    ClampNearer(v, x, o);
  }

  lemma ErrorBound(x: real, o: real, n: real, scale: real, u: real, v: real, half: real)
    requires 0.0 < o && 0.0 < scale && 0.0 <= x <= o
    requires -0.5 <= n - o * scale <= 0.5
    requires o * u == x * n && scale * v == u && scale * half == 0.5
    ensures Abs(v - x) <= half
  {
    ScaledError(x, o, n, scale, u, v);
    ScaledErrorBound(x, o, n - o * scale, scale * (v - x));
    assert scale * (-half) == -0.5;
    CancelLess(scale, v - x, half);
    CancelLess(scale, -half, v - x);
  }

  lemma ScaledError(x: real, o: real, n: real, scale: real, u: real, v: real)
    requires o * u == x * n && scale * v == u
    ensures o * (scale * (v - x)) == x * (n - o * scale)
  {
    assert scale * (v - x) == u - scale * x;
    assert o * (u - scale * x) == o * u - o * (scale * x);
    assert o * (scale * x) == x * (o * scale);
  }

  lemma ScaledErrorBound(x: real, o: real, d: real, e: real)
    requires 0.0 < o && 0.0 <= x <= o && -0.5 <= d <= 0.5 && o * e == x * d
    ensures -0.5 <= e <= 0.5
  {
    ProductAtMost(x, o, d);
    ProductAtLeast(x, o, d);
    CancelLess(o, e, 0.5);
    assert o * (-0.5) == -0.5 * o;
    CancelLess(o, -0.5, e);
  }

  lemma ProductAtMost(x: real, o: real, d: real)
    requires 0.0 <= x <= o && d <= 0.5
    ensures x * d <= 0.5 * o
  {
    MulMono(d, 0.5, x);
  }

  lemma ProductAtLeast(x: real, o: real, d: real)
    requires 0.0 <= x <= o && -0.5 <= d
    ensures -0.5 * o <= x * d
  {
    MulMono(-0.5, d, x);
  }

  /** The letterbox transform is undone to within half a resized pixel in x and in y. */
  lemma RoundTrip(origW: int, origH: int, target: int, x: real, y: real)
    requires 0 < origW && 0 < origH && 0 < target
    requires 0.0 <= x <= origW as real && 0.0 <= y <= origH as real
    ensures var m := MetaOf(origW, origH, target);
            && 0.0 < m.scale
            && Abs(Restore(Forward(x, origW, NewSize(origW, m.scale), m.padX), m.padX, m.scale,
                origW) - x) <= 0.5 / m.scale
            && Abs(Restore(Forward(y, origH, NewSize(origH, m.scale), m.padY), m.padY, m.scale,
                origH) - y) <= 0.5 / m.scale
  {
    var m := MetaOf(origW, origH, target);
    ScaleFits(origW, origH, target);
    SideRoundTrip(x, origW, m.scale, m.padX);
    SideRoundTrip(y, origH, m.scale, m.padY);
  }

  // ------------------------------------------------------------ postprocess

  datatype Detection = Detection(x1: real, y1: real, x2: real, y2: real, confidence: real, classId: int)

  /** static_cast<int>. */
  function Truncate(x: real): int {
    if 0.0 <= x then x.Floor else -((-x).Floor)
  }

  /** The complete 6-float rows; a shorter rest is ignored. */
  function Rows(raw: seq<real>): (rows: seq<seq<real>>)
    ensures |rows| == |raw| / 6 && forall i | 0 <= i < |rows| :: |rows[i]| == 6
  {
    seq(|raw| / 6, i requires 0 <= i < |raw| / 6 => raw[6 * i..6 * i + 6])
  }

  function Confident(threshold: real): seq<real> -> bool {
    (row: seq<real>) => |row| == 6 && threshold <= row[4]
  }

  predicate Usable(m: Meta) {
    0.0 < m.scale && 0 <= m.origWidth && 0 <= m.origHeight
  }

  /** One row in image coordinates. */
  function Restored(m: Meta, row: seq<real>): Detection
    requires Usable(m) && |row| == 6
  {
    Detection(Restore(row[0], m.padX, m.scale, m.origWidth), Restore(row[1], m.padY, m.scale, m.origHeight),
              Restore(row[2], m.padX, m.scale, m.origWidth), Restore(row[3], m.padY, m.scale, m.origHeight),
              row[4], Truncate(row[5]))
  }

  function AllRestored(m: Meta, rows: seq<seq<real>>): (out: seq<Detection>)
    requires Usable(m) && forall i | 0 <= i < |rows| :: |rows[i]| == 6
    ensures |out| == |rows| && forall i | 0 <= i < |rows| :: out[i] == Restored(m, rows[i])
  {
    seq(|rows|, i requires 0 <= i < |rows| => Restored(m, rows[i]))
  }

  /** Row i is the i-th six numbers of the output. */
  lemma RowsAreSixes(raw: seq<real>)
    ensures |Rows(raw)| == |raw| / 6
    ensures forall i, j | 0 <= i < |raw| / 6 && 0 <= j < 6 :: Rows(raw)[i][j] == raw[6 * i + j]
  {
  }

  /** static_cast<int> drops what is after the point. */
  lemma TruncateIs(x: real)
    ensures 0.0 <= x ==> 0 <= Truncate(x) && Truncate(x) as real <= x < (Truncate(x) + 1) as real
    ensures x < 0.0 ==> Truncate(x) <= 0 && (Truncate(x) - 1) as real < x <= Truncate(x) as real
  {
  }

  lemma ConfidentRows(threshold: real, rows: seq<seq<real>>)
    ensures forall i | 0 <= i < |Filter(Confident(threshold), rows)| :: |Filter(Confident(threshold), rows)[i]| == 6
  {
    forall i | 0 <= i < |Filter(Confident(threshold), rows)|
      ensures |Filter(Confident(threshold), rows)[i]| == 6
    {
      FilterMembers(Confident(threshold), rows, Filter(Confident(threshold), rows)[i]);
    }
  }

  ghost function ExpectedOf(rows: seq<seq<real>>, m: Meta, threshold: real): seq<Detection>
    requires Usable(m)
  {
    ConfidentRows(threshold, rows);
    AllRestored(m, Filter(Confident(threshold), rows))
  }

  ghost function Expected(raw: seq<real>, m: Meta, threshold: real): seq<Detection>
    requires Usable(m)
  {
    ExpectedOf(Rows(raw), m, threshold)
  }

  lemma OneMoreRow(rows: seq<seq<real>>, row: seq<real>, m: Meta, threshold: real)
    requires Usable(m) && |row| == 6
    ensures ExpectedOf(rows + [row], m, threshold)
            == ExpectedOf(rows, m, threshold) + if row[4] < threshold then [] else [Restored(m, row)]
  {
    ConfidentRows(threshold, rows);
    ConfidentRows(threshold, rows + [row]);
    FilterAppend(Confident(threshold), rows, row);
  }

  /** One row of postprocess: undo the padding and the scale, then clamp. */
  method RestoreRow(row: seq<real>, m: Meta) returns (d: Detection)
    requires Usable(m) && |row| == 6
    ensures d == Restored(m, row)
  {
    var x1, y1, x2, y2 := row[0], row[1], row[2], row[3];
    var classId := Truncate(row[5]);
    x1 := (x1 - m.padX as real) / m.scale;
    y1 := (y1 - m.padY as real) / m.scale;
    x2 := (x2 - m.padX as real) / m.scale;
    y2 := (y2 - m.padY as real) / m.scale;
    x1 := Clamp(x1, 0.0, m.origWidth as real);
    y1 := Clamp(y1, 0.0, m.origHeight as real);
    x2 := Clamp(x2, 0.0, m.origWidth as real);
    y2 := Clamp(y2, 0.0, m.origHeight as real);
    d := Detection(x1, y1, x2, y2, row[4], classId);
  }

  /** postprocess keeps exactly the complete rows at or above the threshold, in order,
      each mapped back to the image. */
  method Postprocess(raw: seq<real>, m: Meta, threshold: real) returns (results: seq<Detection>)
    requires Usable(m)
    ensures results == Expected(raw, m, threshold)
  {
    results := [];
    var numCandidates := |raw| / 6;
    ghost var rows := Rows(raw);
    for i := 0 to numCandidates
      invariant results == ExpectedOf(rows[..i], m, threshold)
    {
      var row := raw[6 * i..6 * i + 6];
      assert rows[..i + 1] == rows[..i] + [row];
      OneMoreRow(rows[..i], row, m, threshold);
      var conf := row[4];
      if conf < threshold {
        continue;
      }
      var result := RestoreRow(row, m);
      results := results + [result];
    }
    assert rows[..numCandidates] == rows;
  }

  /** The number of results is the number of confident rows. */
  lemma ResultsAreConfidentRows(raw: seq<real>, m: Meta, threshold: real)
    requires Usable(m)
    ensures |Expected(raw, m, threshold)| == Count(Confident(threshold), Rows(raw))
    ensures forall d | d in Expected(raw, m, threshold) :: threshold <= d.confidence
  {
    var rows := Rows(raw);
    var kept := Filter(Confident(threshold), rows);
    ConfidentRows(threshold, rows);
    FilterCount(Confident(threshold), Confident(threshold), rows);
    forall i | 0 <= i < |kept| ensures threshold <= kept[i][4] {
      FilterMembers(Confident(threshold), rows, kept[i]);
    }
  }

  /** What result k says of the six numbers from position p of the output on. */
  ghost predicate FromSix(d: Detection, raw: seq<real>, m: Meta, p: nat)
    requires Usable(m) && p + 6 <= |raw|
  {
    && d.x1 == Restore(raw[p], m.padX, m.scale, m.origWidth)
    && d.y1 == Restore(raw[p + 1], m.padY, m.scale, m.origHeight)
    && d.x2 == Restore(raw[p + 2], m.padX, m.scale, m.origWidth)
    && d.y2 == Restore(raw[p + 3], m.padY, m.scale, m.origHeight)
    && d.confidence == raw[p + 4] && d.classId == Truncate(raw[p + 5])
  }

  /** `kept` lists, in order, the complete sixes whose fifth number reaches the threshold. */
  ghost predicate KeepsConfident(raw: seq<real>, threshold: real, kept: seq<nat>) {
    && (forall i, j | 0 <= i < j < |kept| :: kept[i] < kept[j])
    && (forall i | 0 <= i < |kept| :: 6 * kept[i] + 6 <= |raw| && threshold <= raw[6 * kept[i] + 4])
    && (forall n: nat | 6 * n + 6 <= |raw| && threshold <= raw[6 * n + 4] :: n in kept)
  }

  /** What postprocess returns, said of the numbers themselves: the confident sixes, in
      order, each restored. */
  lemma ResultsFromOutput(raw: seq<real>, m: Meta, threshold: real) returns (kept: seq<nat>)
    requires Usable(m)
    ensures KeepsConfident(raw, threshold, kept) && |Expected(raw, m, threshold)| == |kept|
    ensures forall k | 0 <= k < |kept| :: FromSix(Expected(raw, m, threshold)[k], raw, m, 6 * kept[k])
  {
    var rows := Rows(raw);
    RowsAreSixes(raw);
    ConfidentRows(threshold, rows);
    kept := FilterSelects(Confident(threshold), rows);
    forall k | 0 <= k < |kept| ensures FromSix(Expected(raw, m, threshold)[k], raw, m, 6 * kept[k]) {
      SixOfRow(raw, m, kept[k]);
    }
  }

  lemma SixOfRow(raw: seq<real>, m: Meta, n: nat)
    requires Usable(m) && n < |raw| / 6
    ensures FromSix(Restored(m, Rows(raw)[n]), raw, m, 6 * n)
  {
    RowsAreSixes(raw);
    assert Rows(raw)[n][0] == raw[6 * n + 0];
  }

  predicate Inside(d: Detection, width: real, height: real) {
    0.0 <= d.x1 <= width && 0.0 <= d.x2 <= width && 0.0 <= d.y1 <= height && 0.0 <= d.y2 <= height
  }

  /** Every restored box lies in the image, and corners that were in order stay in order. */
  lemma BoxesStayInImage(m: Meta, row: seq<real>)
    requires Usable(m) && |row| == 6
    ensures Inside(Restored(m, row), m.origWidth as real, m.origHeight as real)
    ensures row[0] <= row[2] ==> Restored(m, row).x1 <= Restored(m, row).x2
    ensures row[1] <= row[3] ==> Restored(m, row).y1 <= Restored(m, row).y2
  {
    if row[0] <= row[2] {
      DivMono(row[0] - m.padX as real, row[2] - m.padX as real, m.scale);
    }
    if row[1] <= row[3] {
      DivMono(row[1] - m.padY as real, row[3] - m.padY as real, m.scale);
    }
  }

  /** The row that a perfect model would put out for a box of the original image. */
  function RowFor(m: Meta, box: Detection): (row: seq<real>)
    requires Usable(m) && 0 < m.origWidth && 0 < m.origHeight
    ensures |row| == 6
  {
    var newW, newH := NewSize(m.origWidth, m.scale), NewSize(m.origHeight, m.scale);
    [Forward(box.x1, m.origWidth, newW, m.padX), Forward(box.y1, m.origHeight, newH, m.padY),
     Forward(box.x2, m.origWidth, newW, m.padX), Forward(box.y2, m.origHeight, newH, m.padY),
     box.confidence, box.classId as real]
  }

  predicate Near(a: real, b: real, bound: real) {
    Abs(a - b) <= bound
  }

  /** A box of the image comes back from letterbox and postprocess with each coordinate
      within half a resized pixel, and with its confidence and class unchanged. */
  lemma BoxRoundTrip(origW: int, origH: int, target: int, box: Detection)
    requires 0 < origW && 0 < origH && 0 < target && Inside(box, origW as real, origH as real)
    ensures var m := MetaOf(origW, origH, target);
            && Usable(m)
            && var d := Restored(m, RowFor(m, box));
            && Near(d.x1, box.x1, 0.5 / m.scale) && Near(d.y1, box.y1, 0.5 / m.scale)
            && Near(d.x2, box.x2, 0.5 / m.scale) && Near(d.y2, box.y2, 0.5 / m.scale)
            && d.confidence == box.confidence && d.classId == box.classId
  {
    RoundTrip(origW, origH, target, box.x1, box.y1);
    RoundTrip(origW, origH, target, box.x2, box.y2);
  }

  // ------------------------------------------------- the service around the two

  /** An image as decoded: its size, or None if decoding failed. */
  datatype Image = Image(cols: int, rows: int)

  function Least(a: int, b: int): int {
    if b < a then b else a
  }

  /** Predict decodes at half size, and again at full size if that is too small. */
  method ChooseDecode(reduced: Option<Image>, full: Option<Image>, inputSize: int)
    returns (image: Option<Image>, factor: real)
    ensures factor == 1.0 || factor == 2.0
    ensures factor == 2.0 ==>
              && image == reduced
              && (reduced.Some? ==> inputSize <= reduced.value.cols && inputSize <= reduced.value.rows)
    ensures factor == 1.0 ==>
              && image == full && reduced.Some?
              && (reduced.value.cols < inputSize || reduced.value.rows < inputSize)
  {
    image, factor := reduced, 2.0;
    if image.Some? && Least(image.value.cols, image.value.rows) < inputSize {
      image := full;
      factor := 1.0;
    }
  }

  /** A half-size decode is only used where the letterbox then shrinks, or keeps, it. */
  lemma ReducedIsNeverEnlarged(image: Image, inputSize: int)
    requires 0 < inputSize <= image.cols && inputSize <= image.rows
    ensures 0.0 < Scale(image.cols, image.rows, inputSize) <= 1.0
  {
    ScaleFits(image.cols, image.rows, inputSize);
    assert inputSize <= image.cols;
    AtMostOne(image.cols as real, Scale(image.cols, image.rows, inputSize), inputSize as real);
  }

  lemma AtMostOne(w: real, scale: real, target: real)
    requires 0.0 < w && w * scale <= target <= w
    ensures scale <= 1.0
  {
    CancelLess(w, scale, 1.0);
  }

  function Scaled(d: Detection, factor: real): Detection {
    d.(x1 := d.x1 * factor, y1 := d.y1 * factor, x2 := d.x2 * factor, y2 := d.y2 * factor)
  }

  /** A reported box; the class name is "" if the model has no name for the id. */
  datatype Reported = Reported(box: Detection, className: string)

  function Report(d: Detection, factor: real, classNames: seq<string>): Reported {
    Reported(Scaled(d, factor), if 0 <= d.classId < |classNames| then classNames[d.classId] else "")
  }

  /** The response loop of Predict. */
  method FillResponse(detections: seq<Detection>, factor: real, classNames: seq<string>)
    returns (response: seq<Reported>)
    ensures |response| == |detections|
    ensures forall i | 0 <= i < |detections| :: response[i] == Report(detections[i], factor, classNames)
  {
    response := [];
    for i := 0 to |detections|
      invariant |response| == i
      invariant forall j | 0 <= j < i :: response[j] == Report(detections[j], factor, classNames)
    {
      var d := detections[i];
      var det := Detection(d.x1 * factor, d.y1 * factor, d.x2 * factor, d.y2 * factor, d.confidence, d.classId);
      var name := "";
      if d.classId >= 0 && d.classId < |classNames| {
        name := classNames[d.classId];
      }
      response := response + [Reported(det, name)];
    }
  }

  /** Reported boxes lie within factor times the decoded image, in order if they were. */
  lemma ReportedInside(m: Meta, row: seq<real>, factor: real)
    requires Usable(m) && |row| == 6 && 0.0 < factor
    ensures Inside(Scaled(Restored(m, row), factor), factor * m.origWidth as real, factor * m.origHeight as real)
    ensures row[0] <= row[2] ==> Scaled(Restored(m, row), factor).x1 <= Scaled(Restored(m, row), factor).x2
    ensures row[1] <= row[3] ==> Scaled(Restored(m, row), factor).y1 <= Scaled(Restored(m, row), factor).y2
  {
    BoxesStayInImage(m, row);
    ScaledInside(Restored(m, row), m.origWidth as real, m.origHeight as real, factor);
  }

  lemma ScaledInside(d: Detection, width: real, height: real, factor: real)
    requires Inside(d, width, height) && 0.0 < factor
    ensures Inside(Scaled(d, factor), factor * width, factor * height)
    ensures d.x1 <= d.x2 ==> Scaled(d, factor).x1 <= Scaled(d, factor).x2
    ensures d.y1 <= d.y2 ==> Scaled(d, factor).y1 <= Scaled(d, factor).y2
  {
    ScaledSide(d.x1, d.x2, width, factor);
    ScaledSide(d.y1, d.y2, height, factor);
  }

  lemma ScaledSide(a: real, b: real, hi: real, factor: real)
    requires 0.0 <= a <= hi && 0.0 <= b <= hi && 0.0 < factor
    ensures 0.0 <= a * factor <= factor * hi && 0.0 <= b * factor <= factor * hi
    ensures a <= b ==> a * factor <= b * factor
  {
    MulMono(0.0, a, factor);
    MulMono(a, hi, factor);
    MulMono(0.0, b, factor);
    MulMono(b, hi, factor);
    if a <= b {
      MulMono(a, b, factor);
    }
  }

  // -------------------------------------------------------- the input tensor

  /** One 8-bit pixel in OpenCV's channel order. */
  datatype Bgr = Bgr(b: int, g: int, r: int)

  predicate IsByte(x: int) {
    0 <= x < 256
  }

  const GREY := Bgr(114, 114, 114)

  /** Channel c of the RGB image. */
  function Channel(p: Bgr, c: int): int {
    if c == 0 then p.r else if c == 1 then p.g else p.b
  }

  /** The pixel of the padded image at row y, column x. */
  ghost function PaddedAt(resized: array2<Bgr>, padX: int, padY: int, y: int, x: int): Bgr
    reads resized
  {
    if 0 <= y - padY < resized.Length0 && 0 <= x - padX < resized.Length1 then resized[y - padY, x - padX] else GREY
  }

  method Pad(resized: array2<Bgr>, target: nat, padX: nat, padY: nat) returns (padded: array2<Bgr>)
    requires padX + resized.Length1 <= target && padY + resized.Length0 <= target
    ensures fresh(padded) && padded.Length0 == padded.Length1 == target
    ensures forall y, x | 0 <= y < target && 0 <= x < target :: padded[y, x] == PaddedAt(resized, padX, padY, y, x)
  {
    padded := new Bgr[target, target]((y, x) => GREY);
    forall y, x | 0 <= y < resized.Length0 && 0 <= x < resized.Length1 {
      padded[padY + y, padX + x] := resized[y, x];
    }
  }

  /** Index k into m blocks of n elements. */
  lemma BlockIndex(k: int, m: int, n: int)
    requires 0 < n && 0 <= k < m * n
    ensures 0 <= k / n < m && 0 <= k % n < n
  {
    if m <= k / n {
      MulMonoInt(m, k / n, n);
    }
  }

  /** Element k of plane c: pixels row by row, as floats in [0, 1]. */
  ghost function PlaneAt(padded: array2<Bgr>, k: int, c: int): real
    requires padded.Length0 == padded.Length1 && 0 <= k < padded.Length0 * padded.Length0
    reads padded
  {
    var n := padded.Length0;
    BlockIndex(k, n, n);
    Channel(padded[k / n, k % n], c) as real / 255.0
  }

  /** Element k of the tensor: element k mod T² of plane k / T². */
  ghost function TensorAt(padded: array2<Bgr>, k: int): real
    requires padded.Length0 == padded.Length1 && 0 < padded.Length0
    requires 0 <= k < 3 * (padded.Length0 * padded.Length0)
    reads padded
  {
    var size := padded.Length0 * padded.Length0;
    BlockIndex(k, 3, size);
    PlaneAt(padded, k % size, k / size)
  }

  /** convertTo and split: one plane of the float image. */
  method Plane(padded: array2<Bgr>, c: int) returns (plane: array<real>)
    requires padded.Length0 == padded.Length1
    ensures fresh(plane) && plane.Length == padded.Length0 * padded.Length0
    ensures forall k | 0 <= k < plane.Length :: plane[k] == PlaneAt(padded, k, c)
  {
    var n := padded.Length0;
    plane := new real[n * n];
    for k := 0 to n * n
      invariant forall j | 0 <= j < k :: plane[j] == PlaneAt(padded, j, c)
    {
      BlockIndex(k, n, n);
      plane[k] := Channel(padded[k / n, k % n], c) as real / 255.0;
    }
  }

  /** memcpy of one plane. */
  method CopyPlane(input: array<real>, offset: nat, plane: array<real>)
    requires input != plane && offset + plane.Length <= input.Length
    modifies input
    ensures forall k | 0 <= k < input.Length ::
              input[k] == if offset <= k < offset + plane.Length then plane[k - offset] else old(input[k])
  {
    forall j | 0 <= j < plane.Length {
      input[offset + j] := plane[j];
    }
  }

  lemma TensorPlane(padded: array2<Bgr>, c: int, k: int)
    requires padded.Length0 == padded.Length1 && 0 < padded.Length0 && 0 <= c < 3
    requires var size := padded.Length0 * padded.Length0; c * size <= k < c * size + size
    ensures var size := padded.Length0 * padded.Length0;
            0 <= k < 3 * size && TensorAt(padded, k) == PlaneAt(padded, k - c * size, c)
  {
    var size := padded.Length0 * padded.Length0;
    MulMonoInt(c, 2, size);
    MulMonoInt(0, c, size);
    DivUnique(k, size, c, k - c * size);
  }

  /** The copy loop: the three planes one after the other. */
  method PlanarCopy(padded: array2<Bgr>) returns (input: array<real>)
    requires padded.Length0 == padded.Length1 && 0 < padded.Length0
    ensures fresh(input) && input.Length == 3 * (padded.Length0 * padded.Length0)
    ensures forall k | 0 <= k < input.Length :: input[k] == TensorAt(padded, k)
  {
    var size := padded.Length0 * padded.Length0;
    MulAtLeast(padded.Length0, padded.Length0);
    input := new real[3 * size];
    for c := 0 to 3
      invariant forall k | 0 <= k < c * size :: input[k] == TensorAt(padded, k)
    {
      var plane := Plane(padded, c);
      CopyPlane(input, c * size, plane);
      forall k | c * size <= k < c * size + size ensures input[k] == TensorAt(padded, k) {
        TensorPlane(padded, c, k);
      }
    }
  }

  lemma TensorElement(padded: array2<Bgr>, c: int, y: int, x: int)
    requires padded.Length0 == padded.Length1
    requires 0 <= c < 3 && 0 <= y < padded.Length0 && 0 <= x < padded.Length0
    ensures var n := padded.Length0;
            var k := c * (n * n) + (y * n + x);
            0 <= k < 3 * (n * n) && TensorAt(padded, k) == Channel(padded[y, x], c) as real / 255.0
  {
    var n := padded.Length0;
    var size := n * n;
    var j := y * n + x;
    MulMonoInt(0, y, n);
    MulMonoInt(y, n - 1, n);
    DivUnique(j, n, y, x);
    TensorPlane(padded, c, c * size + j);
  }

  /** Where the pasted picture is, and what is around it. */
  lemma PaddedIs(resized: array2<Bgr>, padX: int, padY: int, y: int, x: int)
    ensures 0 <= y < resized.Length0 && 0 <= x < resized.Length1 ==>
              PaddedAt(resized, padX, padY, padY + y, padX + x) == resized[y, x]
    ensures y < padY || padY + resized.Length0 <= y || x < padX || padX + resized.Length1 <= x ==>
              PaddedAt(resized, padX, padY, y, x) == Bgr(114, 114, 114)
  {
  }

  /** The three planes tile the tensor: element c·T² + y·T + x is red, green or blue (c = 0, 1
      or 2) of pixel (y, x) of the padded image, divided by 255, and lies in [0, 1]. */
  lemma TensorLayout(padded: array2<Bgr>, c: int, y: int, x: int)
    requires padded.Length0 == padded.Length1
    requires 0 <= c < 3 && 0 <= y < padded.Length0 && 0 <= x < padded.Length0
    ensures var n := padded.Length0;
            var k := c * (n * n) + (y * n + x);
            var p := padded[y, x];
            && 0 <= k < 3 * (n * n)
            && TensorAt(padded, k) == Channel(p, c) as real / 255.0
            && TensorAt(padded, k) == (if c == 0 then p.r else if c == 1 then p.g else p.b) as real / 255.0
            && (IsByte(Channel(p, c)) ==> 0.0 <= TensorAt(padded, k) <= 1.0)
  {
    TensorElement(padded, c, y, x);
  }

  /** preprocessLetterbox.  `resized` is what cv::resize makes of the image: a picture of
      the size computed here, and an error (None) if that size is empty. */
  method PreprocessLetterbox(origW: int, origH: int, target: int, resized: Option<array2<Bgr>>)
    returns (r: Option<(array<real>, Meta)>)
    requires 0 < origW && 0 < origH && 0 < target
    requires var scale := Scale(origW, origH, target);
             var newW, newH := NewSize(origW, scale), NewSize(origH, scale);
             && (resized.Some? <==> 1 <= newW && 1 <= newH)
             && (resized.Some? ==> resized.value.Length0 == newH && resized.value.Length1 == newW)
    ensures r.Some? <==> origW <= 2 * target * origH && origH <= 2 * target * origW
    ensures r.Some? ==>
              && resized.Some? && r.value.1 == MetaOf(origW, origH, target) && Usable(r.value.1)
              && r.value.0.Length == 3 * (target * target)
              && forall c, y, x | 0 <= c < 3 && 0 <= y < target && 0 <= x < target ::
                   Element(r.value.0, target, c, y, x)
                   == Some(Channel(PaddedAt(resized.value, r.value.1.padX, r.value.1.padY, y, x), c) as real / 255.0)
  {
    var scale := Scale(origW, origH, target);
    ResizedHasPixelsIff(origW, origH, target);
    if resized.None? {
      return None;
    }
    Geometry(origW, origH, target);
    var padX := (target - NewSize(origW, scale)) / 2;
    var padY := (target - NewSize(origH, scale)) / 2;
    var padded := Pad(resized.value, target, padX, padY);
    var input := PlanarCopy(padded);
    forall c, y, x | 0 <= c < 3 && 0 <= y < target && 0 <= x < target
      ensures Element(input, target, c, y, x) 
              == Some(Channel(PaddedAt(resized.value, padX, padY, y, x), c) as real / 255.0)
    {
      TensorElement(padded, c, y, x);
    }
    return Some((input, Meta(scale, padX, padY, origW, origH)));
  }

  /** Element c·T² + y·T + x, if there is one. */
  ghost function Element(input: array<real>, target: int, c: int, y: int, x: int): Option<real>
    reads input
  {
    var k := c * (target * target) + (y * target + x);
    if 0 <= k < input.Length then Some(input[k]) else None
  }

  // ------------------------------------------------------- the whole of Predict

  /** The image that Predict works on, and the factor back to full size. */
  function Decoded(reduced: Option<Image>, full: Option<Image>, inputSize: int): (Option<Image>, real) {
    if reduced.Some? && Least(reduced.value.cols, reduced.value.rows) < inputSize then (full, 1.0) else (reduced, 2.0)
  }

  predicate NotEmpty(image: Option<Image>) {
    image.Some? ==> 0 < image.value.cols && 0 < image.value.rows
  }

  /** What cv::resize makes of an image: a picture of the letterbox's size, or a failure if
      that is empty. */
  predicate ResizeOf(image: Option<Image>, inputSize: int, resized: Option<array2<Bgr>>)
    requires NotEmpty(image)
  {
    image.Some? ==>
      var scale := Scale(image.value.cols, image.value.rows, inputSize);
      var newW, newH := NewSize(image.value.cols, scale), NewSize(image.value.rows, scale);
      && (resized.Some? <==> 1 <= newW && 1 <= newH)
      && (resized.Some? ==> resized.value.Length0 == newH && resized.value.Length1 == newW)
  }

  /** The letterbox has a picture to paste. */
  predicate Pastes(image: Image, inputSize: int) {
    image.cols <= 2 * inputSize * image.rows && image.rows <= 2 * inputSize * image.cols
  }

  lemma UsableMeta(image: Image, inputSize: int)
    requires 0 < image.cols && 0 < image.rows && 0 < inputSize
    ensures Usable(MetaOf(image.cols, image.rows, inputSize))
  {
    ScaleFits(image.cols, image.rows, inputSize);
  }

  ghost function ExpectedFor(image: Image, inputSize: int, raw: seq<real>, threshold: real): seq<Detection>
    requires 0 < image.cols && 0 < image.rows && 0 < inputSize
  {
    UsableMeta(image, inputSize);
    Expected(raw, MetaOf(image.cols, image.rows, inputSize), threshold)
  }

  /** Predict, from the decoded images on, with the engine's first output (None if it has
      none): decode choice, letterbox, postprocessing and response.  It answers unless the
      image cannot be decoded or resized or there is no output, and then with one report per
      confident row, in order, whose box lies within factor times the decoded image. */
  method Predict(reduced: Option<Image>, full: Option<Image>, inputSize: int,
                 resizedReduced: Option<array2<Bgr>>, resizedFull: Option<array2<Bgr>>,
                 output: Option<seq<real>>, threshold: real, classNames: seq<string>)
    returns (response: Option<seq<Reported>>)
    requires 0 < inputSize && NotEmpty(reduced) && NotEmpty(full)
    requires ResizeOf(reduced, inputSize, resizedReduced) && ResizeOf(full, inputSize, resizedFull)
    ensures var (image, _) := Decoded(reduced, full, inputSize);
            response.Some? <==> image.Some? && Pastes(image.value, inputSize) && output.Some?
    ensures var (image, factor) := Decoded(reduced, full, inputSize);
            response.Some? ==>
              && |response.value| == Count(Confident(threshold), Rows(output.value))
              && (forall r | r in response.value ::
                    && Inside(r.box, factor * image.value.cols as real, factor * image.value.rows as real)
                    && threshold <= r.box.confidence)
              && var expected := ExpectedFor(image.value, inputSize, output.value, threshold);
                 Reports(response.value, expected, factor, classNames)
  {
    var image, factor := ChooseDecode(reduced, full, inputSize);
    if image.None? {
      return None;
    }
    var resized := if factor == 1.0 then resizedFull else resizedReduced;
    var tensor := PreprocessLetterbox(image.value.cols, image.value.rows, inputSize, resized);
    if tensor.None? || output.None? {
      return None;
    }
    var meta := tensor.value.1;
    var detections := Postprocess(output.value, meta, threshold);
    var reports := FillResponse(detections, factor, classNames);
    ReportsAreInside(reports, output.value, meta, threshold, factor, classNames);
    return Some(reports);
  }

  ghost predicate Reports(response: seq<Reported>, detections: seq<Detection>, factor: real, classNames: seq<string>) {
    && |response| == |detections|
    && forall k | 0 <= k < |response| :: response[k] == Report(detections[k], factor, classNames)
  }

  lemma ReportsAreInside(response: seq<Reported>, raw: seq<real>, m: Meta, threshold: real, factor: real,
                         classNames: seq<string>)
    requires Usable(m) && 0.0 < factor && Reports(response, Expected(raw, m, threshold), factor, classNames)
    ensures |response| == Count(Confident(threshold), Rows(raw))
    ensures forall r | r in response :: ReportOk(r, m, threshold, factor)
  {
    var detections := Expected(raw, m, threshold);
    ResultsAreConfidentRows(raw, m, threshold);
    forall k | 0 <= k < |response| ensures ReportOk(response[k], m, threshold, factor) {
      assert detections[k] in detections;
      ExpectedInside(raw, m, threshold, k);
      ReportInside(detections[k], m, threshold, factor, classNames);
    }
    assert forall r | r in response :: ReportOk(r, m, threshold, factor);
  }

  /** A report's box lies within factor times the image, and is confident. */
  predicate ReportOk(r: Reported, m: Meta, threshold: real, factor: real) {
    && Inside(r.box, factor * m.origWidth as real, factor * m.origHeight as real)
    && threshold <= r.box.confidence
  }

  lemma ReportInside(d: Detection, m: Meta, threshold: real, factor: real, classNames: seq<string>)
    requires Inside(d, m.origWidth as real, m.origHeight as real) && threshold <= d.confidence && 0.0 < factor
    ensures ReportOk(Report(d, factor, classNames), m, threshold, factor)
  {
    ScaledInside(d, m.origWidth as real, m.origHeight as real, factor);
  }

  lemma ExpectedInside(raw: seq<real>, m: Meta, threshold: real, k: nat)
    requires Usable(m) && k < |Expected(raw, m, threshold)|
    ensures Inside(Expected(raw, m, threshold)[k], m.origWidth as real, m.origHeight as real)
  {
    ConfidentRows(threshold, Rows(raw));
    BoxesStayInImage(m, Filter(Confident(threshold), Rows(raw))[k]);
  }

  // the round trip through all of it

  lemma ScaledNear(a: real, b: real, bound: real, factor: real)
    requires Near(a, b, bound) && 0.0 < factor
    ensures Near(a * factor, b * factor, bound * factor)
  {
    MulMono(a - b, bound, factor);
    MulMono(-bound, a - b, factor);
    assert (a - b) * factor == a * factor - b * factor;
    assert (-bound) * factor == -(bound * factor);
  }

  /** The four coordinates of a box. */
  function Side(d: Detection, k: int): real {
    if k == 0 then d.x1 else if k == 1 then d.y1 else if k == 2 then d.x2 else d.y2
  }

  ghost predicate NearBox(a: Detection, b: Detection, bound: real) {
    forall k | 0 <= k < 4 :: Near(Side(a, k), Side(b, k), bound)
  }

  lemma ScaledSideIs(d: Detection, factor: real, k: int)
    ensures Side(Scaled(d, factor), k) == Side(d, k) * factor
  {
  }

  lemma ScaledSideNear(a: Detection, b: Detection, bound: real, factor: real, k: int)
    requires Near(Side(a, k), Side(b, k), bound) && 0.0 < factor
    ensures Near(Side(Scaled(a, factor), k), Side(Scaled(b, factor), k), bound * factor)
  {
    ScaledSideIs(a, factor, k);
    ScaledSideIs(b, factor, k);
    ScaledNear(Side(a, k), Side(b, k), bound, factor);
  }

  lemma ScaledBoxNear(a: Detection, b: Detection, bound: real, factor: real)
    requires NearBox(a, b, bound) && 0.0 < factor
    ensures NearBox(Scaled(a, factor), Scaled(b, factor), bound * factor)
  {
    forall k | 0 <= k < 4 ensures Near(Side(Scaled(a, factor), k), Side(Scaled(b, factor), k), bound * factor) {
      ScaledSideNear(a, b, bound, factor, k);
    }
  }

  lemma BoxReturns(origW: int, origH: int, target: int, box: Detection)
    requires 0 < origW && 0 < origH && 0 < target && Inside(box, origW as real, origH as real)
    ensures var m := MetaOf(origW, origH, target);
            Usable(m) && NearBox(Restored(m, RowFor(m, box)), box, 0.5 / m.scale)
  {
    BoxRoundTrip(origW, origH, target, box);
  }

  lemma SameLabel(d: Detection, factor: real)
    ensures Scaled(d, factor).confidence == d.confidence && Scaled(d, factor).classId == d.classId
  {
  }

  /** The output of a model that finds exactly these boxes of the image: six numbers each. */
  ghost predicate Finds(raw: seq<real>, image: Image, inputSize: int, boxes: seq<Detection>, threshold: real)
    requires 0 < image.cols && 0 < image.rows && 0 < inputSize
  {
    UsableMeta(image, inputSize);
    && |raw| / 6 == |boxes|
    && (forall k | 0 <= k < |boxes| ::
          Inside(boxes[k], image.cols as real, image.rows as real) && threshold <= boxes[k].confidence)
    && forall k, j | 0 <= k < |boxes| && 0 <= j < 6 ::
         raw[6 * k + j] == RowFor(MetaOf(image.cols, image.rows, inputSize), boxes[k])[j]
  }

  /** If the model finds some boxes of the decoded image, the response has exactly those, in
      order, scaled by the factor, each coordinate within factor · 0.5/scale, and with their
      confidences and classes. */
  lemma FoundBoxesAreReported(response: seq<Reported>, image: Image, inputSize: int, raw: seq<real>,
                              boxes: seq<Detection>, threshold: real, factor: real, classNames: seq<string>)
    requires 0 < image.cols && 0 < image.rows && 0 < inputSize && 0.0 < factor
    requires Finds(raw, image, inputSize, boxes, threshold)
    requires Reports(response, ExpectedFor(image, inputSize, raw, threshold), factor, classNames)
    ensures var scale := MetaOf(image.cols, image.rows, inputSize).scale;
            && 0.0 < scale && |response| == |boxes|
            && forall k | 0 <= k < |boxes| :: FoundAt(response[k], boxes[k], 0.5 / scale, factor, classNames)
  {
    var m := MetaOf(image.cols, image.rows, inputSize);
    UsableMeta(image, inputSize);
    RowsFound(raw, m, boxes);
    AllFound(raw, m, boxes, threshold);
    forall k | 0 <= k < |boxes| ensures FoundAt(response[k], boxes[k], 0.5 / m.scale, factor, classNames) {
      BoxReturns(image.cols, image.rows, inputSize, boxes[k]);
      BoxRoundTrip(image.cols, image.rows, inputSize, boxes[k]);
      FoundIfNear(Restored(m, RowFor(m, boxes[k])), boxes[k], 0.5 / m.scale, factor, classNames);
    }
  }

  /** The report has each side of the box times the factor, up to the scaled bound, the same
      confidence and class, and the name of the class if it has one. */
  ghost predicate FoundAt(r: Reported, box: Detection, bound: real, factor: real, classNames: seq<string>) {
    && (forall k | 0 <= k < 4 :: Near(Side(r.box, k), Side(box, k) * factor, bound * factor))
    && r.box.confidence == box.confidence && r.box.classId == box.classId
    && r.className == if 0 <= box.classId < |classNames| then classNames[box.classId] else ""
  }

  lemma FoundIfNear(d: Detection, box: Detection, bound: real, factor: real, classNames: seq<string>)
    requires NearBox(d, box, bound) && 0.0 < factor && d.confidence == box.confidence && d.classId == box.classId
    ensures FoundAt(Report(d, factor, classNames), box, bound, factor, classNames)
  {
    ScaledBoxNear(d, box, bound, factor);
    SameLabel(d, factor);
    forall k | 0 <= k < 4 ensures Near(Side(Scaled(d, factor), k), Side(box, k) * factor, bound * factor) {
      ScaledSideIs(box, factor, k);
    }
  }

  lemma RowsFound(raw: seq<real>, m: Meta, boxes: seq<Detection>)
    requires Usable(m) && 0 < m.origWidth && 0 < m.origHeight && |raw| / 6 == |boxes|
    requires forall k, j | 0 <= k < |boxes| && 0 <= j < 6 :: raw[6 * k + j] == RowFor(m, boxes[k])[j]
    ensures |Rows(raw)| == |boxes| && forall k | 0 <= k < |boxes| :: Rows(raw)[k] == RowFor(m, boxes[k])
  {
    RowsAreSixes(raw);
    forall k | 0 <= k < |boxes| ensures Rows(raw)[k] == RowFor(m, boxes[k]) {
      forall j | 0 <= j < 6 ensures Rows(raw)[k][j] == RowFor(m, boxes[k])[j] {
        assert Rows(raw)[k][j] == raw[6 * k + j];
      }
    }
  }

  lemma AllFound(raw: seq<real>, m: Meta, boxes: seq<Detection>, threshold: real)
    requires Usable(m) && 0 < m.origWidth && 0 < m.origHeight && |Rows(raw)| == |boxes|
    requires forall k | 0 <= k < |boxes| :: threshold <= boxes[k].confidence && Rows(raw)[k] == RowFor(m, boxes[k])
    ensures |Expected(raw, m, threshold)| == |boxes|
    ensures forall k | 0 <= k < |boxes| :: Expected(raw, m, threshold)[k] == Restored(m, RowFor(m, boxes[k]))
  {
    ConfidentRows(threshold, Rows(raw));
    FilterAll(Confident(threshold), Rows(raw));
  }
}
