/** The OCR result normaliser (`trans_result`): raw detections of the OCR engine
    become three index-aligned sequences of texts, scores and boxes. */
module Normalizer {
  import opened Wrappers

  /** A corner of a detected quadrilateral, in pixel coordinates. */
  datatype Point = Point(x: real, y: real)

  /** The quadrilateral of one detection, corners in the engine's order
      (top-left, top-right, bottom-right, bottom-left). */
  datatype Quad = Quad(p0: Point, p1: Point, p2: Point, p3: Point)

  /** One raw detection `(box, text, score)` as the engine reports it. */
  datatype Detection = Detection(box: Quad, text: string, score: real)

  /** An axis-aligned box whose fields are already rendered as strings. */
  datatype Box = Box(x: string, y: string, width: string, height: string)

  /** The `{'texts', 'scores', 'boxes'}` object of an `/ocr` reply. */
  datatype OcrResult = OcrResult(texts: seq<string>, scores: seq<string>, boxes: seq<Box>)

  /** The two number renderings: `toFixed` is `str(round(num, 2))`, used for box
      fields, and `score` is the `:.2f` format used for scores. Both are left
      uninterpreted. */
  datatype Format = Format(toFixed: real -> string, score: real -> string)

  function Empty(): OcrResult {
    OcrResult([], [], [])
  }

  /** The box of one detection: origin at corner 0, width along the top edge
      (corner 1), height along the right edge (corner 2). */
  function RenderBox(q: Quad, fmt: Format): Box {
    Box(fmt.toFixed(q.p0.x), fmt.toFixed(q.p0.y),
        fmt.toFixed(q.p1.x - q.p0.x), fmt.toFixed(q.p2.y - q.p0.y))
  }

  /** Row `i` of `r` is built from detection `i` of `ds` alone: its text, its
      score, and a box with origin at corner 0, width `p1.x - p0.x` and height
      `p2.y - p0.y`. */
  ghost predicate RowFrom(r: OcrResult, ds: seq<Detection>, fmt: Format, i: int)
    requires 0 <= i < |ds| && |r.texts| == |ds| && |r.scores| == |ds| && |r.boxes| == |ds|
  {
    r.texts[i] == ds[i].text &&
    r.scores[i] == fmt.score(ds[i].score) &&
    r.boxes[i].x == fmt.toFixed(ds[i].box.p0.x) &&
    r.boxes[i].y == fmt.toFixed(ds[i].box.p0.y) &&
    r.boxes[i].width == fmt.toFixed(ds[i].box.p1.x - ds[i].box.p0.x) &&
    r.boxes[i].height == fmt.toFixed(ds[i].box.p2.y - ds[i].box.p0.y)
  }

  /** `r` holds one row per detection of `ds`, in input order. */
  ghost predicate Represents(r: OcrResult, ds: seq<Detection>, fmt: Format) {
    |r.texts| == |ds| && |r.scores| == |ds| && |r.boxes| == |ds| &&
    forall i :: 0 <= i < |ds| ==> RowFrom(r, ds, fmt, i)
  }

  /** The rows of a detection list, built by appending one row per detection. */
  function Rows(ds: seq<Detection>, fmt: Format): OcrResult
    decreases |ds|
  {
    if ds == [] then Empty()
    else
      AppendRow(Rows(ds[..|ds| - 1], fmt), ds[|ds| - 1], fmt)
  }

  /** `trans_result` as a function: `None` gives three empty sequences. */
  function Normalize(result: Option<seq<Detection>>, fmt: Format): OcrResult {
    match result
    case None => Empty()
    case Some(ds) => Rows(ds, fmt)
  }

  /** The result with the row of `d` appended. */
  function AppendRow(r: OcrResult, d: Detection, fmt: Format): OcrResult {
    OcrResult(r.texts + [d.text], r.scores + [fmt.score(d.score)], r.boxes + [RenderBox(d.box, fmt)])
  }

  /** Appending the row of `d` to a result that represents `ds` gives a result
      that represents `ds + [d]`. */
  lemma AppendRowRepresents(r: OcrResult, ds: seq<Detection>, d: Detection, fmt: Format)
    requires Represents(r, ds, fmt)
    ensures Represents(AppendRow(r, d, fmt), ds + [d], fmt)
  {
    var r', ds' := AppendRow(r, d, fmt), ds + [d];
    forall i | 0 <= i < |ds'| ensures RowFrom(r', ds', fmt, i) {
      if i < |ds| {
        assert RowFrom(r, ds, fmt, i);
        assert ds'[i] == ds[i];
      }
    }
  }

  /** The appended rows line up with the detections they came from. */
  lemma {:induction false} RowsRepresent(ds: seq<Detection>, fmt: Format)
    ensures Represents(Rows(ds, fmt), ds, fmt)
    decreases |ds|
  {
    if ds != [] {
      var init := ds[..|ds| - 1];
      RowsRepresent(init, fmt);
      AppendRowRepresents(Rows(init, fmt), init, ds[|ds| - 1], fmt);
      assert init + [ds[|ds| - 1]] == ds;
    }
  }

  /** `trans_result` never fails: `None` gives three empty sequences, a list of
      detections gives one aligned row per detection. */
  lemma NormalizeRepresents(result: Option<seq<Detection>>, fmt: Format)
    ensures result.None? ==> Normalize(result, fmt) == Empty()
    ensures result.Some? ==> Represents(Normalize(result, fmt), result.value, fmt)
  {
    if result.Some? {
      RowsRepresent(result.value, fmt);
    }
  }

  /** A normalised result is determined by its detections: two results that both
      represent the same list are equal. */
  lemma RepresentsUnique(r1: OcrResult, r2: OcrResult, ds: seq<Detection>, fmt: Format)
    requires Represents(r1, ds, fmt) && Represents(r2, ds, fmt)
    ensures r1 == r2
  {
    forall i | 0 <= i < |ds|
      ensures r1.texts[i] == r2.texts[i] && r1.scores[i] == r2.scores[i] && r1.boxes[i] == r2.boxes[i]
    {
      assert RowFrom(r1, ds, fmt, i) && RowFrom(r2, ds, fmt, i);
    }
  }

  /** `trans_result` as the server runs it: a loop appending to three lists. */
  method TransResult(result: Option<seq<Detection>>, fmt: Format) returns (r: OcrResult)
    ensures result.None? ==> r == Empty()
    ensures result.Some? ==> Represents(r, result.value, fmt)
    ensures r == Normalize(result, fmt)
  {
    var texts: seq<string> := [];
    var scores: seq<string> := [];
    var boxes: seq<Box> := [];
    if result.None? {
      return OcrResult(texts, scores, boxes);
    }
    var ds := result.value;
    for i := 0 to |ds|
      invariant Represents(OcrResult(texts, scores, boxes), ds[..i], fmt)
    {
      var d := ds[i];
      ghost var before := OcrResult(texts, scores, boxes);
      var box := RenderBox(d.box, fmt);
      boxes := boxes + [box];
      texts := texts + [d.text];
      scores := scores + [fmt.score(d.score)];
      AppendRowRepresents(before, ds[..i], d, fmt);
      assert ds[..i] + [d] == ds[..i + 1];
    }
    assert ds[..|ds|] == ds;
    r := OcrResult(texts, scores, boxes);
    NormalizeRepresents(result, fmt);
    RepresentsUnique(r, Normalize(result, fmt), ds, fmt);
  }
}
