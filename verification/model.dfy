/** The detector wrapper `YOLOModel` (src/module/model.py): loading, the mapping of raw
    inference rows to detection records, and the plotting fallback. The network itself is
    outside the model: its output is a parameter. */
module Yolo {
  import opened Wrappers
  import opened Strings
  import opened Detections
  import opened Images

  /** One row of `results[0].boxes.data`: corners, confidence and class index, all floats. */
  datatype RawRow = RawRow(x1: real, y1: real, x2: real, y2: real, conf: real, cls: real)

  /** What running the network on an image did: raised, or returned per-image row lists. */
  datatype Inference = InferenceRaised | Results(perImage: seq<seq<RawRow>>)

  /** The wrapper's state: whether a network is loaded, the class-name table, and the raw
      results of the last inference (`None` before any). */
  datatype ModelState = ModelState(loaded: bool, classNames: map<int, string>, lastResults: Option<seq<seq<RawRow>>>)

  const Initial := ModelState(false, map[], None)

  /** What constructing `YOLO(path)` did. */
  datatype LoadAttempt = LoadRaised | LoadedNetwork(names: Option<map<int, string>>)

  /** `load_model`: on success the network is installed and its `names` table, when it has one,
      replaces the class names (a network without one keeps the previous table); on failure
      nothing changes and `False` is returned. */
  function LoadModel(m: ModelState, attempt: LoadAttempt): (r: (ModelState, bool))
    ensures r.1 <==> attempt.LoadedNetwork?
    ensures !r.1 ==> r.0 == m
    ensures r.1 ==> r.0.loaded && r.0.lastResults == m.lastResults
    ensures r.1 && attempt.names.Some? ==> r.0.classNames == attempt.names.value
    ensures r.1 && attempt.names.None? ==> r.0.classNames == m.classNames
  {
    match attempt
    case LoadRaised => (m, false)
    case LoadedNetwork(names) => (m.(loaded := true, classNames := names.GetOr(m.classNames)), true)
  }

  /** Python's `int(x)` on a float: truncation toward zero. */
  function Truncate(x: real): (r: int)
    ensures 0.0 <= x ==> 0 <= r && r as real <= x < r as real + 1.0
    ensures x < 0.0 ==> r <= 0 && r as real - 1.0 < x <= r as real
  {
    if x >= 0.0 then x.Floor else -((-x).Floor)
  }

  /** The class name of a class index: the table's entry when the table is non-empty and has
      one, the decimal index otherwise. */
  function ClassName(names: map<int, string>, id: int): (r: string)
    ensures id in names ==> r == names[id]
    ensures id !in names ==> r == IntToString(id)
  {
    if |names| > 0 && id in names then names[id] else IntToString(id)
  }

  function ToDetection(row: RawRow, names: map<int, string>): Detection {
    var id := Truncate(row.cls);
    Detection(BBox(Truncate(row.x1), Truncate(row.y1), Truncate(row.x2), Truncate(row.y2)), row.conf, ClassName(names, id), id)
  }

  /** One detection per row, in row order. */
  function ToDetections(rows: seq<RawRow>, names: map<int, string>): (r: seq<Detection>)
    ensures |r| == |rows|
    ensures forall i :: 0 <= i < |rows| ==> r[i] == ToDetection(rows[i], names)
  {
    if |rows| == 0 then [] else [ToDetection(rows[0], names)] + ToDetections(rows[1..], names)
  }

  /** `detect`: `None` without a network or when inference raises; otherwise the raw results
      become the last results and the first image's rows are mapped to detections (an empty
      result list gives no detections). */
  function Detect(m: ModelState, inference: Inference): (r: (ModelState, Option<seq<Detection>>))
    ensures !m.loaded ==> r == (m, None)
    ensures m.loaded && inference.InferenceRaised? ==> r == (m, None)
    ensures m.loaded && inference.Results? ==>
              && r.0 == m.(lastResults := Some(inference.perImage))
              && r.1.Some?
              && (|inference.perImage| == 0 ==> r.1.value == [])
              && (|inference.perImage| > 0 ==> |r.1.value| == |inference.perImage[0]|)
  {
    if !m.loaded then (m, None)
    else match inference
      case InferenceRaised => (m, None)
      case Results(perImage) =>
        var dets := if |perImage| > 0 then ToDetections(perImage[0], m.classNames) else [];
        (m.(lastResults := Some(perImage)), Some(dets))
  }

  /** Each detection keeps the row's confidence, its corners are the row's corners truncated
      toward zero (so within one pixel of them), and its class name is looked up in the table
      or, failing that, is the class index written in decimal. */
  lemma DetectFaithful(m: ModelState, rows: seq<RawRow>, rest: seq<seq<RawRow>>, i: int)
    requires m.loaded && 0 <= i < |rows|
    ensures var d := Detect(m, Results([rows] + rest)).1.value[i];
            && d.confidence == rows[i].conf
            && d.classId == Truncate(rows[i].cls)
            && (d.classId in m.classNames ==> d.cls == m.classNames[d.classId])
            && (d.classId !in m.classNames ==> d.cls == IntToString(d.classId))
            && -1.0 < rows[i].x1 - d.bbox.x1 as real < 1.0
            && -1.0 < rows[i].y1 - d.bbox.y1 as real < 1.0
            && -1.0 < rows[i].x2 - d.bbox.x2 as real < 1.0
            && -1.0 < rows[i].y2 - d.bbox.y2 as real < 1.0
  {
  }

  /** `plot_detection`: a copy of the input when there are no last results (or none for any
      image) or when plotting raises (`plotted` is `None`); the plotted image otherwise. */
  function PlotDetection(m: ModelState, image: Image, plotted: Option<Image>): (r: Image)
    ensures m.lastResults.None? || |m.lastResults.value| == 0 || plotted.None? ==> r == image
    ensures m.lastResults.Some? && |m.lastResults.value| > 0 && plotted.Some? ==> r == plotted.value
  {
    if m.lastResults.None? || |m.lastResults.value| == 0 then image
    else plotted.GetOr(image)
  }
}
