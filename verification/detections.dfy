/** The detection record every part of the application passes around: the dictionary
    `{'bbox': (x1, y1, x2, y2), 'confidence': conf, 'class': name, 'class_id': id}`
    built by the detector wrapper. Confidences are reals; Python's float rounding is not modelled. */
module Detections {

  /** Pixel corners of a box: (x1, y1) top-left, (x2, y2) bottom-right. */
  datatype BBox = BBox(x1: int, y1: int, x2: int, y2: int)

  datatype Detection = Detection(bbox: BBox, confidence: real, cls: string, classId: int)

  /** The class names of a detection list, in order. */
  function ClassesOf(dets: seq<Detection>): (r: seq<string>)
    ensures |r| == |dets|
    ensures forall i :: 0 <= i < |dets| ==> r[i] == dets[i].cls
  {
    if |dets| == 0 then [] else [dets[0].cls] + ClassesOf(dets[1..])
  }
}
