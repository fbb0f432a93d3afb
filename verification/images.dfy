/** Image helpers of both `ImageUtils` revisions (module/image_utils.py and
    src/module/image_utils.py). Images are numpy arrays: only their rank, channel count and
    pixel values matter here. Drawing is modelled by its geometry (which rectangles and text
    origin would be handed to OpenCV); the rasterisation itself is OpenCV's. */
module Images {
  import opened Wrappers
  import opened Detections

  /** A numpy image: 2-D grey, 3-D with a channel axis, or an array of some other rank. */
  datatype Image =
    | Gray(grey: seq<seq<int>>)
    | Color(rows: seq<seq<seq<int>>>, channels: nat)
    | OtherRank(ndim: nat)

  /** Swap channels 0 and 2 of one pixel, keeping any further channels. */
  function SwapPixel(p: seq<int>): (q: seq<int>)
    ensures |q| == |p|
  {
    if |p| >= 3 then [p[2], p[1], p[0]] + p[3..] else p
  }

  function SwapRow(row: seq<seq<int>>): (r: seq<seq<int>>)
    ensures |r| == |row|
    ensures forall j :: 0 <= j < |row| ==> r[j] == SwapPixel(row[j])
  {
    if |row| == 0 then [] else [SwapPixel(row[0])] + SwapRow(row[1..])
  }

  function SwapRows(rows: seq<seq<seq<int>>>): (r: seq<seq<seq<int>>>)
    ensures |r| == |rows|
    ensures forall i :: 0 <= i < |rows| ==> r[i] == SwapRow(rows[i])
  {
    if |rows| == 0 then [] else [SwapRow(rows[0])] + SwapRows(rows[1..])
  }

  /** `cv2.cvtColor(img, COLOR_RGB2BGR)` (the same call as `COLOR_BGR2RGB`): accepts 3 or 4
      channels and yields 3 channels with red and blue exchanged (a fourth channel is dropped);
      anything else raises, shown as `None`. */
  function CvtSwap(img: Image): (r: Option<Image>)
    ensures r.Some? ==> r.value.Color? && r.value.channels == 3
  {
    match img
    case Color(rows, c) =>
      if c == 3 then Some(Color(SwapRows(rows), 3))
      else if c == 4 then Some(Color(DropAlphaRows(SwapRows(rows)), 3))
      else None
    case _ => None
  }

  function DropAlphaRow(row: seq<seq<int>>): (r: seq<seq<int>>)
    ensures |r| == |row|
  {
    if |row| == 0 then [] else [if |row[0]| >= 3 then row[0][..3] else row[0]] + DropAlphaRow(row[1..])
  }

  function DropAlphaRows(rows: seq<seq<seq<int>>>): (r: seq<seq<seq<int>>>)
    ensures |r| == |rows|
  {
    if |rows| == 0 then [] else [DropAlphaRow(rows[0])] + DropAlphaRows(rows[1..])
  }

  // ---------------------------------------------------------------------------------------
  // module/image_utils.py: converters guarded by rank AND channel count.
  // ---------------------------------------------------------------------------------------

  /** `convert_rgb_to_bgr`: identity on `None`, on anything not 3-D, and on a channel count
      other than 3; otherwise red and blue are exchanged. */
  function RgbToBgr(image: Option<Image>): (r: Option<Image>)
    ensures image.None? ==> r.None?
    ensures (image.Some? && !(image.value.Color? && image.value.channels == 3)) ==> r == image
    ensures image.Some? && image.value.Color? && image.value.channels == 3 ==>
              r == Some(Color(SwapRows(image.value.rows), 3))
  {
    match image
    case Some(Color(rows, 3)) => Some(Color(SwapRows(rows), 3))
    case _ => image
  }

  /** `convert_bgr_to_rgb`: the same guard and the same channel exchange. */
  function BgrToRgb(image: Option<Image>): (r: Option<Image>)
    ensures image.None? ==> r.None?
    ensures (image.Some? && !(image.value.Color? && image.value.channels == 3)) ==> r == image
  {
    match image
    case Some(Color(rows, 3)) => Some(Color(SwapRows(rows), 3))
    case _ => image
  }

  lemma SwapPixelTwice(p: seq<int>)
    ensures SwapPixel(SwapPixel(p)) == p
  {
    if |p| >= 3 {
      var q := SwapPixel(p);
      assert |q| == |p| && q[0] == p[2] && q[1] == p[1] && q[2] == p[0] && q[3..] == p[3..];
      var t := SwapPixel(q);
      assert |t| == |p| && t[0] == p[0] && t[1] == p[1] && t[2] == p[2] && t[3..] == p[3..];
      assert forall k :: 3 <= k < |p| ==> t[k] == t[3..][k - 3] == p[3..][k - 3] == p[k];
    }
  }

  lemma SwapRowTwice(row: seq<seq<int>>)
    ensures SwapRow(SwapRow(row)) == row
  {
    var r := SwapRow(SwapRow(row));
    forall j | 0 <= j < |row| ensures r[j] == row[j] {
      SwapPixelTwice(row[j]);
    }
  }

  /** Converting to BGR and back to RGB (or the other way round) gives back the input, for
      every input: the guard is the same on both sides and the exchange is its own inverse. */
  lemma ConvertRoundTrip(image: Option<Image>)
    ensures BgrToRgb(RgbToBgr(image)) == image
    ensures RgbToBgr(BgrToRgb(image)) == image
  {
    if image.Some? && image.value.Color? && image.value.channels == 3 {
      var rows := image.value.rows;
      var back := SwapRows(SwapRows(rows));
      forall i | 0 <= i < |rows| ensures back[i] == rows[i] {
        SwapRowTwice(rows[i]);
      }
      assert back == rows;
    }
  }

  // ---------------------------------------------------------------------------------------
  // src/module/image_utils.py: converters guarded by rank only.
  // ---------------------------------------------------------------------------------------

  /** Result of a call that may raise. */
  datatype Converted = Returned(image: Option<Image>) | Raised

  /** `convert_rgb_to_bgr` (and `convert_bgr_to_rgb`) of the src revision: identity on `None`
      and on anything not 3-D; every 3-D array goes to `cvtColor`, whatever its channel count. */
  function ConvertSrc(image: Option<Image>): (r: Converted)
    ensures image.None? || !image.value.Color? ==> r == Returned(image)
    ensures image.Some? && image.value.Color? && image.value.channels == 3 ==> r == Returned(RgbToBgr(image))
    ensures image.Some? && image.value.Color? && image.value.channels !in {3, 4} ==> r.Raised?
  {
    match image
    case Some(Color(rows, c)) =>
      var out := CvtSwap(Color(rows, c));
      if out.Some? then Returned(out) else Raised
    case _ => Returned(image)
  }

  /** The two revisions differ exactly on 3-D arrays whose channel count is not 3: the module
      revision returns them untouched, the src revision hands them to `cvtColor`, which drops
      the alpha channel of a 4-channel image and raises on any other count. */
  lemma ConvertRevisionsDiverge(rows: seq<seq<seq<int>>>, c: nat)
    requires c != 3
    ensures RgbToBgr(Some(Color(rows, c))) == Some(Color(rows, c))
    ensures c == 4 ==> ConvertSrc(Some(Color(rows, c))).Returned?
                       && ConvertSrc(Some(Color(rows, c))).image != Some(Color(rows, c))
    ensures c != 4 ==> ConvertSrc(Some(Color(rows, c))).Raised?
  {
  }

  // ---------------------------------------------------------------------------------------
  // draw_bounding_box geometry.
  // ---------------------------------------------------------------------------------------

  datatype Rect = Rect(left: int, top: int, right: int, bottom: int)

  /** What `draw_bounding_box` hands to OpenCV: nothing (the untouched copy is returned), or
      the box outline, the filled label background and the text origin. */
  datatype BoxDrawing = Skipped | Drawn(box: Rect, labelBg: Rect, textX: int, textY: int)

  /** `max(0, min(v, limit - 1))`. */
  function Clamp(v: int, limit: int): (r: int)
    ensures limit >= 1 ==> 0 <= r <= limit - 1
    ensures limit >= 1 && 0 <= v <= limit - 1 ==> r == v
  {
    if v < limit - 1 then (if v < 0 then 0 else v) else (if limit - 1 < 0 then 0 else limit - 1)
  }

  /** module/image_utils.py `draw_bounding_box`: `None` when the image or the box is `None`
      (the input is returned as it is); otherwise a drawing on a copy of an image of the given
      `height` x `width`, the label text measuring `textWidth` x `textHeight` (OpenCV's
      `getTextSize`, a parameter here). */
  function DrawBoundingBox(image: Option<(nat, nat)>, bbox: Option<BBox>, textWidth: nat, textHeight: nat)
    : (r: Option<BoxDrawing>)
    ensures r.None? <==> image.None? || bbox.None?
    ensures r.Some? ==>
              var (height, width) := image.value;
              var b := bbox.value;
              (r.value.Drawn? <==> Clamp(b.x1, width) < Clamp(b.x2, width) && Clamp(b.y1, height) < Clamp(b.y2, height))
    ensures r.Some? && r.value.Drawn? ==>
              var (height, width) := image.value;
              var b := bbox.value;
              var d := r.value;
              && d.box == Rect(Clamp(b.x1, width), Clamp(b.y1, height), Clamp(b.x2, width), Clamp(b.y2, height))
              && 0 <= d.box.left < d.box.right <= width - 1
              && 0 <= d.box.top < d.box.bottom <= height - 1
              && 0 <= d.labelBg.top <= d.labelBg.bottom == d.box.top
              && d.labelBg.top >= d.box.top - textHeight - 5
              && (d.labelBg.top == 0 || d.labelBg.top == d.box.top - textHeight - 5)
              && d.labelBg.left == d.box.left
              && d.labelBg.right <= width - 1 && d.labelBg.right <= d.box.left + textWidth
              && (d.labelBg.right == width - 1 || d.labelBg.right == d.box.left + textWidth)
              && d.textX == d.box.left && d.textY >= textHeight && d.textY >= d.box.top - 5
              && (d.textY == textHeight || d.textY == d.box.top - 5)
  {
    if image.None? || bbox.None? then None
    else
      var (height, width) := image.value;
      var b := bbox.value;
      var x1 := Clamp(b.x1, width);
      var y1 := Clamp(b.y1, height);
      var x2 := Clamp(b.x2, width);
      var y2 := Clamp(b.y2, height);
      if x2 <= x1 || y2 <= y1 then Some(Skipped)
      else
        var bgTop := if y1 - textHeight - 5 < 0 then 0 else y1 - textHeight - 5;
        var bgRight := if x1 + textWidth < width - 1 then x1 + textWidth else width - 1;
        var textY := if y1 - 5 < textHeight then textHeight else y1 - 5;
        Some(Drawn(Rect(x1, y1, x2, y2), Rect(x1, bgTop, bgRight, y1), x1, textY))
  }

  predicate Inside(b: BBox, height: nat, width: nat) {
    0 <= b.x1 < width && 0 <= b.x2 < width && 0 <= b.y1 < height && 0 <= b.y2 < height
  }

  /** Clamping only matters for boxes that leave the image: a box inside the image is drawn
      exactly where it is when it is non-degenerate and skipped otherwise. */
  lemma DrawInsideKeepsBox(height: nat, width: nat, b: BBox, tw: nat, th: nat)
    requires Inside(b, height, width)
    ensures var r := DrawBoundingBox(Some((height, width)), Some(b), tw, th);
            (b.x1 < b.x2 && b.y1 < b.y2 <==> r.value.Drawn?)
            && (r.value.Drawn? ==> r.value.box == Rect(b.x1, b.y1, b.x2, b.y2))
  {
  }

  /** src/module/image_utils.py `draw_bounding_box`: the truncated box, never clamped nor
      skipped, with the label background from (x1, y1 - textHeight - 5) to (x1 + textWidth, y1)
      and the text at (x1, y1 - 5). */
  function DrawBoundingBoxSrc(image: Option<(nat, nat)>, bbox: Option<BBox>, textWidth: nat, textHeight: nat)
    : (r: Option<BoxDrawing>)
    ensures r.None? <==> image.None? || bbox.None?
    ensures r.Some? ==> r.value.Drawn?
    ensures r.Some? ==> r.value.box == Rect(bbox.value.x1, bbox.value.y1, bbox.value.x2, bbox.value.y2)
    ensures r.Some? ==> r.value.labelBg.left == r.value.box.left && r.value.labelBg.bottom == r.value.box.top
                        && r.value.box.top - r.value.labelBg.top == textHeight + 5
                        && r.value.labelBg.right - r.value.labelBg.left == textWidth
  {
    if image.None? || bbox.None? then None
    else
      var b := bbox.value;
      Some(Drawn(Rect(b.x1, b.y1, b.x2, b.y2),
                 Rect(b.x1, b.y1 - textHeight - 5, b.x1 + textWidth, b.y1),
                 b.x1, b.y1 - 5))
  }

  /** The revisions disagree on a box that leaves the image: the module revision clamps it
      into the image, the src revision draws it where it is. */
  lemma DrawRevisionsDiverge()
    ensures DrawBoundingBox(Some((100, 100)), Some(BBox(-10, 20, 150, 60)), 30, 10)
            == Some(Drawn(Rect(0, 20, 99, 60), Rect(0, 5, 30, 20), 0, 15))
    ensures DrawBoundingBoxSrc(Some((100, 100)), Some(BBox(-10, 20, 150, 60)), 30, 10)
            == Some(Drawn(Rect(-10, 20, 150, 60), Rect(-10, 5, 20, 20), -10, 15))
  {
  }

  /** The revisions agree on a box well inside the image whose label fits above it. */
  lemma DrawRevisionsAgreeInside(height: nat, width: nat, b: BBox, tw: nat, th: nat)
    requires Inside(b, height, width) && b.x1 < b.x2 && b.y1 < b.y2
    requires b.y1 >= th + 5 && b.x1 + tw < width - 1
    ensures DrawBoundingBox(Some((height, width)), Some(b), tw, th)
            == DrawBoundingBoxSrc(Some((height, width)), Some(b), tw, th)
  {
  }

  // ---------------------------------------------------------------------------------------
  // Guards of the remaining helpers of module/image_utils.py.
  // ---------------------------------------------------------------------------------------

  /** What `scale_pixmap_to_widget` does: return the pixmap as it is, or scale it to a target. */
  datatype Scaling = Unscaled | ScaledTo(width: int, height: int, keepAspectRatio: bool)

  /** `scale_pixmap_to_widget`: a null pixmap or a missing widget is returned unchanged;
      otherwise the target is the widget size, floored at 1 x 1. */
  function ScalePixmapToWidget(pixmapIsNull: bool, widget: Option<(int, int)>, keepAspectRatio: bool)
    : (r: Scaling)
    ensures r.Unscaled? <==> pixmapIsNull || widget.None?
    ensures r.ScaledTo? ==> r.width >= 1 && r.height >= 1
    ensures r.ScaledTo? ==> r.keepAspectRatio == keepAspectRatio
    ensures r.ScaledTo? && widget.value.0 >= 1 ==> r.width == widget.value.0
    ensures r.ScaledTo? && widget.value.1 >= 1 ==> r.height == widget.value.1
  {
    if pixmapIsNull || widget.None? then Unscaled
    else
      var (w, h) := widget.value;
      ScaledTo(if w > 1 then w else 1, if h > 1 then h else 1, keepAspectRatio)
  }

  /** Outcome of `resize_image_with_aspect_ratio`'s guards. */
  datatype Resizing = NoImage | SameImage | Resize(targetWidth: Option<int>, targetHeight: Option<int>)

  /** `None` for no image, the input itself when both targets are `None`, a resize otherwise
      (the float aspect-ratio arithmetic of the resize is not modelled). */
  function ResizeWithAspectRatio(image: Option<Image>, targetWidth: Option<int>, targetHeight: Option<int>)
    : (r: Resizing)
    ensures r.NoImage? <==> image.None?
    ensures r.SameImage? <==> image.Some? && targetWidth.None? && targetHeight.None?
    ensures r.Resize? ==> r.targetWidth == targetWidth && r.targetHeight == targetHeight
  {
    if image.None? then NoImage
    else if targetWidth.None? && targetHeight.None? then SameImage
    else Resize(targetWidth, targetHeight)
  }

  /** What `add_text_overlay` draws on its copy. */
  datatype Overlay = NoOverlay | TextOverlay(background: Option<Rect>, textX: int, textY: int)

  /** `add_text_overlay`: the input is returned for no image or empty text; otherwise the text at
      `position`, over a background from (x - 5, y - textHeight - 5) to (x + textWidth + 5, y + 5). */
  function AddTextOverlay(image: Option<Image>, text: string, x: int, y: int, withBackground: bool,
                          textWidth: nat, textHeight: nat): (r: Overlay)
    ensures r.NoOverlay? <==> image.None? || text == ""
    ensures r.TextOverlay? ==> r.textX == x && r.textY == y
    ensures r.TextOverlay? ==> (r.background.Some? <==> withBackground)
    ensures r.TextOverlay? && withBackground ==>
              r.background.value.left < x < r.background.value.right
              && r.background.value.top < y - textHeight && y < r.background.value.bottom
  {
    if image.None? || text == "" then NoOverlay
    else
      var bg := if withBackground then Some(Rect(x - 5, y - textHeight - 5, x + textWidth + 5, y + 5)) else None;
      TextOverlay(bg, x, y)
  }
}
