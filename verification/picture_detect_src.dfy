/** The earlier single-picture window (src/picture_detect.py): one processed view, a detection
    thread whose result is read back after it finishes, a save of the view whose encoder options
    follow the file extension, and a workbook of the detections. */
module PictureDetectSrc {
  import opened Wrappers
  import opened Strings
  import opened Detections
  import opened Summary
  import opened Images
  import opened Storage
  import opened Exporter

  // ---------------------------------------------------------------------------------------
  // The detection thread.
  // ---------------------------------------------------------------------------------------

  /** What the detector call did: returned a list or `None`, or raised with a message. */
  datatype DetectorAnswer = Answered(detections: Option<seq<Detection>>) | DetectorRaised(message: string)

  /** The thread's three attributes once `run` has finished. */
  datatype ThreadResult = ThreadResult(processedImage: Option<Image>, detections: Option<seq<Detection>>,
                                       error: Option<string>)

  /** `DetectionThread.run`: the copy is taken first, then the detector is called; an exception
      is captured as `error`, leaving `detections` at its initial `None`. */
  function Run(image: Image, answer: DetectorAnswer): (r: ThreadResult)
    ensures r.processedImage == Some(image)
    ensures r.error.Some? <==> answer.DetectorRaised?
    ensures r.error.Some? ==> r.detections.None? && r.error.value == answer.message
    ensures answer.Answered? ==> r.detections == answer.detections
  {
    match answer
    case Answered(dets) => ThreadResult(Some(image), dets, None)
    case DetectorRaised(msg) => ThreadResult(Some(image), None, Some(msg))
  }

  /** `if self.detection_thread.error:` — a captured message counts only when non-empty. */
  predicate Failed(t: ThreadResult) {
    t.error.Some? && t.error.value != ""
  }

  // ---------------------------------------------------------------------------------------
  // Saving the processed view.
  // ---------------------------------------------------------------------------------------

  /** The `cv2.imwrite` options: JPEG at quality 100 or PNG at compression 0. */
  datatype SaveFormat = Jpeg(quality: nat) | Png(compression: nat)

  function SaveFormatFor(path: string): (r: SaveFormat)
  {
    if EndsWith(ToLower(path), ".jpg") || EndsWith(ToLower(path), ".jpeg") then Jpeg(100) else Png(0)
  }

  /** The format is JPEG at full quality exactly when the lower-cased path ends in `.jpg` or
      `.jpeg`, whatever the case of the extension; every other path gets uncompressed PNG. */
  lemma SaveFormatForCorrect(path: string)
    ensures SaveFormatFor(path).Jpeg? <==> EndsWith(ToLower(path), ".jpg") || EndsWith(ToLower(path), ".jpeg")
    ensures SaveFormatFor(path).Jpeg? ==> SaveFormatFor(path).quality == 100
    ensures SaveFormatFor(path).Png? ==> SaveFormatFor(path).compression == 0
    ensures SaveFormatFor(path) == SaveFormatFor(ToLower(path))
  {
    ToLowerIdempotent(path);
  }

  lemma {:induction false} ToLowerIdempotent(s: string)
    ensures ToLower(ToLower(s)) == ToLower(s)
  {
    if |s| > 0 {
      ToLowerIdempotent(s[1..]);
      assert ToLower(s)[1..] == ToLower(s[1..]);
    }
  }

  datatype PictureSave =
    | NoPicture
    | NoPath
    | Written(fs: FileSystem, format: SaveFormat)
    | SaveWarned

  /** `save_detected_picture`: no processed view gives a warning; an empty dialog answer does
      nothing; otherwise the view converted to BGR is written with the options of its
      extension, and a conversion that raises is caught and reported. */
  function SaveDetectedPicture(fs: FileSystem, processed: Option<Image>, chosen: string): (r: PictureSave)
    ensures r.NoPicture? <==> processed.None?
    ensures r.NoPath? <==> processed.Some? && chosen == ""
    ensures r.Written? ==> r.format == SaveFormatFor(chosen)
    ensures r.Written? ==> forall p :: p != chosen ==> (p in r.fs <==> p in fs) && (p in fs ==> r.fs[p] == fs[p])
    ensures r.SaveWarned? <==> processed.Some? && chosen != "" && CvtSwap(processed.value).None?
  {
    match processed
    case None => NoPicture
    case Some(img) =>
      if chosen == "" then NoPath
      else match CvtSwap(img)
        case None => SaveWarned
        case Some(bgr) => Written(ImWrite(fs, chosen, bgr), SaveFormatFor(chosen))
  }

  /** A three-channel view is written and reads back as itself: the stored picture converted
      back to RGB is the view. */
  lemma SavedViewReadsBack(fs: FileSystem, rows: seq<seq<seq<int>>>, chosen: string)
    requires chosen != "" && !IsDir(fs, chosen)
    ensures var r := SaveDetectedPicture(fs, Some(Color(rows, 3)), chosen);
            && r.Written? && chosen in r.fs && r.fs[chosen] == File(Picture(Color(SwapRows(rows), 3)))
            && BgrToRgb(Some(r.fs[chosen].content.image)) == Some(Color(rows, 3))
  {
    ConvertRoundTrip(Some(Color(rows, 3)));
  }

  // ---------------------------------------------------------------------------------------
  // Saving the detection data.
  // ---------------------------------------------------------------------------------------

  /** What `save_data_detected_picture` ends in: a warning, an empty answer, the workbook
      written, or an exception escaping the slot. */
  datatype DataSave =
    | DataNoPicture
    | DataNoPath
    | WorkbookWritten(fs: FileSystem)
    | SlotRaised

  /** The suffixes for which pandas' `ExcelWriter` finds a writer engine: it takes the text
      after the last dot of the name and compares it, case-sensitively, with the extensions
      its engines declare (`.xlsx`/`.xlsm` for openpyxl, `.ods` for odf). Any other name,
      one typed without a suffix included, makes the writer raise `ValueError`; the save
      dialog's `*.xlsx` filter does not append the suffix. */
  predicate ExcelExtension(path: string) {
    EndsWith(path, ".xlsx") || EndsWith(path, ".xlsm") || EndsWith(path, ".ods")
  }

  /** `save_data_detected_picture` as written: only the processed view is checked; the loop
      then walks the thread's `detections`, which raises when it is `None`, and the workbook
      (the class sheet and the detail sheet) is written, the writer raising on a name it has
      no engine for and on a directory path. */
  function SaveDataAsWritten(fs: FileSystem, processed: Option<Image>, dets: Option<seq<Detection>>, chosen: string)
    : (r: DataSave)
    ensures r.DataNoPicture? <==> processed.None?
    ensures processed.Some? && chosen != "" && dets.None? ==> r.SlotRaised?
    ensures processed.Some? && chosen != "" && !ExcelExtension(chosen) ==> r.SlotRaised?
  {
    if processed.None? then DataNoPicture
    else if chosen == "" then DataNoPath
    else match dets
      case None => SlotRaised
      case Some(ds) =>
        if !ExcelExtension(chosen) then SlotRaised
        else match WriteFile(fs, chosen, WorkbookOf(ds))
        case None => SlotRaised
        case Some(fs1) => WorkbookWritten(fs1)
  }

  /** The detector's own exception path returns `None` without raising, so the thread records
      no error, the window accepts the result and the data button is enabled; pressing it with
      any file name raises out of the slot. */
  lemma SaveDataAsWrittenRaises(fs: FileSystem, image: Image, chosen: string)
    requires chosen != ""
    ensures var t := Run(image, Answered(None));
            && !Failed(t) && t.processedImage.Some?
            && SaveDataAsWritten(fs, t.processedImage, t.detections, chosen) == SlotRaised
  {
  }

  /** `save_data_detected_picture` with a `None` detection list rejected alongside the missing
      view. The later controller's `_check_data_available` goes further and also refuses an
      empty list; here an empty list still writes a workbook with no rows. */
  function SaveData(fs: FileSystem, processed: Option<Image>, dets: Option<seq<Detection>>, chosen: string)
    : (r: DataSave)
    ensures r.DataNoPicture? <==> processed.None? || dets.None?
    ensures r.SlotRaised? <==>
              processed.Some? && dets.Some? && chosen != "" && (IsDir(fs, chosen) || !ExcelExtension(chosen))
    ensures r.WorkbookWritten? ==> r.fs == fs[chosen := File(WorkbookOf(dets.value))]
  {
    if processed.None? || dets.None? then DataNoPicture
    else SaveDataAsWritten(fs, processed, dets, chosen)
  }

  /** The written workbook holds what the window computes: one class row per distinct class in
      first-seen order with counts summing to the number of detections, and one detail row per
      detection, in order, with top/left/bottom/right read from the box and extents as
      differences. */
  lemma SaveDataWorkbook(fs: FileSystem, processed: Option<Image>, dets: seq<Detection>, chosen: string)
    requires processed.Some? && chosen != "" && !IsDir(fs, chosen) && ExcelExtension(chosen)
    ensures var r := SaveData(fs, processed, Some(dets), chosen);
            && r.WorkbookWritten? && chosen in r.fs && r.fs[chosen].File?
            && var w := r.fs[chosen].content;
            && w.Workbook?
            && w.summary == ClassCounts(dets) && SumCounts(w.summary) == |dets| && DistinctKeys(w.summary)
            && (forall i, j :: 0 <= i < j < |w.summary| ==>
                  FirstIndex(ClassesOf(dets), w.summary[i].cls) < FirstIndex(ClassesOf(dets), w.summary[j].cls))
            && |w.details| == |dets|
            && (forall i :: 0 <= i < |dets| ==>
                  && w.details[i].top == dets[i].bbox.y1 && w.details[i].left == dets[i].bbox.x1
                  && w.details[i].bottom == dets[i].bbox.y2 && w.details[i].right == dets[i].bbox.x2
                  && w.details[i].width == dets[i].bbox.x2 - dets[i].bbox.x1
                  && w.details[i].height == dets[i].bbox.y2 - dets[i].bbox.y1)
  {
    ClassCountsSummary(dets);
    DetailRowsFaithful(dets);
  }

  /** With the guard, no result of the thread makes the data button raise on a file path the
      writer has an engine for: a captured error or a `None` list is turned away before the
      loop. */
  lemma SaveDataNeverRaisesOnFiles(fs: FileSystem, image: Image, answer: DetectorAnswer, chosen: string)
    requires !IsDir(fs, chosen) && ExcelExtension(chosen)
    ensures var t := Run(image, answer);
            !SaveData(fs, t.processedImage, t.detections, chosen).SlotRaised?
  {
  }

  /** Even with the guard, a name typed without a suffix in the save dialog makes the data
      button raise once detections exist, while the same name with `.xlsx` is written. */
  lemma SaveDataBareNameRaises(fs: FileSystem, image: Image, dets: seq<Detection>)
    requires !IsDir(fs, "report.xlsx")
    ensures SaveData(fs, Some(image), Some(dets), "report") == SlotRaised
    ensures SaveData(fs, Some(image), Some(dets), "report.xlsx").WorkbookWritten?
  {
    assert !EndsWith("report", ".xlsx") by { assert "report"[1..] != ".xlsx"; }
    assert !EndsWith("report", ".xlsm") by { assert "report"[1..] != ".xlsm"; }
    assert !EndsWith("report", ".ods") by { assert "report"[2..] != ".ods"; }
    assert EndsWith("report.xlsx", ".xlsx") by { assert "report.xlsx"[6..] == ".xlsx"; }
  }
}
