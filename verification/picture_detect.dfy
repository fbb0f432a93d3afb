/** The single-picture controller (controller/picture_detect.py): the picture being shown, the
    two rendered views the worker sends back, the detections, the state of the four buttons and
    the summary text. Widget painting is not modelled; which image each frame widget shows is. */
module PictureDetect {
  import opened Wrappers
  import opened Detections
  import opened Summary
  import opened Images
  import opened Storage
  import opened Worker
  import opened Exporter

  /** Enabled flags of the Choose, Save-box, Save-warm-up and Save-data buttons. */
  datatype Buttons = Buttons(choose: bool, saveBindingBox: bool, saveWarmUp: bool, saveData: bool)

  /** The summary text of `_update_detections_info`: the total, the `class_counts` items and
      the numbered detail entries. */
  datatype Info = Info(total: nat, classes: seq<ClassCount>, details: seq<Numbered>)

  datatype Detector = Detector(
    currentImage: Option<Image>, bindingBox: Option<Image>, warmUp: Option<Image>,
    detections: Option<seq<Detection>>,
    buttons: Buttons,
    info: Option<Info>,
    shownBindingBox: Option<Image>, shownWarmUp: Option<Image>,
    dialogVisible: bool)

  /** `__init__` and `_setup_ui`: nothing loaded, only Choose enabled. */
  const Initial := Detector(None, None, None, None, Buttons(true, false, false, false), None, None, None, false)

  // ---------------------------------------------------------------------------------------
  // Summary text.
  // ---------------------------------------------------------------------------------------

  /** `_update_detections_info`: an empty list returns before touching the text; otherwise the
      text is replaced by the summary of `dets`. */
  function UpdateDetectionsInfo(info: Option<Info>, dets: seq<Detection>): (r: Option<Info>)
    ensures |dets| == 0 ==> r == info
    ensures |dets| > 0 ==> r.Some?
  {
    if |dets| == 0 then info
    else Some(Info(|dets|, ClassCounts(dets), Enumerate(dets, 1)))
  }

  /** The summary of a non-empty list: the total is the list's length; each class appears once,
      in the order it is first seen, with its exact number of occurrences, and the counts add up
      to the total; the details are every detection in input order, numbered from 1. */
  lemma UpdateDetectionsInfoCorrect(info: Option<Info>, dets: seq<Detection>)
    requires |dets| > 0
    ensures var r := UpdateDetectionsInfo(info, dets).value;
            && r.total == |dets|
            && DistinctKeys(r.classes)
            && KeySet(r.classes) == SetOf(ClassesOf(dets))
            && (forall i :: 0 <= i < |r.classes| ==> r.classes[i].count == Occurrences(ClassesOf(dets), r.classes[i].cls) > 0)
            && (forall i, j :: 0 <= i < j < |r.classes| ==>
                  FirstIndex(ClassesOf(dets), r.classes[i].cls) < FirstIndex(ClassesOf(dets), r.classes[j].cls))
            && SumCounts(r.classes) == r.total
            && |r.details| == |dets|
            && (forall i :: 0 <= i < |dets| ==> r.details[i].index == i + 1 && r.details[i].det == dets[i])
  {
    ClassCountsSummary(dets);
  }

  // ---------------------------------------------------------------------------------------
  // Button and view state.
  // ---------------------------------------------------------------------------------------

  /** `reset_ui`: Choose enabled, the three result buttons disabled, the text and both frame
      widgets cleared. The stored images and detections are left as they were. */
  function ResetUi(s: Detector): (r: Detector)
    ensures r.buttons == Buttons(true, false, false, false)
    ensures r.info.None? && r.shownBindingBox.None? && r.shownWarmUp.None?
    ensures r.currentImage == s.currentImage && r.bindingBox == s.bindingBox && r.warmUp == s.warmUp
    ensures r.detections == s.detections && r.dialogVisible == s.dialogVisible
  {
    s.(buttons := Buttons(true, false, false, false), info := None, shownBindingBox := None, shownWarmUp := None)
  }

  /** `_handle_error`: warn, reset the view and hide the progress dialog. */
  function HandleError(s: Detector): (r: Detector)
    ensures r == ResetUi(s).(dialogVisible := false)
  {
    ResetUi(s).(dialogVisible := false)
  }

  /** `_handle_static_detection_complete` followed by `_on_detection_complete`, which the
      `detection_finished` signal runs at once. A truthy payload (`Some`) installs the two
      rendered views and the detections, shows them, rewrites the text and enables the three
      result buttons; in every case the dialog is hidden and Choose enabled. */
  function HandleStaticComplete(s: Detector, payload: Option<StaticResults>): (r: Detector)
    ensures !r.dialogVisible && r.buttons.choose
    ensures r.currentImage == s.currentImage
    ensures payload.None? ==> r == s.(dialogVisible := false, buttons := s.buttons.(choose := true))
    ensures payload.Some? ==>
              && r.bindingBox == Some(payload.value.bindingBoxFrame) && r.shownBindingBox == r.bindingBox
              && r.warmUp == Some(payload.value.warmupFrame) && r.shownWarmUp == r.warmUp
              && r.detections == Some(payload.value.detections)
              && r.buttons == Buttons(true, true, true, true)
              && r.info == UpdateDetectionsInfo(s.info, payload.value.detections)
  {
    var s1 := match payload
      case None => s
      case Some(res) =>
        s.(bindingBox := Some(res.bindingBoxFrame), warmUp := Some(res.warmupFrame),
           detections := Some(res.detections),
           shownBindingBox := Some(res.bindingBoxFrame), shownWarmUp := Some(res.warmupFrame),
           info := UpdateDetectionsInfo(s.info, res.detections),
           buttons := Buttons(s.buttons.choose, true, true, true));
    s1.(dialogVisible := false, buttons := s1.buttons.(choose := true))
  }

  /** The outcome the worker reports for a static image reaches the controller either as the
      completion signal or as the error signal. Either way the dialog goes away, Choose is
      enabled and the picture stays; a failure leaves the result buttons disabled, the views
      and text cleared and the earlier detections in place, while a completion shows its two
      views, stores its detections and enables every button. */
  function Finish(s: Detector, out: StaticOutcome): (r: Detector)
    ensures !r.dialogVisible && r.buttons.choose && r.currentImage == s.currentImage
    ensures out.StaticFailed? ==>
              && r.buttons == Buttons(true, false, false, false)
              && r.shownBindingBox.None? && r.shownWarmUp.None? && r.info.None?
              && r.detections == s.detections && r.bindingBox == s.bindingBox && r.warmUp == s.warmUp
    ensures out.StaticComplete? ==>
              && r.buttons == Buttons(true, true, true, true)
              && r.detections == Some(out.results.detections)
              && r.shownBindingBox == Some(out.results.bindingBoxFrame)
              && r.shownWarmUp == Some(out.results.warmupFrame)
              && r.info == UpdateDetectionsInfo(s.info, out.results.detections)
  {
    match out
    case StaticFailed(_) => HandleError(s)
    case StaticComplete(res) => HandleStaticComplete(s, Some(res))
  }

  /** `select_picture` up to the hand-off to the worker. Without a model the view is reset;
      an empty dialog answer does nothing; a picture `cv2.imread` cannot read is reported
      through `_handle_error`; otherwise the picture, converted to RGB, becomes the current
      image, is shown in the bounding-box frame, and the dialog stays up while the worker runs. */
  function SelectPicture(s: Detector, modelLoaded: bool, path: string, read: Option<Image>): (r: Detector)
    ensures !modelLoaded ==> r == ResetUi(s)
    ensures modelLoaded && path == "" ==> r == s
    ensures modelLoaded && path != "" && read.None? ==> r == HandleError(s)
    ensures modelLoaded && path != "" && read.Some? ==>
              && r.currentImage == BgrToRgb(read) && r.currentImage.Some?
              && r.shownBindingBox == r.currentImage && r.dialogVisible
              && r.bindingBox == s.bindingBox && r.warmUp == s.warmUp && r.detections == s.detections
              && r.buttons == s.buttons
  {
    if !modelLoaded then ResetUi(s)
    else if path == "" then s
    else if read.None? then HandleError(s.(dialogVisible := true))
    else
      var current := BgrToRgb(read);
      s.(currentImage := current, shownBindingBox := current, dialogVisible := true)
  }

  // ---------------------------------------------------------------------------------------
  // Saving.
  // ---------------------------------------------------------------------------------------

  /** The `frames` dictionary of `save_detected_picture`, looked up by `image_type`: the two
      known types name their view, any other type finds nothing. */
  function FrameFor(s: Detector, imageType: string): (r: Option<Image>)
    ensures imageType != "binding_box" && imageType != "warm_up" ==> r.None?
  {
    if imageType == "binding_box" then s.bindingBox
    else if imageType == "warm_up" then s.warmUp
    else None
  }

  datatype SaveOutcome =
    | NothingToSave
    | NotChosen(defaultName: string)
    | Saved(defaultName: string, fs: FileSystem, path: string)

  /** `save_detected_picture(image_type)`: an unknown type or a missing view gives a warning;
      otherwise the save dialog is opened on `detected_<type>`; an empty answer (`chosen`)
      returns; any other answer receives the view converted to BGR (`_save_image`). */
  function SaveDetectedPicture(s: Detector, fs: FileSystem, imageType: string, chosen: string): (r: SaveOutcome)
    ensures r.NothingToSave? <==> FrameFor(s, imageType).None?
    ensures !r.NothingToSave? ==> r.defaultName == "detected_" + imageType
    ensures r.NotChosen? <==> FrameFor(s, imageType).Some? && chosen == ""
    ensures r.Saved? ==> r.path == chosen && (IsDir(fs, chosen) ==> r.fs == fs)
    ensures r.Saved? ==> forall p :: p != chosen ==> (p in r.fs <==> p in fs) && (p in fs ==> r.fs[p] == fs[p])
  {
    match FrameFor(s, imageType)
    case None => NothingToSave
    case Some(frame) =>
      var name := "detected_" + imageType;
      if chosen == "" then NotChosen(name)
      else
        var bgr := RgbToBgr(Some(frame));
        Saved(name, ImWrite(fs, chosen, bgr.value), chosen)
  }

  /** What a save writes reads back as the view itself: unless the answer names a directory,
      the file holds a picture whose conversion back to RGB is exactly the view on screen. */
  lemma SavedPictureReadsBack(s: Detector, fs: FileSystem, imageType: string, chosen: string)
    requires FrameFor(s, imageType).Some? && chosen != "" && !IsDir(fs, chosen)
    ensures var r := SaveDetectedPicture(s, fs, imageType, chosen);
            && r.Saved? && chosen in r.fs && r.fs[chosen].File? && r.fs[chosen].content.Picture?
            && BgrToRgb(Some(r.fs[chosen].content.image)) == FrameFor(s, imageType)
  {
    ConvertRoundTrip(FrameFor(s, imageType));
  }

  /** `_check_data_available`: a current picture and a non-empty detection list. */
  function CheckDataAvailable(s: Detector): (r: bool)
    ensures r <==> s.currentImage.Some? && s.detections.Some? && |s.detections.value| > 0
  {
    s.currentImage.Some? && s.detections.Some? && |s.detections.value| > 0
  }

  /** `save_data_detected_picture` up to the exporter call: when data is available, the three
      frames (original, bounding box, warm-up) and the detections handed to
      `export_single_frame`; nothing otherwise. */
  function SaveDataRequest(s: Detector): (r: Option<(Frames, seq<Detection>)>)
    ensures r.Some? <==> CheckDataAvailable(s)
    ensures r.Some? ==> r.value.0.original == s.currentImage && r.value.0.bindingBox == s.bindingBox
                        && r.value.0.warmUp == s.warmUp && Some(r.value.1) == s.detections
  {
    if CheckDataAvailable(s) then Some((Frames(s.currentImage, s.bindingBox, s.warmUp), s.detections.value))
    else None
  }

  // ---------------------------------------------------------------------------------------
  // Invariant: an enabled save button always has its view.
  // ---------------------------------------------------------------------------------------

  predicate ButtonsBacked(s: Detector) {
    && (s.buttons.saveBindingBox ==> s.bindingBox.Some?)
    && (s.buttons.saveWarmUp ==> s.warmUp.Some?)
  }

  /** Every transition of the controller keeps the enabled save buttons backed by a view. */
  lemma ButtonsBackedPreserved(s: Detector, payload: Option<StaticResults>, out: StaticOutcome,
                               modelLoaded: bool, path: string, read: Option<Image>)
    requires ButtonsBacked(s)
    ensures ButtonsBacked(Initial)
    ensures ButtonsBacked(ResetUi(s)) && ButtonsBacked(HandleError(s))
    ensures ButtonsBacked(HandleStaticComplete(s, payload))
    ensures ButtonsBacked(Finish(s, out))
    ensures ButtonsBacked(SelectPicture(s, modelLoaded, path, read))
  {
  }

  /** Pressing an enabled save button never meets the "nothing to save" warning: the dialog
      opens on the button's default name. */
  lemma EnabledSaveFindsView(s: Detector, fs: FileSystem, chosen: string)
    requires ButtonsBacked(s)
    ensures s.buttons.saveBindingBox ==> SaveDetectedPicture(s, fs, "binding_box", chosen).defaultName == "detected_binding_box"
    ensures s.buttons.saveWarmUp ==> SaveDetectedPicture(s, fs, "warm_up", chosen).defaultName == "detected_warm_up"
  {
  }

  /** Choosing a readable picture with a model loaded and letting the worker process it: a
      completion (which always carries detections) opens the data-export guard and enables all
      buttons; a failure disables the result buttons. Since `reset_ui` keeps the old
      detections, the guard is open exactly on completion only when no earlier detections
      were held. */
  lemma PictureFlowDataAvailable(s: Detector, path: string, read: Image,
                                 w: WorkerState, frame: Option<Image>, modelLoaded: bool,
                                 detected: Option<seq<Detection>>, rendered: Option<(Image, Image)>, stamp: string)
    requires path != ""
    ensures var out := ProcessStaticImage(w, frame, modelLoaded, detected, rendered, stamp).1;
            var r := Finish(SelectPicture(s, true, path, Some(read)), out);
            && (out.StaticComplete? ==> CheckDataAvailable(r))
            && (s.detections.None? ==> (CheckDataAvailable(r) <==> out.StaticComplete?))
            && (out.StaticComplete? ==> r.buttons == Buttons(true, true, true, true) && r.currentImage == BgrToRgb(Some(read)))
            && (out.StaticFailed? ==> r.buttons == Buttons(true, false, false, false))
  {
  }
}
