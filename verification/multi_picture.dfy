/** The folder-batch controller (controller/multiple_picture_detect.py): the folder scan, the
    queue of images handed one at a time to the detection worker, the progress bar, the stored
    results, the text report for one image's detections, and the frame data prepared for
    export. The folder listing, the worker's answers, the clock, the user's choices and
    `os.path.normpath` are inputs. */
module MultiPicture {
  import opened Wrappers
  import opened Dicts
  import opened Strings
  import opened Detections
  import opened Summary
  import opened Images
  import opened Storage
  import opened Worker

  // ---------------------------------------------------------------------------------------
  // Folder scan.
  // ---------------------------------------------------------------------------------------

  /** The supported extensions, matched against the lower-cased file name. */
  const ImageExtensions: seq<string> := [".png", ".jpg", ".jpeg", ".bmp", ".tiff", ".webp"]

  predicate HasImageExtension(name: string) {
    exists i :: 0 <= i < |ImageExtensions| && EndsWith(ToLower(name), ImageExtensions[i])
  }

  /** The list comprehension over `os.listdir(folder)`: the joined path of every listed name
      with a supported extension, in listing order. */
  function ImagePathsIn(folder: string, names: seq<string>): (r: seq<string>)
    ensures |r| <= |names|
    ensures forall p :: p in r <==> exists f :: f in names && HasImageExtension(f) && p == Join(folder, f)
  {
    if |names| == 0 then []
    else
      var rest := ImagePathsIn(folder, names[1..]);
      assert forall f :: f in names <==> f == names[0] || f in names[1..];
      if HasImageExtension(names[0]) then [Join(folder, names[0])] + rest else rest
  }

  function Identity(s: string): string { s }

  /** `get_image_files_from_folder`: the image paths, sorted. */
  function ImageFilesIn(folder: string, names: seq<string>): seq<string>
  {
    SortByKey(ImagePathsIn(folder, names), Identity)
  }

  /** The image list holds exactly the paths of the listed names with a supported extension,
      each as often as it is listed, in ascending order. */
  lemma ImageFilesInCorrect(folder: string, names: seq<string>)
    ensures var r := ImageFilesIn(folder, names);
            && (forall i, j :: 0 <= i < j < |r| ==> !Less(r[j], r[i]))
            && multiset(r) == multiset(ImagePathsIn(folder, names))
            && forall p :: p in r <==> exists f :: f in names && HasImageExtension(f) && p == Join(folder, f)
  {
    var s := ImagePathsIn(folder, names);
    SortByKeySorted(s, Identity);
    var r := ImageFilesIn(folder, names);
    forall p ensures p in r <==> p in s {
      assert p in r <==> p in multiset(r);
      assert p in s <==> p in multiset(s);
    }
  }

  // ---------------------------------------------------------------------------------------
  // Stored results: the `detection_results` dict, keyed by image path, in insertion order.
  // ---------------------------------------------------------------------------------------

  /** One stored result: the renamed frames, the detections and the time of storing. */
  datatype Stored = Stored(bindingBox: Image, warmUp: Image, detections: seq<Detection>, timestamp: string)

  /** `store_detection_results`: `binding_box_frame` is kept as `binding_box`, `warmup_frame`
      as `warm_up`, the detections as they are, and the current time is added. */
  function StoreResults(res: StaticResults, stamp: string): Stored {
    Stored(res.bindingBoxFrame, res.warmupFrame, res.detections, stamp)
  }

  // ---------------------------------------------------------------------------------------
  // The queue state machine.
  // ---------------------------------------------------------------------------------------

  /** Qt's `QProgressBar` with minimum 0. */
  datatype ProgressBar = ProgressBar(maximum: int, value: int)

  /** `QProgressBar.setValue`: a value outside `[0, maximum]` is ignored, unless the range is
      empty (maximum 0), in which case every value is taken. */
  function SetBarValue(bar: ProgressBar, v: int): (r: ProgressBar)
    ensures r.maximum == bar.maximum
    ensures 0 <= v <= bar.maximum || bar.maximum == 0 ==> r.value == v
    ensures r.value != v ==> r == bar
  {
    if (v < 0 || v > bar.maximum) && bar.maximum != 0 then bar else bar.(value := v)
  }

  /** The controller's batch state: the queue `image_files`, `processing_cancelled`, the
      progress bar, `detection_results`, the paths shown in the list widget, the image whose
      detection is under way (the path bound into the completion handler), and whether
      `all_detections_finished` has been emitted. */
  datatype Batch = Batch(
    queue: seq<string>, cancelled: bool, bar: ProgressBar,
    results: seq<(string, Stored)>, listed: seq<string>,
    inFlight: Option<string>, finished: bool)

  /** `progress_updated.emit(bar.value() + 1)`. */
  function Advance(b: Batch): Batch {
    b.(bar := SetBarValue(b.bar, b.bar.value + 1))
  }

  /** `process_next_image`. `startOk(p)` says whether starting the worker on `p` succeeds: a
      path that does not exist makes the worker emit its error at once (and the error handler
      runs before the start returns), and a raise while starting is handled the same way; both
      advance the progress and move on to the next image. */
  function ProcessNext(b: Batch, startOk: string -> bool): (r: Batch)
    ensures r.results == b.results && r.listed == b.listed && r.cancelled == b.cancelled
    ensures r.bar.maximum == b.bar.maximum
    decreases |b.queue|
  {
    if b.cancelled || |b.queue| == 0 then b.(finished := true)
    else
      var path := b.queue[0];
      var b1 := b.(queue := b.queue[1..]);
      if startOk(path) then b1.(inFlight := Some(path))
      else ProcessNext(Advance(b1), startOk)
  }

  /** Processing is first-in first-out: a cancelled batch or an empty queue finishes without
      popping; otherwise the images popped are a prefix of the queue, all but the last failed
      to start, and the last is the one under way unless the queue ran out. */
  lemma {:induction false} ProcessNextFifo(b: Batch, startOk: string -> bool)
    requires b.inFlight.None? && !b.finished
    ensures var r := ProcessNext(b, startOk);
            var n := |b.queue| - |r.queue|;
            && 0 <= n && r.queue == b.queue[n..]
            && (b.cancelled || |b.queue| == 0 ==> r == b.(finished := true))
            && (r.inFlight.Some? ==> !r.finished && n > 0 && r.inFlight.value == b.queue[n - 1]
                                     && startOk(b.queue[n - 1]))
            && (r.inFlight.None? ==> r.finished && (b.cancelled || n == |b.queue|))
            && forall i :: 0 <= i < n - (if r.inFlight.Some? then 1 else 0) ==> !startOk(b.queue[i])
    decreases |b.queue|
  {
    if !b.cancelled && |b.queue| > 0 && !startOk(b.queue[0]) {
      var b1 := Advance(b.(queue := b.queue[1..]));
      ProcessNextFifo(b1, startOk);
      var r := ProcessNext(b, startOk);
      assert r == ProcessNext(b1, startOk);
      var n := |b.queue| - |r.queue|;
      assert b1.queue == b.queue[1..];
      forall i | 1 <= i < n - (if r.inFlight.Some? then 1 else 0) ensures !startOk(b.queue[i]) {
        assert b.queue[i] == b1.queue[i - 1];
      }
    }
  }

  function InFlightCount(b: Batch): nat {
    if b.inFlight.Some? then 1 else 0
  }

  /** The progress accounting: every image of the batch is either still queued, under way, or
      counted by the bar, the count is exact unless the batch was cancelled, an image is
      under way only before the batch finished, and a finished batch was cancelled or emptied
      its queue. */
  predicate Accounted(b: Batch) {
    && 0 <= b.bar.value
    && b.bar.value + |b.queue| + InFlightCount(b) <= b.bar.maximum
    && (!b.cancelled ==> b.bar.value + |b.queue| + InFlightCount(b) == b.bar.maximum)
    && (b.inFlight.Some? ==> !b.finished)
    && (b.finished ==> b.cancelled || |b.queue| == 0)
  }

  /** Moving on keeps the accounting: each image that fails to start advances the bar by
      exactly one. */
  lemma {:induction false} ProcessNextAccounted(b: Batch, startOk: string -> bool)
    requires Accounted(b) && b.inFlight.None? && !b.finished
    ensures var r := ProcessNext(b, startOk);
            && Accounted(r)
            && r.bar.value == b.bar.value + (|b.queue| - |r.queue|) - InFlightCount(r)
    decreases |b.queue|
  {
    if !b.cancelled && |b.queue| > 0 && !startOk(b.queue[0]) {
      var b1 := Advance(b.(queue := b.queue[1..]));
      assert b1.bar.value == b.bar.value + 1;
      ProcessNextAccounted(b1, startOk);
    }
  }

  /** The completion handler `handle_static_detection_complete` for the image `path`, with the
      worker's payload (`None` for a falsy one) and the time of storing. */
  function HandleComplete(b: Batch, path: string, payload: Option<StaticResults>, stamp: string,
                          startOk: string -> bool): Batch
  {
    var b0 := b.(inFlight := None);
    if b.cancelled then ProcessNext(b0, startOk)
    else
      var b1 := if payload.Some? then
                  b0.(results := Put(b0.results, path, StoreResults(payload.value, stamp)), listed := b0.listed + [path])
                else b0;
      ProcessNext(Advance(b1), startOk)
  }

  /** The error handler `handle_detection_error` for the image under way. */
  function HandleError(b: Batch, startOk: string -> bool): Batch {
    ProcessNext(Advance(b.(inFlight := None)), startOk)
  }

  /** `cancel_processing`: the flag is raised and the worker terminated (its handlers
      disconnected), so nothing is under way any more. */
  function Cancel(b: Batch): (r: Batch)
    ensures r.cancelled && r.inFlight.None?
    ensures r.(cancelled := b.cancelled, inFlight := b.inFlight) == b
  {
    b.(cancelled := true, inFlight := None)
  }

  /** A completion keeps the accounting and advances the bar by one for the completed image,
      stores a non-empty payload under its path with the frames renamed, and stores nothing
      after a cancel. */
  lemma HandleCompleteAccounted(b: Batch, path: string, payload: Option<StaticResults>, stamp: string,
                                startOk: string -> bool)
    requires Accounted(b) && b.inFlight == Some(path) && KeysDistinct(b.results)
    ensures var r := HandleComplete(b, path, payload, stamp, startOk);
            && Accounted(r) && KeysDistinct(r.results)
            && (b.cancelled ==> r.results == b.results && r.bar == b.bar && r.finished)
            && (!b.cancelled && payload.Some? ==>
                  && Get(r.results, path) == Some(Stored(payload.value.bindingBoxFrame, payload.value.warmupFrame,
                                                         payload.value.detections, stamp))
                  && (forall k :: k != path ==> Get(r.results, k) == Get(b.results, k))
                  && r.listed == b.listed + [path])
            && (!b.cancelled && payload.None? ==> r.results == b.results)
            && (!b.cancelled ==> r.bar.value >= b.bar.value + 1)
  {
    var b0 := b.(inFlight := None);
    if b.cancelled {
      ProcessNextAccounted(b0, startOk);
      ProcessNextFifo(b0, startOk);
    } else {
      var b1 := if payload.Some? then
                  b0.(results := Put(b0.results, path, StoreResults(payload.value, stamp)), listed := b0.listed + [path])
                else b0;
      if payload.Some? {
        forall k ensures KeysDistinct(b1.results) && Get(b1.results, path) == Some(StoreResults(payload.value, stamp))
                         && (k != path ==> Get(b1.results, k) == Get(b.results, k)) {
          PutGet(b.results, path, StoreResults(payload.value, stamp), k);
          PutDistinct(b.results, path, StoreResults(payload.value, stamp));
        }
      }
      assert Advance(b1).bar.value == b.bar.value + 1;
      ProcessNextAccounted(Advance(b1), startOk);
      ProcessNextFifo(Advance(b1), startOk);
    }
  }

  /** An error keeps the accounting and advances the bar by one for the failed image. */
  lemma HandleErrorAccounted(b: Batch, path: string, startOk: string -> bool)
    requires Accounted(b) && b.inFlight == Some(path)
    ensures var r := HandleError(b, startOk);
            && Accounted(r) && r.results == b.results
            && r.bar.value >= b.bar.value + 1
  {
    var b1 := Advance(b.(inFlight := None));
    assert b1.bar.value == b.bar.value + 1;
    ProcessNextAccounted(b1, startOk);
    ProcessNextFifo(b1, startOk);
  }

  /** Cancelling keeps the accounting. */
  lemma CancelAccounted(b: Batch)
    requires Accounted(b)
    ensures Accounted(Cancel(b))
  {
  }

  /** A batch that finished without being cancelled has handled every image: the queue is
      empty and the bar stands at its maximum. */
  lemma FinishedBatchComplete(b: Batch)
    requires Accounted(b) && b.finished && !b.cancelled
    ensures |b.queue| == 0 && b.inFlight.None? && b.bar.value == b.bar.maximum
  {
  }

  /** How `select_folder` ended. */
  datatype ScanOutcome = NoModel | Declined | NoFolder | ListingFailed | NoImages | Started

  /** `select_folder`: without a model nothing happens; the running worker is cleaned up; with
      stored results the user must confirm; a cancelled folder dialog (`None` or "") stops;
      otherwise the state is reset, the folder scanned (`names` is `os.listdir`'s answer, `None`
      when it raises), and a non-empty image list starts a batch with the bar at 0 of its
      length. */
  function SelectFolder(b: Batch, modelLoaded: bool, confirmed: bool, folder: Option<string>,
                        names: Option<seq<string>>, startOk: string -> bool): (r: (Batch, ScanOutcome))
    ensures !modelLoaded ==> r == (b, NoModel)
    ensures r.1 != Started ==> r.0.queue == b.queue || r.1 == NoImages
    ensures r.1 == Started ==>
              && folder.Some? && names.Some?
              && |ImageFilesIn(folder.value, names.value)| > 0
              && r.0.bar.maximum == |ImageFilesIn(folder.value, names.value)|
              && |r.0.results| == 0 && |r.0.listed| == 0 && !r.0.cancelled
              && Accounted(r.0)
    ensures r.1 == Started ==>
              var files := ImageFilesIn(folder.value, names.value);
              |r.0.queue| <= |files| && r.0.queue == files[|files| - |r.0.queue|..]
    ensures (&& modelLoaded && (confirmed || |b.results| == 0) && folder.Some? && folder.value != ""
             && names.Some? && |ImageFilesIn(folder.value, names.value)| > 0)
            ==> r.1 == Started
  {
    if !modelLoaded then (b, NoModel)
    else
      var b1 := b.(inFlight := None);
      if |b.results| > 0 && !confirmed then (b1, Declined)
      else if folder.None? || folder.value == "" then (b1, NoFolder)
      else
        var b2 := b1.(results := [], listed := [], cancelled := false);
        match names
        case None => (b2, ListingFailed)
        case Some(listing) =>
          var files := ImageFilesIn(folder.value, listing);
          if |files| == 0 then (b2.(queue := files), NoImages)
          else
            var b3 := b2.(queue := files, bar := ProgressBar(|files|, 0), finished := false);
            ProcessNextAccounted(b3, startOk);
            ProcessNextFifo(b3, startOk);
            (ProcessNext(b3, startOk), Started)
  }

  // ---------------------------------------------------------------------------------------
  // The detection report of `update_detection_info`.
  // ---------------------------------------------------------------------------------------

  /** The status text: the file's base name and storage time when a stored image is shown,
      the total, whether the class heading appears, the per-class lines and the numbered
      detail lines. */
  datatype Report = Report(
    file: Option<string>, storedAt: Option<string>, total: nat,
    classHeading: bool, classes: seq<ClassCount>, details: seq<Numbered>)

  function DetsOf(s: seq<Numbered>): (r: seq<Detection>)
    ensures |r| == |s|
    ensures forall i :: 0 <= i < |s| ==> r[i] == s[i].det
  {
    if |s| == 0 then [] else [s[0].det] + DetsOf(s[1..])
  }

  /** The file line appears when an image path is given and is not empty. */
  function FileLines(results: seq<(string, Stored)>, imagePath: Option<string>): (Option<string>, Option<string>) {
    if imagePath.None? || imagePath.value == "" then (None, None)
    else
      var stored := Get(results, imagePath.value);
      (Some(Basename(imagePath.value)), if stored.Some? then Some(stored.value.timestamp) else None)
  }

  /** `update_detection_info`: the class lines, sorted by class, only when there is at least
      one detection; the details sorted by confidence and numbered from 1. */
  function DetectionReport(results: seq<(string, Stored)>, dets: seq<Detection>, imagePath: Option<string>): Report {
    var (file, storedAt) := FileLines(results, imagePath);
    Report(file, storedAt, |dets|, |dets| > 0,
           if |dets| > 0 then SortedClassCounts(dets) else [],
           Enumerate(SortByConfidence(dets), 1))
  }

  /** The class part of the report: the total is the number of detections, the class
      heading shows exactly when there are some, and the class lines are the per-class counts
      in ascending class order, each class's number of occurrences, adding up to the total. */
  lemma ReportClassesCorrect(results: seq<(string, Stored)>, dets: seq<Detection>, imagePath: Option<string>)
    ensures var r := DetectionReport(results, dets, imagePath);
            && r.total == |dets|
            && (r.classHeading <==> |dets| > 0)
            && SortedByKey(r.classes, ClassKey)
            && multiset(r.classes) == multiset(ClassCounts(dets))
            && SumCounts(r.classes) == r.total
            && (forall i :: 0 <= i < |r.classes| ==> r.classes[i].count == Occurrences(ClassesOf(dets), r.classes[i].cls))
  {
    var r := DetectionReport(results, dets, imagePath);
    if |dets| > 0 {
      SortedClassCountsSummary(dets);
      forall i | 0 <= i < |r.classes|
        ensures r.classes[i].count == Occurrences(ClassesOf(dets), r.classes[i].cls)
      {
        assert r.classes[i] in multiset(r.classes);
        assert r.classes[i] in ClassCounts(dets);
      }
    } else {
      assert ClassesOf(dets) == [];
    }
  }

  /** The detail part of the report lists each detection once, numbered from 1, by descending
      confidence, keeping the input order among equal confidences. */
  lemma ReportDetailsCorrect(results: seq<(string, Stored)>, dets: seq<Detection>, imagePath: Option<string>)
    ensures var r := DetectionReport(results, dets, imagePath);
            && |r.details| == |dets|
            && (forall i :: 0 <= i < |r.details| ==> r.details[i].index == i + 1)
            && ConfidenceDescending(DetsOf(r.details))
            && multiset(DetsOf(r.details)) == multiset(dets)
            && (forall c :: WithConfidence(DetsOf(r.details), c) == WithConfidence(dets, c))
  {
    var sorted := SortByConfidence(dets);
    SortByConfidenceCorrect(dets);
    DetsOfEnumerate(sorted, 1);
    assert DetectionReport(results, dets, imagePath).details == Enumerate(sorted, 1);
  }

  lemma DetsOfEnumerate(s: seq<Detection>, start: nat)
    ensures DetsOf(Enumerate(s, start)) == s
  {
    var e := Enumerate(s, start);
    assert forall i :: 0 <= i < |s| ==> DetsOf(e)[i] == s[i];
  }

  /** The file line names the shown image and the time line is that image's storage time. */
  lemma ReportNamesStoredImage(results: seq<(string, Stored)>, dets: seq<Detection>, path: string)
    requires path != "" && Get(results, path).Some?
    ensures var r := DetectionReport(results, dets, Some(path));
            r.file == Some(Basename(path)) && r.storedAt == Some(Get(results, path).value.timestamp)
  {
  }

  // ---------------------------------------------------------------------------------------
  // Export data: `prepare_frame_data_for_export` and `save_all_detection_data`.
  // ---------------------------------------------------------------------------------------

  /** A copy of a detection with the frame's timestamp and image path added. */
  datatype TaggedDetection = TaggedDetection(det: Detection, timestamp: string, imagePath: string)

  function Tag(dets: seq<Detection>, stamp: string, path: string): (r: seq<TaggedDetection>)
    ensures |r| == |dets|
    ensures forall i :: 0 <= i < |dets| ==> r[i] == TaggedDetection(dets[i], stamp, path)
  {
    if |dets| == 0 then [] else [TaggedDetection(dets[0], stamp, path)] + Tag(dets[1..], stamp, path)
  }

  /** The detections of a frame list, each tagged with its frame, frame after frame. */
  function TaggedOf(frames: seq<FrameInfo>): seq<TaggedDetection> {
    if |frames| == 0 then []
    else Tag(frames[0].detections, frames[0].timestamp, frames[0].originalPath.GetOr("")) + TaggedOf(frames[1..])
  }

  /** The prepared `frame_data` and the file system after the temporary writes. */
  datatype Prepared = Prepared(fs: FileSystem, images: seq<FrameInfo>, detections: seq<TaggedDetection>)

  /** The normalised path of a stored image: `normpath(p).replace('\\', '/')`. */
  function NormalPath(p: string, normpath: string -> string): string {
    ReplaceChar(normpath(p), '\\', '/')
  }

  /** The frame entry of one stored result. */
  function FrameOf(path: string, stored: Stored, tempDir: string): FrameInfo {
    var name := Basename(path);
    FrameInfo(Stem(name), stored.detections, Some(path),
              Some(Join(tempDir, name + "_binding_box.jpg")), Some(Join(tempDir, name + "_warm_up.jpg")))
  }

  /** The two colour conversions of a stored result succeed. */
  predicate Converts(stored: Stored) {
    CvtSwap(stored.bindingBox).Some? && CvtSwap(stored.warmUp).Some?
  }

  /** `prepare_frame_data_for_export`: for each stored result in dict order, both frames are
      converted to BGR and written to the temp directory; a conversion that raises skips the
      result (a frame already written stays); a result that converts contributes its frame
      entry and its tagged detections. */
  function PrepareFrameData(fs: FileSystem, results: seq<(string, Stored)>, tempDir: string,
                            normpath: string -> string): (r: Prepared)
    ensures r.detections == TaggedOf(r.images)
    ensures |r.images| <= |results|
    decreases |results|
  {
    if |results| == 0 then Prepared(fs, [], [])
    else
      var path := NormalPath(results[0].0, normpath);
      var stored := results[0].1;
      var info := FrameOf(path, stored, tempDir);
      match CvtSwap(stored.bindingBox)
      case None => PrepareFrameData(fs, results[1..], tempDir, normpath)
      case Some(box) =>
        var fs1 := ImWrite(fs, info.bindingBoxPath.value, box);
        match CvtSwap(stored.warmUp)
        case None => PrepareFrameData(fs1, results[1..], tempDir, normpath)
        case Some(warm) =>
          var fs2 := ImWrite(fs1, info.warmupPath.value, warm);
          var rest := PrepareFrameData(fs2, results[1..], tempDir, normpath);
          Prepared(rest.fs, [info] + rest.images, Tag(info.detections, info.timestamp, path) + rest.detections)
  }

  /** When every stored result converts, there is one frame entry per result in dict order,
      its timestamp the image's base name without extension, its original path the normalised
      image path, and its detections the stored ones unchanged. */
  lemma {:induction false} PrepareFrameDataFaithful(fs: FileSystem, results: seq<(string, Stored)>, tempDir: string,
                                                    normpath: string -> string)
    requires forall i :: 0 <= i < |results| ==> Converts(results[i].1)
    ensures var r := PrepareFrameData(fs, results, tempDir, normpath);
            && |r.images| == |results|
            && forall i :: 0 <= i < |results| ==>
                 var path := NormalPath(results[i].0, normpath);
                 && r.images[i].timestamp == Stem(Basename(path))
                 && r.images[i].originalPath == Some(path)
                 && r.images[i].detections == results[i].1.detections
    decreases |results|
  {
    if |results| > 0 {
      PrepareFrameDataFaithful(ImWrite(ImWrite(fs, FrameOf(NormalPath(results[0].0, normpath), results[0].1, tempDir).bindingBoxPath.value,
                                                CvtSwap(results[0].1.bindingBox).value),
                                        FrameOf(NormalPath(results[0].0, normpath), results[0].1, tempDir).warmupPath.value,
                                        CvtSwap(results[0].1.warmUp).value),
                               results[1..], tempDir, normpath);
    }
  }

  /** The tagged detections are the frames' detections, unchanged and in order, each carrying
      its own frame's timestamp and image path. */
  lemma {:induction false} TaggedOfConcatenates(frames: seq<FrameInfo>, k: nat, i: nat)
    requires k < |frames| && i < |frames[k].detections|
    ensures var before := |TaggedOf(frames[..k])|;
            && before + i < |TaggedOf(frames)|
            && TaggedOf(frames)[before + i]
               == TaggedDetection(frames[k].detections[i], frames[k].timestamp, frames[k].originalPath.GetOr(""))
    decreases k
  {
    if k == 0 {
      assert frames[..0] == [];
    } else {
      TaggedOfConcatenates(frames[1..], k - 1, i);
      assert frames[1..][..k - 1] == frames[..k][1..];
      assert frames[..k][0] == frames[0];
    }
  }

  /** How `save_all_detection_data` ended. */
  datatype SaveAllOutcome =
    | NothingToSave
    | SaveFailed(fs: FileSystem)
    | Escaped(fs: FileSystem)
    | HandedOff(fs: FileSystem, data: FrameData)

  /** `save_all_detection_data` as written: no stored result is rejected; otherwise a temp
      directory is made and the frame data prepared. With no frame entry, the temp directory
      is removed and an exception raised, whose handler removes the directory a second time:
      that removal raises inside the handler, so the exception leaves the slot. Otherwise the
      frame data goes to the exporter. */
  function SaveAllAsWritten(fs: FileSystem, results: seq<(string, Stored)>, tempDir: string,
                            normpath: string -> string): (r: SaveAllOutcome)
    ensures |results| == 0 <==> r.NothingToSave?
    ensures !r.SaveFailed?
  {
    if |results| == 0 then NothingToSave
    else
      var p := PrepareFrameData(fs[tempDir := Dir], results, tempDir, normpath);
      if |p.images| == 0 then
        match RmTree(p.fs, tempDir)
        case None => Escaped(p.fs)
        case Some(fs1) => if RmTree(fs1, tempDir).None? then Escaped(fs1) else SaveFailed(fs1)
      else HandedOff(p.fs, FrameData(p.images, |p.detections|))
  }

  /** Results none of whose frames converts reach the double removal: the exception escapes
      instead of the "could not save" warning. */
  lemma SaveAllAsWrittenEscapes(fs: FileSystem, path: string, stored: Stored, tempDir: string,
                                normpath: string -> string)
    requires CvtSwap(stored.bindingBox).None?
    ensures SaveAllAsWritten(fs, [(path, stored)], tempDir, normpath).Escaped?
  {
    var p := PrepareFrameData(fs[tempDir := Dir], [(path, stored)], tempDir, normpath);
    assert p == PrepareFrameData(fs[tempDir := Dir], [], tempDir, normpath);
    var fs1 := RmTree(p.fs, tempDir).value;
    assert !IsDir(fs1, tempDir);
  }

  /** `save_all_detection_data` with the temp directory removed once: no stored result is
      rejected, no prepared frame is reported as a failure with the temp directory gone, and
      otherwise the prepared frames and the number of tagged detections go to the exporter. */
  function SaveAll(fs: FileSystem, results: seq<(string, Stored)>, tempDir: string,
                   normpath: string -> string): (r: SaveAllOutcome)
    ensures |results| == 0 <==> r.NothingToSave?
    ensures !r.Escaped?
    ensures r.SaveFailed? ==> !IsDir(r.fs, tempDir)
    ensures r.HandedOff? ==> |r.data.images| > 0 && |r.data.images| <= |results|
  {
    if |results| == 0 then NothingToSave
    else
      var p := PrepareFrameData(fs[tempDir := Dir], results, tempDir, normpath);
      if |p.images| == 0 then
        var fs1 := RmTree(p.fs, tempDir);
        if fs1.Some? then SaveFailed(fs1.value) else SaveFailed(p.fs)
      else HandedOff(p.fs, FrameData(p.images, |p.detections|))
  }

  /** With every stored frame converting, the exporter receives one frame per stored result
      and every stored detection, tagged. */
  lemma SaveAllHandsOffEverything(fs: FileSystem, results: seq<(string, Stored)>, tempDir: string,
                                  normpath: string -> string)
    requires |results| > 0
    requires forall i :: 0 <= i < |results| ==> Converts(results[i].1)
    ensures var r := SaveAll(fs, results, tempDir, normpath);
            && r.HandedOff? && |r.data.images| == |results|
            && r.data.detectionCount == |TaggedOf(r.data.images)|
  {
    PrepareFrameDataFaithful(fs[tempDir := Dir], results, tempDir, normpath);
  }
}
