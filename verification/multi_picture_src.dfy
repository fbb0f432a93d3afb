/** The other revision of the folder-batch controller (src/controller/multiple_picture_detect.py).
    The queue, the stored-results dict, the start of a worker and the error and cancel handlers
    have the same effect on the modelled batch state as in the first revision, so those
    definitions are reused (the code differs in what is not modelled: this revision's
    `cancel_processing` neither resets the widgets nor re-enables Choose); what differs is the folder
    selection, the completion handler (progress advances only for a non-empty payload), the
    class heading of the report, and the export data (stored time and base name instead of
    tagged detections and temp files). */
module MultiPictureSrc {
  import opened Wrappers
  import opened Dicts
  import opened Strings
  import opened Detections
  import opened Summary
  import opened Images
  import opened Storage
  import opened Worker
  import MP = MultiPicture

  // ---------------------------------------------------------------------------------------
  // Folder selection.
  // ---------------------------------------------------------------------------------------

  /** The scan inside `select_folder`: the filtered list is checked for emptiness first and
      sorted afterwards. */
  function ScanFolder(folder: string, names: seq<string>): (r: Option<seq<string>>)
  {
    var files := MP.ImagePathsIn(folder, names);
    if |files| == 0 then None else Some(SortByKey(files, MP.Identity))
  }

  /** Checking before or after sorting makes no difference: the scan finds no image exactly
      when the other revision's image list is empty, and otherwise yields that same list. */
  lemma ScanRevisionsAgree(folder: string, names: seq<string>)
    ensures ScanFolder(folder, names).None? <==> |MP.ImageFilesIn(folder, names)| == 0
    ensures ScanFolder(folder, names).Some? ==> ScanFolder(folder, names).value == MP.ImageFilesIn(folder, names)
  {
  }

  /** `select_folder`: without a model nothing happens; an empty dialog answer stops; otherwise
      the state is reset (without a confirmation and without stopping the worker), the folder
      scanned, and a non-empty image list starts a batch with the bar at 0 of its length. */
  function SelectFolder(b: MP.Batch, modelLoaded: bool, folder: Option<string>,
                        names: Option<seq<string>>, startOk: string -> bool): (r: (MP.Batch, MP.ScanOutcome))
    ensures !modelLoaded ==> r == (b, MP.NoModel)
    ensures r.1 == MP.NoFolder ==> r.0 == b
    ensures r.1 == MP.Started ==>
              && folder.Some? && names.Some? && ScanFolder(folder.value, names.value).Some?
              && r.0.bar.maximum == |ScanFolder(folder.value, names.value).value|
              && |r.0.results| == 0 && |r.0.listed| == 0 && !r.0.cancelled
  {
    if !modelLoaded then (b, MP.NoModel)
    else if folder.None? || folder.value == "" then (b, MP.NoFolder)
    else
      var b1 := b.(results := [], listed := [], cancelled := false);
      match names
      case None => (b1, MP.ListingFailed)
      case Some(listing) =>
        match ScanFolder(folder.value, listing)
        case None => (b1.(queue := []), MP.NoImages)
        case Some(files) =>
          var b2 := b1.(queue := files, bar := MP.ProgressBar(|files|, 0), finished := false);
          (MP.ProcessNext(b2, startOk), MP.Started)
  }

  /** Started with no image under way, a batch begins with the exact accounting of the other
      revision (the worker of an earlier batch is not stopped, so an image still under way
      from it is not accounted for). */
  lemma SelectFolderAccounted(b: MP.Batch, modelLoaded: bool, folder: Option<string>,
                              names: Option<seq<string>>, startOk: string -> bool)
    requires b.inFlight.None?
    ensures var r := SelectFolder(b, modelLoaded, folder, names, startOk);
            r.1 == MP.Started ==> MP.Accounted(r.0)
  {
    var r := SelectFolder(b, modelLoaded, folder, names, startOk);
    if r.1 == MP.Started {
      var files := ScanFolder(folder.value, names.value).value;
      var b2 := b.(results := [], listed := [], cancelled := false, queue := files,
                   bar := MP.ProgressBar(|files|, 0), finished := false);
      MP.ProcessNextAccounted(b2, startOk);
    }
  }

  // ---------------------------------------------------------------------------------------
  // Completion.
  // ---------------------------------------------------------------------------------------

  /** `handle_static_detection_complete`: after a cancel the next image is asked for (which
      finishes the batch); a non-empty payload is stored under the path, listed, and advances
      the progress; an empty payload does neither. */
  function HandleComplete(b: MP.Batch, path: string, payload: Option<StaticResults>, stamp: string,
                          startOk: string -> bool): MP.Batch
  {
    var b0 := b.(inFlight := None);
    if b.cancelled then MP.ProcessNext(b0, startOk)
    else if payload.Some? then
      var b1 := b0.(results := Put(b0.results, path, MP.StoreResults(payload.value, stamp)),
                    listed := b0.listed + [path]);
      MP.ProcessNext(MP.Advance(b1), startOk)
    else MP.ProcessNext(b0, startOk)
  }

  /** The bound this revision keeps: the bar never passes the number of images handled, so it
      never overshoots its maximum, an image is under way only before the batch finished, and
      a finished batch was cancelled or emptied its queue. */
  predicate Bounded(b: MP.Batch) {
    && 0 <= b.bar.value
    && b.bar.value + |b.queue| + MP.InFlightCount(b) <= b.bar.maximum
    && (b.inFlight.Some? ==> !b.finished)
    && (b.finished ==> b.cancelled || |b.queue| == 0)
  }

  /** The exact accounting of the other revision implies the bound. */
  lemma AccountedBounded(b: MP.Batch)
    requires MP.Accounted(b)
    ensures Bounded(b)
  {
  }

  /** Moving on keeps the bound. */
  lemma {:induction false} ProcessNextBounded(b: MP.Batch, startOk: string -> bool)
    requires Bounded(b) && b.inFlight.None? && !b.finished
    ensures Bounded(MP.ProcessNext(b, startOk))
    decreases |b.queue|
  {
    if !b.cancelled && |b.queue| > 0 && !startOk(b.queue[0]) {
      var b1 := MP.Advance(b.(queue := b.queue[1..]));
      assert b1.bar.value == b.bar.value + 1;
      ProcessNextBounded(b1, startOk);
    }
  }

  /** A completion keeps the bound, stores a non-empty payload under its path with the frames
      renamed, and stores nothing for an empty payload or after a cancel. */
  lemma HandleCompleteBounded(b: MP.Batch, path: string, payload: Option<StaticResults>, stamp: string,
                              startOk: string -> bool)
    requires Bounded(b) && b.inFlight == Some(path) && KeysDistinct(b.results)
    ensures var r := HandleComplete(b, path, payload, stamp, startOk);
            && Bounded(r) && KeysDistinct(r.results)
            && (b.cancelled || payload.None? ==> r.results == b.results)
            && (!b.cancelled && payload.Some? ==>
                  Get(r.results, path) == Some(MP.Stored(payload.value.bindingBoxFrame, payload.value.warmupFrame,
                                                            payload.value.detections, stamp)))
  {
    var b0 := b.(inFlight := None);
    if b.cancelled || payload.None? {
      ProcessNextBounded(b0, startOk);
    } else {
      var b1 := b0.(results := Put(b0.results, path, MP.StoreResults(payload.value, stamp)),
                    listed := b0.listed + [path]);
      PutGet(b.results, path, MP.StoreResults(payload.value, stamp), path);
      assert MP.Advance(b1).bar.value == b.bar.value + 1;
      ProcessNextBounded(MP.Advance(b1), startOk);
    }
  }

  /** The error handler of this revision is the shared one, and it keeps the bound. */
  lemma HandleErrorBounded(b: MP.Batch, path: string, startOk: string -> bool)
    requires Bounded(b) && b.inFlight == Some(path)
    ensures Bounded(MP.HandleError(b, startOk))
  {
    var b1 := MP.Advance(b.(inFlight := None));
    assert b1.bar.value == b.bar.value + 1;
    ProcessNextBounded(b1, startOk);
  }

  /** The revisions part on an empty payload: with the last image completing, the first
      revision's bar reaches its maximum while this one's stays one short. */
  lemma HandleCompleteRevisionsDiverge(b: MP.Batch, path: string, stamp: string, startOk: string -> bool)
    requires MP.Accounted(b) && b.inFlight == Some(path) && !b.cancelled && |b.queue| == 0
    ensures MP.HandleComplete(b, path, None, stamp, startOk).bar.value == b.bar.maximum
    ensures HandleComplete(b, path, None, stamp, startOk).bar.value == b.bar.maximum - 1
  {
  }

  /** The revisions agree on every payload the worker sends (its completion signal always
      carries the non-empty results record). */
  lemma HandleCompleteRevisionsAgree(b: MP.Batch, path: string, res: StaticResults, stamp: string,
                                     startOk: string -> bool)
    ensures HandleComplete(b, path, Some(res), stamp, startOk) == MP.HandleComplete(b, path, Some(res), stamp, startOk)
  {
  }

  // ---------------------------------------------------------------------------------------
  // The detection report.
  // ---------------------------------------------------------------------------------------

  /** `update_detection_info` of this revision: the class heading is always shown. */
  function DetectionReport(results: seq<(string, MP.Stored)>, dets: seq<Detection>, imagePath: Option<string>): MP.Report {
    var (file, storedAt) := MP.FileLines(results, imagePath);
    MP.Report(file, storedAt, |dets|, true, SortedClassCounts(dets), Enumerate(SortByConfidence(dets), 1))
  }

  /** The two reports differ only in the class heading, which this revision shows even with no
      detection: the class and detail lines are the same. */
  lemma ReportRevisionsDiffer(results: seq<(string, MP.Stored)>, dets: seq<Detection>, imagePath: Option<string>)
    ensures DetectionReport(results, dets, imagePath).(classHeading := true)
            == MP.DetectionReport(results, dets, imagePath).(classHeading := true)
    ensures DetectionReport(results, dets, imagePath).classHeading
    ensures MP.DetectionReport(results, dets, imagePath).classHeading <==> |dets| > 0
  {
    if |dets| == 0 {
      assert ClassesOf(dets) == [];
    }
  }

  // ---------------------------------------------------------------------------------------
  // Export data of `save_all_detection_data`.
  // ---------------------------------------------------------------------------------------

  /** One frame entry of this revision: the storage time, the detections, the original as
      `cv2.imread` reads it again, the two stored frames and the image's base name. */
  datatype SrcFrame = SrcFrame(
    timestamp: string, detections: seq<Detection>, original: Option<Image>,
    bindingBox: Image, warmUp: Image, filename: string)

  /** The stored detections, result after result. */
  function AllDetections(results: seq<(string, MP.Stored)>): seq<Detection> {
    if |results| == 0 then [] else results[0].1.detections + AllDetections(results[1..])
  }

  /** The frame entries, one per stored result in dict order. */
  function SrcFrames(results: seq<(string, MP.Stored)>, imread: string -> Option<Image>): (r: seq<SrcFrame>)
    ensures |r| == |results|
    ensures forall i :: 0 <= i < |results| ==>
              var s := results[i].1;
              r[i] == SrcFrame(s.timestamp, s.detections, imread(results[i].0), s.bindingBox, s.warmUp,
                               Basename(results[i].0))
  {
    if |results| == 0 then []
    else
      var (path, s) := results[0];
      [SrcFrame(s.timestamp, s.detections, imread(path), s.bindingBox, s.warmUp, Basename(path))]
      + SrcFrames(results[1..], imread)
  }

  /** `save_all_detection_data`'s data: no stored result is rejected; otherwise the frame
      entries and the plain concatenation of the stored detections. */
  function SaveAllData(results: seq<(string, MP.Stored)>, imread: string -> Option<Image>): (r: Option<(seq<SrcFrame>, seq<Detection>)>)
    ensures r.None? <==> |results| == 0
  {
    if |results| == 0 then None else Some((SrcFrames(results, imread), AllDetections(results)))
  }

  function Untag(s: seq<MP.TaggedDetection>): (r: seq<Detection>)
    ensures |r| == |s|
    ensures forall i :: 0 <= i < |s| ==> r[i] == s[i].det
  {
    if |s| == 0 then [] else [s[0].det] + Untag(s[1..])
  }

  lemma UntagAppend(a: seq<MP.TaggedDetection>, c: seq<MP.TaggedDetection>)
    ensures Untag(a + c) == Untag(a) + Untag(c)
  {
    assert forall i :: 0 <= i < |a + c| ==> Untag(a + c)[i] == (Untag(a) + Untag(c))[i];
  }

  /** Both revisions export the same detections in the same order: when every stored frame
      converts, removing the first revision's timestamp and path tags from its detection list
      gives this revision's plain concatenation, and every frame entry is for the stored
      result at the same position. */
  lemma {:induction false} SaveAllRevisionsSameDetections(fs: FileSystem, results: seq<(string, MP.Stored)>,
                                                         tempDir: string, normpath: string -> string,
                                                         imread: string -> Option<Image>)
    requires forall i :: 0 <= i < |results| ==> MP.Converts(results[i].1)
    ensures Untag(MP.PrepareFrameData(fs, results, tempDir, normpath).detections) == AllDetections(results)
    ensures |MP.PrepareFrameData(fs, results, tempDir, normpath).images| == |SrcFrames(results, imread)|
    decreases |results|
  {
    MP.PrepareFrameDataFaithful(fs, results, tempDir, normpath);
    if |results| > 0 {
      var path := MP.NormalPath(results[0].0, normpath);
      var stored := results[0].1;
      var info := MP.FrameOf(path, stored, tempDir);
      var fs1 := ImWrite(fs, info.bindingBoxPath.value, CvtSwap(stored.bindingBox).value);
      var fs2 := ImWrite(fs1, info.warmupPath.value, CvtSwap(stored.warmUp).value);
      var rest := MP.PrepareFrameData(fs2, results[1..], tempDir, normpath);
      SaveAllRevisionsSameDetections(fs2, results[1..], tempDir, normpath, imread);
      var tagged := MP.Tag(info.detections, info.timestamp, path);
      assert MP.PrepareFrameData(fs, results, tempDir, normpath).detections == tagged + rest.detections;
      UntagAppend(tagged, rest.detections);
      assert Untag(tagged) == stored.detections;
    }
  }
}
