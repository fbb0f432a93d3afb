/** The one rule of the camera controller (src/controller/camera_detect.py) kept here: the
    session's temporary data is handed to the batch exporter and cleared only when the export
    succeeds. */
module Camera {
  import opened Wrappers
  import opened Storage
  import opened Exporter
  import opened Worker

  /** `get_temp_data` as the exporter reads it: the frame list and the detection lists. */
  function TempData(w: WorkerState): (r: FrameData)
    ensures r.images == w.tempImages && r.detectionCount == |w.tempDetections|
  {
    FrameData(w.tempImages, |w.tempDetections|)
  }

  /** `save_all_data_detect_cam` over the corrected `ExportAllFrames`: export everything stored
      in the session, then clear the session if and only if the export returned a result, so
      a cancelled export keeps the session. `choice`, `cancelAt` and `newDir` are the directory
      dialog's answer, the Cancel moment and the next temp directory. */
  method SaveAllDataDetectCam(w: WorkerState, choice: string, cancelAt: Option<nat>, newDir: string)
    returns (w': WorkerState, result: Option<BatchResult>)
    ensures result.None? ==> w'.tempImages == w.tempImages && w'.tempDetections == w.tempDetections
                             && w'.staticResults == w.staticResults
    ensures result.Some? ==> |w'.tempImages| == 0 && |w'.tempDetections| == 0 && w'.staticResults.None?
    ensures result.Some? ==> result.value.frameCount == |w.tempImages| > 0 && |w.tempDetections| > 0
    ensures |w.tempImages| == 0 ==> result.None? && w' == w
  {
    var fsOut, outcomes;
    fsOut, result, outcomes := ExportAllFrames(w.fs, TempData(w), choice, cancelAt);
    w' := w.(fs := fsOut);
    if result.Some? {
      w' := ClearTempData(w', newDir);
    }
  }

  /** `save_all_data_detect_cam` over `export_all_frames` as written, whose cancellation check
      is defeated by the progress dialog's auto-reset. */
  function SaveAllDataDetectCamAsWritten(w: WorkerState, choice: string, cancelAt: Option<nat>, newDir: string)
    : (r: (WorkerState, Option<BatchResult>))
    ensures r.1.Some? ==> |r.0.tempImages| == 0 && |r.0.tempDetections| == 0 && r.0.staticResults.None?
    ensures r.1.None? ==> r.0.tempImages == w.tempImages && r.0.tempDetections == w.tempDetections
  {
    var (fsOut, result, _) := ExportAllFramesAsWritten(w.fs, TempData(w), choice, cancelAt);
    var w1 := w.(fs := fsOut);
    if result.Some? then (ClearTempData(w1, newDir), result) else (w1, result)
  }

  /** As written, pressing Cancel part-way through the camera export still clears the session:
      the export reports every frame although at most the `k` frames before the cancelling poll
      were written, and the temp lists are then emptied, so the unwritten frames are lost. */
  lemma CancelledCameraExportClearsSession(w: WorkerState, choice: string, k: nat, newDir: string)
    requires k < |w.tempImages| && |w.tempDetections| > 0 && choice != ""
    requires CreateOutputDirectories(w.fs, choice).1
    ensures var (w', result) := SaveAllDataDetectCamAsWritten(w, choice, Some(k), newDir);
            && result.Some? && result.value.frameCount == |w.tempImages|
            && |result.value.paths.imagePaths| <= k < |w.tempImages|
            && |w'.tempImages| == 0 && |w'.tempDetections| == 0
  {
    CancelledExportReportsSuccess(w.fs, TempData(w), choice, k);
  }
}
