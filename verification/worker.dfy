/** The detection worker `DetectionThread` (src/module/detection_thread.py): one iteration of
    the camera loop (frame counter, sampling, temp storage, emitted frames), static-image
    processing, the temporary session store, per-class colours, and the flags. Camera reads,
    the detector's answer, the drawn frames, the clock and fresh temp directory names are
    inputs. */
module Worker {
  import opened Wrappers
  import opened Strings
  import opened Detections
  import opened Images
  import opened Storage

  /** An RGB colour triple. */
  datatype Color = Color(r: int, g: int, b: int)

  /** The `static_image_results` dictionary. */
  datatype StaticResults = StaticResults(
    timestamp: string, originalPath: string, bindingBoxPath: string, warmupPath: string,
    detections: seq<Detection>, originalFrame: Image, bindingBoxFrame: Image, warmupFrame: Image)

  datatype WorkerState = WorkerState(
    running: bool, detecting: bool, processingStatic: bool,
    frameCount: int, frameSkip: int,
    tempDir: string, tempImages: seq<FrameInfo>, tempDetections: seq<seq<Detection>>,
    staticPath: Option<string>, staticResults: Option<StaticResults>,
    currentDetections: Option<seq<Detection>>,
    colorCache: map<string, Color>,
    fs: FileSystem)

  /** A new worker: flags off, counter 0, frame skip 1, a fresh temp directory, empty store. */
  function NewWorker(fs: FileSystem, tempDir: string): (w: WorkerState)
    ensures StoreAligned(w) && |w.tempImages| == 0 && w.frameSkip == 1
    ensures IsDir(w.fs, tempDir)
  {
    WorkerState(false, false, false, 0, 1, tempDir, [], [], None, None, None, map[], fs[tempDir := Dir])
  }

  /** The two temp lists grow together: entry `i` of each belongs to the same saved frame. */
  predicate StoreAligned(w: WorkerState) {
    |w.tempImages| == |w.tempDetections|
    && forall i :: 0 <= i < |w.tempImages| ==> w.tempImages[i].detections == w.tempDetections[i]
  }

  // ---------------------------------------------------------------------------------------
  // Temp storage.
  // ---------------------------------------------------------------------------------------

  /** The path of one temp image: `<temp_dir>/<prefix><timestamp>.jpg`. */
  function TempPath(dir: string, prefix: string, stamp: string): string {
    Join(dir, prefix + stamp + ".jpg")
  }

  /** `cv2.cvtColor(.., COLOR_RGB2BGR)` then `cv2.imwrite`; `false` when the conversion raises. */
  function WriteBgr(fs: FileSystem, p: string, img: Image): (r: (FileSystem, bool))
    ensures !r.1 ==> r.0 == fs
  {
    match CvtSwap(img)
    case None => (fs, false)
    case Some(bgr) => (ImWrite(fs, p, bgr), true)
  }

  /** Write the three frames in order; a raise leaves the earlier writes. */
  function WriteThree(fs: FileSystem, paths: (string, string, string), imgs: (Image, Image, Image)): (r: (FileSystem, bool))
  {
    var (fs1, ok1) := WriteBgr(fs, paths.0, imgs.0);
    if !ok1 then (fs1, false)
    else
      var (fs2, ok2) := WriteBgr(fs1, paths.1, imgs.1);
      if !ok2 then (fs2, false)
      else WriteBgr(fs2, paths.2, imgs.2)
  }

  /** `save_temp_frame`: the three frames go to `frame_original_`, `frame_binding_box_` and
      `frame_warmup_` files sharing one timestamp, then one entry is appended to each list. When
      a conversion raises, the lists are left as they were. */
  function SaveTempFrame(w: WorkerState, frame: Image, dets: seq<Detection>, box: Image, warm: Image, stamp: string)
    : (r: (WorkerState, bool))
    ensures r.1 ==>
              && r.0.tempImages == w.tempImages + [FrameInfo(stamp, dets,
                   Some(TempPath(w.tempDir, "frame_original_", stamp)),
                   Some(TempPath(w.tempDir, "frame_binding_box_", stamp)),
                   Some(TempPath(w.tempDir, "frame_warmup_", stamp)))]
              && r.0.tempDetections == w.tempDetections + [dets]
    ensures !r.1 ==> r.0.tempImages == w.tempImages && r.0.tempDetections == w.tempDetections
    ensures r.0 == w.(fs := r.0.fs, tempImages := r.0.tempImages, tempDetections := r.0.tempDetections)
  {
    var paths := (TempPath(w.tempDir, "frame_original_", stamp), TempPath(w.tempDir, "frame_binding_box_", stamp),
                  TempPath(w.tempDir, "frame_warmup_", stamp));
    var (fs1, ok) := WriteThree(w.fs, paths, (frame, box, warm));
    if !ok then (w.(fs := fs1), false)
    else
      var info := FrameInfo(stamp, dets, Some(paths.0), Some(paths.1), Some(paths.2));
      (w.(fs := fs1, tempImages := w.tempImages + [info], tempDetections := w.tempDetections + [dets]), true)
  }

  /** Appending keeps the two lists aligned. */
  lemma SaveTempFrameAligned(w: WorkerState, frame: Image, dets: seq<Detection>, box: Image, warm: Image, stamp: string)
    requires StoreAligned(w)
    ensures StoreAligned(SaveTempFrame(w, frame, dets, box, warm, stamp).0)
  {
    var r := SaveTempFrame(w, frame, dets, box, warm, stamp);
    if r.1 {
      forall i | 0 <= i < |r.0.tempImages|
        ensures r.0.tempImages[i].detections == r.0.tempDetections[i]
      {
        if i < |w.tempImages| {
          assert r.0.tempImages[i] == w.tempImages[i];
        }
      }
    }
  }

  // ---------------------------------------------------------------------------------------
  // One iteration of the camera loop.
  // ---------------------------------------------------------------------------------------

  /** Whether detection runs on the frame numbered `frameCount` (already incremented):
      `frame_count % frame_skip == 0 and detecting and model is not None`. A zero frame skip
      raises before the flags are looked at, which `CameraStep` treats separately. */
  predicate Sampled(frameCount: int, frameSkip: int, detecting: bool, modelLoaded: bool)
    requires frameSkip != 0
  {
    frameCount % frameSkip == 0 && detecting && modelLoaded
  }

  /** The `{binding_box, warm_up}` bundle sent to the UI. */
  datatype FrameBundle = FrameBundle(bindingBox: Image, warmUp: Image)

  datatype StepResult =
    | ReadFailed(state: WorkerState)                  // error signal, loop ends
    | Crashed(state: WorkerState)                     // an exception outside the loop's try
    | Emitted(state: WorkerState, bundle: FrameBundle, detectionSignal: Option<seq<Detection>>)

  /** One iteration of `run`'s camera loop. `read` is the camera's frame (`None` when reading
      fails), `detected` the detector's answer, `drawn` the frame `draw_detections` returns
      (`None` when it raises) and `warm` the one `process_warmup` returns (`None` when it
      raises), `stamp` the clock for the temp files. The drawing is assigned, together with
      `current_detections`, before the warm-up runs, so a warm-up that raises leaves both in
      place and the UI receives the drawn frame next to the plain one. */
  function CameraStep(w: WorkerState, read: Option<Image>, modelLoaded: bool, detected: Option<seq<Detection>>,
                      drawn: Option<Image>, warm: Option<Image>, stamp: string): (r: StepResult)
    ensures read.None? <==> r.ReadFailed?
    ensures read.None? ==> r.state == w
    ensures read.Some? ==> r.state.frameCount == w.frameCount + 1
    ensures r.Emitted? && r.detectionSignal.Some? ==>
              w.frameSkip != 0 && Sampled(w.frameCount + 1, w.frameSkip, w.detecting, modelLoaded)
              && detected.Some? && r.detectionSignal.value == detected.value && |detected.value| > 0
              && drawn.Some? && warm.Some? && r.bundle == FrameBundle(drawn.value, warm.value)
    ensures r.Emitted? ==> read.Some? && CvtSwap(read.value).Some?
    ensures r.Emitted? && r.detectionSignal.None? ==>
              r.bundle.warmUp == CvtSwap(read.value).value
              && r.state.tempImages == w.tempImages && r.state.tempDetections == w.tempDetections
    ensures r.Emitted? && (w.frameSkip == 0 || !Sampled(w.frameCount + 1, w.frameSkip, w.detecting, modelLoaded)) ==>
              r.state == w.(frameCount := w.frameCount + 1) && r.bundle == FrameBundle(CvtSwap(read.value).value, CvtSwap(read.value).value)
    ensures r.state.currentDetections != w.currentDetections ==>
              r.Emitted? && r.state.currentDetections == detected && drawn.Some?
              && detected.Some? && |detected.value| > 0
    ensures r.Crashed? ==> read.Some? && (w.frameSkip == 0 || CvtSwap(read.value).None?)
    ensures !r.Emitted? || |r.state.tempImages| == |w.tempImages| || |r.state.tempImages| == |w.tempImages| + 1
  {
    if read.None? then ReadFailed(w)
    else
      var w1 := w.(frameCount := w.frameCount + 1);
      match CvtSwap(read.value)
      case None => Crashed(w1)
      case Some(frame) =>
        if w1.frameSkip == 0 then Crashed(w1)
        else if !Sampled(w1.frameCount, w1.frameSkip, w1.detecting, modelLoaded) then
          Emitted(w1, FrameBundle(frame, frame), None)
        else if detected.None? || |detected.value| == 0 then
          Emitted(w1, FrameBundle(frame, frame), None)
        else if drawn.None? then
          Emitted(w1, FrameBundle(frame, frame), None)
        else
          var w2 := w1.(currentDetections := detected);
          if warm.None? then
            Emitted(w2, FrameBundle(drawn.value, frame), None)
          else
            var (w3, _) := SaveTempFrame(w2, frame, detected.value, drawn.value, warm.value, stamp);
            Emitted(w3, FrameBundle(drawn.value, warm.value), detected)
  }

  /** A warm-up that raises on a sampled frame with detections keeps the drawing: the detections
      are recorded, the UI receives the drawn frame beside the plain one, no detection signal is
      sent and nothing is stored. */
  lemma WarmupRaisedKeepsDrawing(w: WorkerState, read: Image, modelLoaded: bool, dets: seq<Detection>,
                                 drawn: Image, stamp: string)
    requires CvtSwap(read).Some? && w.frameSkip != 0 && |dets| > 0
    requires Sampled(w.frameCount + 1, w.frameSkip, w.detecting, modelLoaded)
    ensures CameraStep(w, Some(read), modelLoaded, Some(dets), Some(drawn), None, stamp)
            == Emitted(w.(frameCount := w.frameCount + 1, currentDetections := Some(dets)),
                       FrameBundle(drawn, CvtSwap(read).value), None)
  {
  }

  /** The temp store grows (by exactly one entry per list) exactly when a sampled frame with a
      non-empty detection was both drawn and warmed up and all three frames converted for
      writing; the lists stay aligned on every iteration. */
  lemma CameraStepStore(w: WorkerState, read: Option<Image>, modelLoaded: bool, detected: Option<seq<Detection>>,
                        drawn: Option<Image>, warm: Option<Image>, stamp: string)
    requires StoreAligned(w)
    ensures var r := CameraStep(w, read, modelLoaded, detected, drawn, warm, stamp);
            && StoreAligned(r.state)
            && (|r.state.tempImages| > |w.tempImages| <==>
                  && read.Some? && CvtSwap(read.value).Some?
                  && w.frameSkip != 0 && Sampled(w.frameCount + 1, w.frameSkip, w.detecting, modelLoaded)
                  && detected.Some? && |detected.value| > 0
                  && drawn.Some? && CvtSwap(drawn.value).Some? && warm.Some? && CvtSwap(warm.value).Some?)
            && (|r.state.tempImages| > |w.tempImages| ==> r.state.tempDetections == w.tempDetections + [detected.value])
  {
    var r := CameraStep(w, read, modelLoaded, detected, drawn, warm, stamp);
    if read.None? {
      assert r.state == w;
    } else {
      var w1 := w.(frameCount := w.frameCount + 1);
      if CvtSwap(read.value).None? || w.frameSkip == 0 {
        assert r.state == w1;
      } else if !Sampled(w.frameCount + 1, w.frameSkip, w.detecting, modelLoaded)
                || detected.None? || |detected.value| == 0 || drawn.None? {
        assert r.state == w1;
      } else if warm.None? {
        assert r.state == w1.(currentDetections := detected);
      } else {
        var frame := CvtSwap(read.value).value;
        var w2 := w1.(currentDetections := detected);
        SaveTempFrameAligned(w2, frame, detected.value, drawn.value, warm.value, stamp);
        SaveTempFrameSucceeds(w2, frame, detected.value, drawn.value, warm.value, stamp);
        assert r.state == SaveTempFrame(w2, frame, detected.value, drawn.value, warm.value, stamp).0;
      }
    }
  }

  /** `save_temp_frame` appends exactly when all three frames convert: the converted camera
      frame always does, so it comes down to the drawn and the warm-up frame. */
  lemma SaveTempFrameSucceeds(w: WorkerState, frame: Image, dets: seq<Detection>, box: Image, warm: Image, stamp: string)
    requires frame.Color? && frame.channels == 3
    ensures SaveTempFrame(w, frame, dets, box, warm, stamp).1 <==> CvtSwap(box).Some? && CvtSwap(warm).Some?
  {
  }

  // ---------------------------------------------------------------------------------------
  // Flags.
  // ---------------------------------------------------------------------------------------

  /** `stop_capture`: the loop and detection both stop (the wait for the thread is left out). */
  function StopCapture(w: WorkerState): (r: WorkerState)
    ensures !r.running && !r.detecting
    ensures r.(running := w.running, detecting := w.detecting) == w
  {
    w.(running := false, detecting := false)
  }

  /** `start_detection`: only the detecting flag changes. */
  function StartDetection(w: WorkerState): (r: WorkerState)
    ensures r.detecting && r.(detecting := w.detecting) == w
  {
    w.(detecting := true)
  }

  /** `stop_detection`: only the detecting flag changes. */
  function StopDetection(w: WorkerState): (r: WorkerState)
    ensures !r.detecting && r.(detecting := w.detecting) == w
  {
    w.(detecting := false)
  }

  /** Once detection is stopped (directly or with the capture), no later iteration runs the
      detector or touches the temp store, whatever the camera and the detector deliver. */
  lemma StoppedDetectionNeverSamples(w: WorkerState, read: Image, modelLoaded: bool, detected: Option<seq<Detection>>,
                                     drawn: Option<Image>, warm: Option<Image>, stamp: string)
    ensures var r := CameraStep(StopDetection(w), Some(read), modelLoaded, detected, drawn, warm, stamp);
            r.Emitted? ==> r.detectionSignal.None? && r.state.tempImages == w.tempImages
    ensures var r := CameraStep(StopCapture(w), Some(read), modelLoaded, detected, drawn, warm, stamp);
            r.Emitted? ==> r.detectionSignal.None? && r.state.tempImages == w.tempImages
  {
  }

  /** With detection on, a loaded model and a frame skip of 1 (the initial value), every frame
      is sampled. */
  lemma EveryFrameSampledBySkipOne(frameCount: int)
    ensures Sampled(frameCount, 1, true, true)
  {
  }

  // ---------------------------------------------------------------------------------------
  // Static images.
  // ---------------------------------------------------------------------------------------

  /** `detect_static_image`: a path that does not exist gives an error and `False`, nothing
      else changes; otherwise the path is recorded, the static flag raised and the thread
      started (its run is `RunStatic`). */
  function DetectStaticImage(w: WorkerState, path: string): (r: (WorkerState, bool))
    ensures !r.1 <==> path !in w.fs
    ensures !r.1 ==> r.0 == w
    ensures r.1 ==> r.0.processingStatic && r.0.staticPath == Some(path)
  {
    if path !in w.fs then (w, false)
    else (w.(staticPath := Some(path), processingStatic := true), true)
  }

  /** Why static processing emitted an error instead of a result. */
  datatype StaticError = NotReadable | ModelNotLoaded | NoObjects | ProcessingRaised

  datatype StaticOutcome = StaticFailed(reason: StaticError) | StaticComplete(results: StaticResults)

  /** `process_static_image`: `read` is `cv2.imread`'s answer for the recorded path. A missing
      model or an empty (or failed) detection is reported as an error; otherwise the three
      frames go to `static_*` temp files and the results are stored and emitted. */
  function ProcessStaticImage(w: WorkerState, read: Option<Image>, modelLoaded: bool, detected: Option<seq<Detection>>,
                              rendered: Option<(Image, Image)>, stamp: string): (r: (WorkerState, StaticOutcome))
    ensures read.None? ==> r == (w, StaticFailed(NotReadable))
    ensures read.Some? && CvtSwap(read.value).Some? && !modelLoaded ==> r == (w, StaticFailed(ModelNotLoaded))
    ensures read.Some? && CvtSwap(read.value).Some? && modelLoaded && (detected.None? || |detected.value| == 0)
            ==> r == (w, StaticFailed(NoObjects))
    ensures r.1.StaticComplete? ==>
              && r.0.staticResults == Some(r.1.results)
              && detected.Some? && r.1.results.detections == detected.value && |detected.value| > 0
              && r.1.results.timestamp == stamp
              && r.1.results.originalPath == TempPath(w.tempDir, "static_original_", stamp)
              && r.1.results.bindingBoxPath == TempPath(w.tempDir, "static_binding_box_", stamp)
              && r.1.results.warmupPath == TempPath(w.tempDir, "static_warmup_", stamp)
    ensures r.0.tempImages == w.tempImages && r.0.tempDetections == w.tempDetections
  {
    if read.None? then (w, StaticFailed(NotReadable))
    else match CvtSwap(read.value)
      case None => (w, StaticFailed(ProcessingRaised))
      case Some(frame) =>
        if !modelLoaded then (w, StaticFailed(ModelNotLoaded))
        else if detected.None? || |detected.value| == 0 then (w, StaticFailed(NoObjects))
        else if rendered.None? then (w, StaticFailed(ProcessingRaised))
        else
          var (box, warm) := rendered.value;
          var paths := (TempPath(w.tempDir, "static_original_", stamp), TempPath(w.tempDir, "static_binding_box_", stamp),
                        TempPath(w.tempDir, "static_warmup_", stamp));
          var (fs1, ok) := WriteThree(w.fs, paths, (frame, box, warm));
          if !ok then (w.(fs := fs1), StaticFailed(ProcessingRaised))
          else
            var res := StaticResults(stamp, paths.0, paths.1, paths.2, detected.value, frame, box, warm);
            (w.(fs := fs1, staticResults := Some(res)), StaticComplete(res))
  }

  /** `run` when a static image is pending: the loop flag is raised, the image processed, and
      the static flag lowered again; without a pending image the camera loop runs instead
      (`None` here). */
  function RunStatic(w: WorkerState, read: Option<Image>, modelLoaded: bool, detected: Option<seq<Detection>>,
                     rendered: Option<(Image, Image)>, stamp: string): (r: Option<(WorkerState, StaticOutcome)>)
    ensures r.Some? <==> w.processingStatic && w.staticPath.Some?
    ensures r.Some? ==> r.value.0.running && !r.value.0.processingStatic
  {
    if w.processingStatic && w.staticPath.Some? then
      var (w1, out) := ProcessStaticImage(w.(running := true), read, modelLoaded, detected, rendered, stamp);
      Some((w1.(processingStatic := false), out))
    else None
  }

  /** `process_warmup`'s guard: no frame or no detections returns the frame untouched;
      otherwise the rendered warm-up view. */
  function ProcessWarmup(frame: Option<Image>, dets: seq<Detection>, rendered: Image): (r: Option<Image>)
    ensures frame.None? || |dets| == 0 ==> r == frame
    ensures frame.Some? && |dets| > 0 ==> r == Some(rendered)
  {
    if frame.None? || |dets| == 0 then frame else Some(rendered)
  }

  // ---------------------------------------------------------------------------------------
  // Per-class colours.
  // ---------------------------------------------------------------------------------------

  /** The numpy seed range: seeds are taken modulo 2^32 - 1. */
  const SeedModulus: nat := 0x1_0000_0000 - 1

  /** `h = h * 31 + ord(c)` over the characters of the key, from `h = 0`, unbounded. */
  function HashFold(s: string): nat
  {
    if |s| == 0 then 0 else HashFold(s[..|s| - 1]) * 31 + s[|s| - 1] as nat
  }

  function ColorSeed(key: string): (seed: nat)
    ensures seed < SeedModulus
  {
    HashFold(key) % SeedModulus
  }

  lemma ModStep(h: nat, c: nat)
    ensures (h % SeedModulus * 31 + c) % SeedModulus == (h * 31 + c) % SeedModulus
  {
    var m := SeedModulus;
    var q, r := h / m, h % m;
    assert h == q * m + r;
    assert h * 31 + c == (r * 31 + c) + (q * 31) * m;
    ModAddMultiple(r * 31 + c, q * 31, m);
  }

  lemma ModAddMultiple(a: nat, k: nat, m: nat)
    requires m > 0
    ensures (a + k * m) % m == a % m
  {
    var q, r := a / m, a % m;
    assert a + k * m == (q + k) * m + r by {
      assert a == q * m + r;
      assert (q + k) * m == q * m + k * m;
    }
    ModUnique(a + k * m, q + k, r, m);
  }

  /** Division with remainder is unique. */
  lemma ModUnique(x: int, q: int, r: int, m: int)
    requires m > 0 && x == q * m + r && 0 <= r < m
    ensures x % m == r
  {
    var q2, r2 := x / m, x % m;
    assert x == q2 * m + r2;
    assert (q - q2) * m == r2 - r;
    if q > q2 {
      MulAtLeast(q - q2, m);
    } else if q < q2 {
      MulAtLeast(q2 - q, m);
    }
  }

  lemma MulAtLeast(a: int, m: int)
    requires a >= 1 && m > 0
    ensures a * m >= m
  {
  }

  /** The seed computed with the running value kept below the modulus at every step, as a
      fixed-width implementation would; it equals the seed of the unbounded fold. */
  method ColorSeedIncremental(key: string) returns (seed: nat)
    ensures seed == ColorSeed(key)
  {
    seed := 0;
    var i := 0;
    while i < |key|
      invariant 0 <= i <= |key|
      invariant seed == HashFold(key[..i]) % SeedModulus
    {
      assert key[..i + 1][..i] == key[..i];
      ModStep(HashFold(key[..i]), key[i] as nat);
      seed := (seed * 31 + key[i] as nat) % SeedModulus;
      i := i + 1;
    }
    assert key[..i] == key;
  }

  /** Every cached colour is the one its key's seed generates. */
  predicate CacheConsistent(cache: map<string, Color>, gen: nat -> Color) {
    forall k :: k in cache ==> cache[k] == gen(ColorSeed(k))
  }

  /** `get_color_for_class`: a cached colour is returned as it is; otherwise the colour is drawn
      from the generator seeded with the key's seed (`gen` stands for numpy's generator) and
      cached. */
  function ColorForClass(cache: map<string, Color>, key: string, gen: nat -> Color): (r: (map<string, Color>, Color))
    ensures key in r.0 && r.0[key] == r.1
    ensures key in cache ==> r == (cache, cache[key])
    ensures key !in cache ==> r.0 == cache[key := gen(ColorSeed(key))]
  {
    if key in cache then (cache, cache[key])
    else var c := gen(ColorSeed(key)); (cache[key := c], c)
  }

  /** With a consistent cache (the empty one is), the colour of a key is always the colour of
      its seed, the cache stays consistent, and asking again changes nothing: colours are
      stable per class. */
  lemma ColorStable(cache: map<string, Color>, key: string, gen: nat -> Color)
    requires CacheConsistent(cache, gen)
    ensures var (cache1, c) := ColorForClass(cache, key, gen);
            && c == gen(ColorSeed(key))
            && CacheConsistent(cache1, gen)
            && ColorForClass(cache1, key, gen) == (cache1, c)
  {
  }

  // ---------------------------------------------------------------------------------------
  // Clearing the session.
  // ---------------------------------------------------------------------------------------

  /** `p` is the directory `d` or lies below it. */
  predicate Under(p: string, d: string) {
    p == d || StartsWith(p, d + "/")
  }

  /** `shutil.rmtree(d)`: raises unless `d` is a directory; removes it and everything below. */
  function RmTree(fs: FileSystem, d: string): (r: Option<FileSystem>)
    ensures r.None? <==> !IsDir(fs, d)
    ensures r.Some? ==> forall p :: p in r.value <==> p in fs && !Under(p, d)
    ensures r.Some? ==> forall p :: p in r.value ==> r.value[p] == fs[p]
  {
    if !IsDir(fs, d) then None
    else Some(map p | p in fs.Keys && !Under(p, d) :: fs[p])
  }

  /** `os.remove` of the given paths in order, stopping at the first that raises. */
  function RemoveInOrder(fs: FileSystem, paths: seq<string>): (r: FileSystem)
    ensures forall p :: p in r ==> p in fs && r[p] == fs[p]
    ensures forall p :: IsDir(fs, p) ==> IsDir(r, p)
    decreases |paths|
  {
    if |paths| == 0 then fs
    else match Remove(fs, paths[0])
      case None => fs
      case Some(fs1) => RemoveInOrder(fs1, paths[1..])
  }

  function FramePaths(e: FrameInfo): seq<string> {
    [e.originalPath.GetOr(""), e.bindingBoxPath.GetOr(""), e.warmupPath.GetOr("")]
  }

  /** The per-frame removals of `clear_temp_data`: each frame on its own, a raise skipping the
      rest of that frame only. */
  function RemoveFrames(fs: FileSystem, frames: seq<FrameInfo>): (r: FileSystem)
    ensures forall p :: p in r ==> p in fs && r[p] == fs[p]
    ensures forall p :: IsDir(fs, p) ==> IsDir(r, p)
    decreases |frames|
  {
    if |frames| == 0 then fs else RemoveFrames(RemoveInOrder(fs, FramePaths(frames[0])), frames[1..])
  }

  /** `clear_temp_data`, `newDir` being the name `tempfile.mkdtemp()` returns: the temp files are
      removed, the static results dropped, the temp directory replaced by a newDir one (unless
      removing it raises), and both lists emptied. */
  function ClearTempData(w: WorkerState, newDir: string): (r: WorkerState)
    ensures |r.tempImages| == 0 && |r.tempDetections| == 0 && r.staticResults.None?
    ensures StoreAligned(r)
    ensures IsDir(RemoveFrames(w.fs, w.tempImages), w.tempDir) ==>
              r.tempDir == newDir && IsDir(r.fs, newDir)
              && forall p :: p in r.fs && p != newDir ==> p in w.fs && !Under(p, w.tempDir)
    ensures r == w.(fs := r.fs, tempDir := r.tempDir, tempImages := [], tempDetections := [], staticResults := None)
  {
    var fs1 := RemoveFrames(w.fs, w.tempImages);
    var fs2 := if w.staticResults.Some? then
                 var s := w.staticResults.value;
                 RemoveInOrder(fs1, [s.originalPath, s.bindingBoxPath, s.warmupPath])
               else fs1;
    var (fs3, dir) := match RmTree(fs2, w.tempDir)
                      case None => (fs2, w.tempDir)
                      case Some(fsGone) => (fsGone[newDir := Dir], newDir);
    w.(fs := fs3, tempDir := dir, tempImages := [], tempDetections := [], staticResults := None)
  }

  /** Clearing is safe on an empty store, and a second clear leaves the store as the first one
      left it: empty lists, no static results, every field but the file system and the temp
      directory name untouched. (The second clear does replace the temp directory again.) */
  lemma ClearTempDataTwiceKeepsStore(w: WorkerState, newDir1: string, newDir2: string)
    ensures var once := ClearTempData(w, newDir1);
            var twice := ClearTempData(once, newDir2);
            twice.(fs := once.fs, tempDir := once.tempDir) == once
  {
  }
}
