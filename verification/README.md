# QTObjectDetection core, modelled in Dafny

QTObjectDetection is a PyQt desktop front end for a YOLO object detector. It works on a
single picture, a folder of pictures or a camera feed. It draws boxes and a "warm-up" heat view
over each picture, and it exports the detections as images, JSON and Excel workbooks. Most of the
repository is widget wiring. This project models the logic underneath it as pure functions
over immutable records:

- a detection is a box of four integers, a confidence, a class name and a class id;
- an image is a numpy array: its rank, its channel count and its pixel rows;
- the file system is a map from path to directory or file content;
- a Python dict is an association list that keeps insertion order (`Dicts`).

Where two revisions of the same code coexist (`controller/…` and `src/controller/…`,
`module/image_utils.py` and `src/module/image_utils.py`), each revision is its own function.
The difference between them is stated as a lemma.

Modules, one per source file or component:

- `Wrappers`, `Strings`, `Dicts`: `Option`, the few `str`/`os.path` operations used, and
  dicts.
- `Detections`, `Summary`:
  - the detection record;
  - class counting in first-seen order, and sorting by class name or by confidence;
  - the detail rows of the Excel sheet, and `enumerate`.
- `Yolo` (src/module/model.py): mapping detector rows to detection records.
- `Images` (both `image_utils.py` revisions): the channel-swap converters, box-drawing
  geometry, and the guards of the scaling, resizing and text helpers.
- `Storage`, `Exporter` (src/module/data_exporter.py):
  - the output layout and file names;
  - the JSON and Excel content;
  - single-frame export and the batch export loop, with Qt's progress dialog.
- `Worker` (src/module/detection_thread.py):
  - the frame-sampling predicate and the temporary session store;
  - static-image processing;
  - the per-class colour seed and its cache;
  - the flag setters.
- `Camera` (src/controller/camera_detect.py): temp data is cleared only after a successful
  export.
- `MultiPicture`, `MultiPictureSrc`: the two folder-batch controllers.
  - the folder scan;
  - the FIFO queue with progress accounting and cancellation;
  - result storage and the status report;
  - export-data preparation.
- `Settings`, `SettingsSrc`: the two settings controllers. They cover the JSON config
  repair, load, save and the prompt predicate.
- `PictureDetect`, `PictureDetectSrc`: the two single-picture windows.

The user's answers to dialogs, the clock, the detector's output and `cv2.imread`'s result are
all parameters.

## Model

| member | source | states |
|---|---|---|
| Yolo.LoadModel | src/module/model.py:12-25 | a load succeeds exactly when the network loads; a failure leaves the state unchanged; the class-name table is replaced only when the network has one |
| Yolo.Truncate | src/module/model.py:48-51 | `int()` of a float truncates toward zero on both signs |
| Yolo.ClassName | src/module/model.py:52 | the class name is the table's entry when present, otherwise the decimal string of the id |
| Yolo.ToDetections | src/module/model.py:42-59 | one detection per result row, in row order |
| Yolo.Detect | src/module/model.py:27-68 | no model or a raising inference gives `None`; otherwise the detections of the first image's rows |
| Yolo.DetectFaithful | src/module/model.py:48-55 | the i-th detection's box is the truncated (x1, y1, x2, y2) of row i, its id is the truncated class, and its name comes from the table or the id's string |
| Yolo.PlotDetection | src/module/model.py:74-94 | with no stored results (or a failed plot) the input image is returned unchanged |
| Images.CvtSwap | src/module/image_utils.py:122-124 | whenever OpenCV's RGB/BGR conversion returns, its result is a 3-channel colour image |
| Images.RgbToBgr | module/image_utils.py:164-177 | identity on `None`, on non-3-D input and on a channel count other than 3; otherwise red and blue are exchanged in every pixel |
| Images.BgrToRgb | module/image_utils.py:179-191 | `None`, non-3-D input and a channel count other than 3 are returned unchanged, as in the other direction |
| Images.ConvertRoundTrip | module/image_utils.py:164-191 | converting to BGR and back, or the other way round, gives back any input |
| Images.ConvertSrc | src/module/image_utils.py:112-139 | the older converters check only the rank: `None` and non-3-D input are returned unchanged; 3 channels convert as in the newer revision; counts other than 3 and 4 raise |
| Images.ConvertRevisionsDiverge | src/module/image_utils.py:122-124 | on a non-3-channel colour image, the newer converter returns the input while the older one converts or raises |
| Images.Clamp | module/image_utils.py:222-226 | a clamped coordinate lies in [0, limit-1] and an in-range value is kept |
| Images.DrawBoundingBox | module/image_utils.py:194-270 | `None` image or box draws nothing; the box is drawn exactly when its corners, clamped into the image, satisfy x1 < x2 and y1 < y2, and it is drawn at those clamped corners; the label background runs from max(0, y1 - text height - 5) down to y1 and from x1 to min(x1 + text width, width - 1); the text baseline is max(y1 - 5, text height) |
| Images.DrawInsideKeepsBox | module/image_utils.py:219-230 | a box already inside the image is drawn with its own corners, or skipped when degenerate |
| Images.DrawBoundingBoxSrc | src/module/image_utils.py:142-203 | a `None` image or box draws nothing; otherwise the older drawing always draws, at the box's own corners, unclamped and never skipped, with a label background `text width` wide ending at the box's top, `text height + 5` above it |
| Images.DrawRevisionsDiverge | src/module/image_utils.py:167-170 | a box that sticks out of the image is clamped by one revision and drawn outside by the other |
| Images.DrawRevisionsAgreeInside | module/image_utils.py:219-262 | well inside the image, both revisions draw the same box and label background |
| Images.ScalePixmapToWidget | module/image_utils.py:55-81 | a null pixmap or missing widget is left unscaled; otherwise the target is the widget size with each side at least 1 |
| Images.ResizeWithAspectRatio | module/image_utils.py:273-289 | `None` stays `None`; with neither target given the input is returned |
| Images.AddTextOverlay | module/image_utils.py:309-330 | a `None` image or empty text draws nothing; otherwise text goes at the given position, with a background exactly when asked |
| Summary.ClassCountsSummary | src/module/data_exporter.py:213-242 | class counts list each distinct class once, in first-seen order, with its exact number of occurrences, and sum to the number of detections |
| Summary.SortedClassCountsSummary | controller/multiple_picture_detect.py:442-446 | sorting the class counts by name keeps every class and count and the sum, and orders the names |
| Summary.SortByConfidenceCorrect | controller/multiple_picture_detect.py:451-452 | the detail list is a permutation of the detections in descending confidence, stable among equal confidences |
| Summary.DetailRowsFaithful | src/module/data_exporter.py:214-235 | one detail row per detection in order: top=y1, left=x1, bottom=y2, right=x2, width and height as differences |
| Exporter.LayoutDirs | src/module/data_exporter.py:48-58 | six directories: the intermediate `images`, then the five sub-directories images/original, images/binding_box, images/warm_up, data_excel and data_json under the root |
| Exporter.CreateOutputDirectories | src/module/data_exporter.py:37-63 | succeeds exactly when no layout path is a file, leaves all six paths directories, and touches no other path |
| Exporter.BaseFilenameRoundTrip | src/module/data_exporter.py:65-76 | the base name starts with the prefix and an underscore, and the timestamp reads back from it |
| Exporter.OutputPathsDistinct | src/module/data_exporter.py:78-183 | the three image paths, the JSON path and the Excel path of one base name are pairwise different |
| Exporter.JsonImagePathsResolve | src/module/data_exporter.py:160-177 | the JSON's relative image paths `images/<kind>/<base>.jpg`, joined to the root, are the files the export writes |
| Exporter.SaveJsonData | src/module/data_exporter.py:146-183 | writes `data_json/<base>.json` holding the timestamp and the detection list unchanged; raises only on a directory |
| Exporter.SaveExcelData | src/module/data_exporter.py:185-249 | the workbook is written to `data_excel/<base>.xlsx`; the save raises exactly when a directory is in the way |
| Exporter.WorkbookOf | src/module/data_exporter.py:185-249 | the class sheet has distinct classes whose counts sum to the number of detections; the detail sheet has one row per detection whose box reads back |
| Exporter.SaveImagesDirectlyHolds | src/module/data_exporter.py:111-144 | after a successful direct save, the three files hold the three frames |
| Exporter.ExportSingleFrame | src/module/data_exporter.py:251-302 | a missing frame, empty detections or a cancelled directory choice return `None` with nothing written; a success reports the chosen root, the `detection_<stamp>` base name and the five output paths, the JSON and workbook hold the detections, and each image path holds its frame |
| Exporter.ExportSingleFrameSucceeds | src/module/data_exporter.py:251-302 | the export succeeds exactly when all three frames and some detections are present, a directory was chosen, the layout could be created, each frame converts for writing, and neither the JSON nor the spreadsheet destination is a directory |
| Exporter.OutputFileOutsideLayout | src/module/data_exporter.py:48-58 | no output file of the layout coincides with one of the layout's directories |
| Exporter.ExportItem | src/module/data_exporter.py:348-369 | an exported item used base name `detection_<timestamp>` and its JSON and workbook were written |
| Exporter.RunItemsSequential | src/module/data_exporter.py:343-369 | processing items a then b is processing a, then b from the resulting file system |
| Exporter.CollectPathsAllExported | src/module/data_exporter.py:335-369 | when every item succeeded, each list collects exactly one path per item, the JSON and Excel paths in item order |
| Exporter.RunBatch | src/module/data_exporter.py:343-369 | the loop polls for cancellation before each item, stops at the first cancelled poll, and runs exactly the items before it, a failing item being skipped |
| Exporter.ExportAllFrames | src/module/data_exporter.py:304-386 | an empty list, no detections or a cancelled choice return `None` and write nothing; the items before the cancelling poll are run in order; the run reports success exactly when there is data, a directory was chosen, the layout was created and Cancel was not pressed before the flag is read after the loop (a Cancel during the last item counts), and a success reports `frame_count` = number of images with one outcome per image |
| Exporter.SetValue | src/module/data_exporter.py:371 | Qt's auto-reset: setting the maximum clears the cancellation flag |
| Exporter.CancelledExportReportsSuccess | src/module/data_exporter.py:371-382 | as written, a batch cancelled at item k writes k items yet reports success with the full frame count |
| Worker.NewWorker | src/module/detection_thread.py:18-45 | a new worker has an empty, aligned store, frame skip 1 and its temp directory created |
| Worker.SaveTempFrame | src/module/detection_thread.py:196-220 | a successful save appends one entry to each list, with the three `frame_*_<stamp>` paths; a failed one leaves both lists alone |
| Worker.SaveTempFrameAligned | src/module/detection_thread.py:196-220 | saving keeps the two temp lists the same length |
| Worker.CameraStep | src/module/detection_thread.py:56-112 | a failed read stops the loop and changes nothing; every read advances the frame counter by one; a frame that is not sampled is emitted as the converted frame with nothing else changed; a detection signal is emitted only for a sampled frame with non-empty detections that was both drawn and warmed up, together with those two frames; without a signal the warm-up slot shows the plain frame and the store is untouched; `current_detections` changes only to the detections of a drawn frame; the store grows by at most one |
| Worker.WarmupRaisedKeepsDrawing | src/module/detection_thread.py:86-112 | a warm-up that raises keeps the drawing and the recorded detections: the UI receives the drawn frame beside the plain one, with no signal and nothing stored |
| Worker.CameraStepStore | src/module/detection_thread.py:86-103 | the store grows exactly when a sampled frame with non-empty detections was drawn and warmed up and all three frames convert for writing, and the lists stay aligned |
| Worker.SaveTempFrameSucceeds | src/module/detection_thread.py:196-220 | saving a converted camera frame appends exactly when the drawn and warm-up frames convert |
| Worker.StopCapture | src/module/detection_thread.py:456-460 | clears `running` and `detecting` and nothing else |
| Worker.StartDetection | src/module/detection_thread.py:462-464 | sets only `detecting` |
| Worker.StopDetection | src/module/detection_thread.py:466-468 | clears only `detecting` |
| Worker.StoppedDetectionNeverSamples | src/module/detection_thread.py:65-82 | with detection stopped, no frame is detected or stored |
| Worker.EveryFrameSampledBySkipOne | src/module/detection_thread.py:70 | with frame skip 1, every frame is sampled while detecting with a model |
| Worker.DetectStaticImage | src/module/detection_thread.py:118-127 | a missing path returns `False` and changes nothing; otherwise the path is recorded and the static flag raised |
| Worker.ProcessStaticImage | src/module/detection_thread.py:129-194 | an unreadable image, no model or no detections give an error; a completion carries the detections and the three `static_*_<stamp>` paths; the temp store is untouched |
| Worker.RunStatic | src/module/detection_thread.py:47-55 | a pending static image is processed and the static flag lowered |
| Worker.ProcessWarmup | src/module/detection_thread.py:290-293 | no frame or no detections returns the frame unchanged |
| Worker.ColorSeed | src/module/detection_thread.py:222-239 | the seed is below 2^32-1 |
| Worker.ColorSeedIncremental | src/module/detection_thread.py:229-231 | folding `h*31 + ord(c)` and reducing mod 2^32-1 at each step gives the seed of the whole string |
| Worker.ColorForClass | src/module/detection_thread.py:222-239 | a cached class returns its cached colour; an uncached one is generated from its seed and cached |
| Worker.ColorStable | src/module/detection_thread.py:222-239 | with a consistent cache, a class's colour is the one its seed generates, and asking again returns it unchanged |
| Worker.RmTree | src/module/detection_thread.py:432-439 | removes exactly the paths under the directory; a missing directory raises |
| Worker.ClearTempData | src/module/detection_thread.py:418-450 | both lists end empty, the static result is `None`, the store is aligned; when the temp directory is still there it is replaced by a fresh one and nothing under the old one remains; no other field changes |
| Worker.ClearTempDataTwiceKeepsStore | src/module/detection_thread.py:418-450 | clearing twice leaves the same lists and flags as clearing once |
| Camera.SaveAllDataDetectCam | src/controller/camera_detect.py:203-215 | over the corrected batch export: the session's temp data is cleared exactly when the export returned a result, so a cancelled export keeps it |
| Camera.SaveAllDataDetectCamAsWritten | src/controller/camera_detect.py:203-215 | over the batch export as written: a returned result empties the session, no result leaves the temp lists alone |
| Camera.CancelledCameraExportClearsSession | src/module/data_exporter.py:343-382 | as written, Cancel pressed before frame k < n still reports n frames with at most k written, and the session's temp lists are then emptied |
| MultiPicture.ImagePathsIn | controller/multiple_picture_detect.py:246-253 | a path is kept exactly when it is the folder joined with a listed name whose lower-cased extension is one of the six supported ones |
| MultiPicture.ImageFilesInCorrect | controller/multiple_picture_detect.py:246-253 | the image list is sorted and is a permutation of the filtered paths |
| MultiPicture.SetBarValue | controller/multiple_picture_detect.py:611-613 | Qt ignores a progress value outside [0, maximum] |
| MultiPicture.ProcessNextFifo | controller/multiple_picture_detect.py:279-307 | cancelled or empty finishes without popping; otherwise items are taken from the head in order, and exactly one starts or the queue runs out |
| MultiPicture.ProcessNextAccounted | controller/multiple_picture_detect.py:279-307 | progress equals the items popped minus the one in flight: each start failure advances the bar by one |
| MultiPicture.Cancel | controller/multiple_picture_detect.py:580-609 | cancelling raises the flag, drops the item in flight and changes nothing else |
| MultiPicture.HandleCompleteAccounted | controller/multiple_picture_detect.py:346-378 | a completion keeps the accounting; a cancelled one stores nothing and finishes; otherwise progress advances by at least one, and a non-empty payload is stored under its path (frames, detections and stamp) with every other entry kept |
| MultiPicture.HandleErrorAccounted | controller/multiple_picture_detect.py:386-393 | an error stores nothing, advances progress by at least one and keeps the accounting |
| MultiPicture.CancelAccounted | controller/multiple_picture_detect.py:580-609 | cancelling keeps the accounting |
| MultiPicture.FinishedBatchComplete | controller/multiple_picture_detect.py:279-307 | a batch that finished without cancellation has an empty queue and a full bar |
| MultiPicture.SelectFolder | controller/multiple_picture_detect.py:153-208 | no model changes nothing; any other outcome but a start leaves the queue alone or reports no images; a start happens exactly when a model is loaded, the replacement of stored results is confirmed or there are none, a folder was chosen and listed, and it holds images; it sets the bar's maximum to their number, clears the results and the cancel flag, keeps the accounting, and leaves as queue a suffix of the sorted image list |
| MultiPicture.ReportClassesCorrect | controller/multiple_picture_detect.py:430-446 | the total is the number of detections; the class list appears only when it is positive, sorted by name, with counts summing to the total |
| MultiPicture.ReportDetailsCorrect | controller/multiple_picture_detect.py:448-458 | the details are the detections sorted by descending confidence, numbered from 1 |
| MultiPicture.ReportNamesStoredImage | controller/multiple_picture_detect.py:423-427 | for a stored image, the report shows its base name and stored timestamp |
| MultiPicture.PrepareFrameDataFaithful | controller/multiple_picture_detect.py:493-538 | one entry per stored result, with timestamp = base name minus extension; the flat list is each image's detections in order, tagged with that timestamp and path |
| MultiPicture.TaggedOfConcatenates | controller/multiple_picture_detect.py:527-534 | the flat detection list is the concatenation of the per-image lists |
| MultiPicture.SaveAllAsWrittenEscapes | controller/multiple_picture_detect.py:469-472 | as written, when no image converts, the temp directory is removed twice and the second removal's exception escapes the slot |
| MultiPicture.SaveAll | controller/multiple_picture_detect.py:460-491 | an empty result map is rejected; no exception escapes; a hand-off carries at most one frame per stored result |
| MultiPicture.SaveAllHandsOffEverything | controller/multiple_picture_detect.py:460-491 | when every stored result converts, the exporter receives every stored image and all their detections |
| MultiPictureSrc.ScanRevisionsAgree | src/controller/multiple_picture_detect.py:92-102 | the older scan reports "no images" exactly when the newer list is empty, and otherwise yields the same sorted list |
| MultiPictureSrc.SelectFolder | src/controller/multiple_picture_detect.py:69-122 | no model or no folder changes nothing; a start needs a scan with images, sets the bar's maximum to their number and clears the results and the cancel flag |
| MultiPictureSrc.SelectFolderAccounted | src/controller/multiple_picture_detect.py:69-122 | a started batch satisfies the progress accounting |
| MultiPictureSrc.ProcessNextBounded | src/controller/multiple_picture_detect.py:124-160 | the older queue keeps progress at most the number popped |
| MultiPictureSrc.HandleCompleteBounded | src/controller/multiple_picture_detect.py:179-212 | a completion keeps the progress bound and stores nothing when cancelled |
| MultiPictureSrc.HandleErrorBounded | src/controller/multiple_picture_detect.py:214-222 | an error keeps the progress bound |
| MultiPictureSrc.HandleCompleteRevisionsDiverge | src/controller/multiple_picture_detect.py:185-208 | on an empty payload the newer controller fills the bar and the older one stops one short |
| MultiPictureSrc.HandleCompleteRevisionsAgree | src/controller/multiple_picture_detect.py:179-212 | on a non-empty payload the two revisions make the same transition |
| MultiPictureSrc.ReportRevisionsDiffer | src/controller/multiple_picture_detect.py:256-272 | the older report always shows the class heading, the newer only for a positive total; otherwise they agree |
| MultiPictureSrc.SrcFrames | src/controller/multiple_picture_detect.py:334-343 | one entry per stored result, in order: its timestamp, detections and stored frames unchanged, the original read from its path, and filename = the path's base name |
| MultiPictureSrc.SaveAllData | src/controller/multiple_picture_detect.py:320-324 | an empty result map is rejected and only it |
| MultiPictureSrc.SaveAllRevisionsSameDetections | src/controller/multiple_picture_detect.py:334-343 | with the metadata tags stripped, both revisions export the same flat detection list |
| Settings.DefaultConfigKeys | controller/settings.py:28-39 | the defaults map `save_path` to the Downloads directory and `save_prompt_type` to 0 |
| Settings.SaveConfig | controller/settings.py:49-69 | a frozen build changes nothing; otherwise only the two known keys take the attributes' values, other keys are kept, and the file is written when it can be opened |
| Settings.RepairConfigCorrect | controller/settings.py:71-88 | after repair both keys are present; a missing key gets its default, an empty save path becomes Downloads, other values are kept; the change flag is raised exactly when one of these happened |
| Settings.RepairConfigIdempotent | controller/settings.py:71-88 | repairing a repaired dict changes nothing and reports no change |
| Settings.ValidateAsWritten | controller/settings.py:71-88 | as written, an unchanged dict is kept as is |
| Settings.Validate | controller/settings.py:71-88 | the dict becomes its repair, the attributes are untouched, and the repaired dict is written only when it changed |
| Settings.ValidateIdempotent | controller/settings.py:73 | validating twice is validating once |
| Settings.LoadFallsBackToDefaults | controller/settings.py:90-121 | a missing file, an unreadable file or a failure afterwards yields the Downloads path, prompt type 0 and the default dict; a missing file is written when possible |
| Settings.LoadKeepsFileValues | controller/settings.py:90-102 | a readable file's values become the attributes (after repair), and the dict is the repaired file |
| Settings.LoadAsWrittenLosesSavePath | controller/settings.py:87-88 | as written, a file holding only a custom save path loads as the Downloads path and is rewritten with it |
| Settings.LoadKeepsCustomSavePath | controller/settings.py:90-102 | with the corrected validation the custom save path survives loading |
| Settings.SelectSavePath | controller/settings.py:137-142 | choosing a directory does not touch the stored configuration or the prompt type |
| Settings.SelectThenSaveStoresPath | controller/settings.py:137-154 | a chosen directory followed by Save ends up as `save_path` in the configuration (unless frozen, when nothing is saved); a cancelled choice followed by Save stores what the path field showed |
| Settings.SaveSettings | controller/settings.py:144-152 | the attributes take the widgets' values and, unless frozen, the config holds them |
| Settings.ShouldPromptAfterSave | controller/settings.py:166-168 | after saving, the prompt predicate holds exactly when the chosen type is 1 |
| SettingsSrc.DefaultConfigKeys | src/controller/settings.py:19-26 | the older defaults are an empty save path and prompt type 0 |
| SettingsSrc.SaveConfig | src/controller/settings.py:76-90 | only the two known keys are overwritten, others kept, and there is no frozen check |
| SettingsSrc.FillMissingCorrect | src/controller/settings.py:32-45 | only missing keys receive defaults; present values, empty ones included, are kept; the flag is raised exactly when a key was missing |
| SettingsSrc.FillMissingIdempotent | src/controller/settings.py:32-45 | filling twice is filling once |
| SettingsSrc.RepairRevisionsDiverge | src/controller/settings.py:37-41 | an empty save path is replaced by one revision and kept by the other |
| SettingsSrc.ValidateAsWritten | src/controller/settings.py:32-45 | as written, a complete dict is kept as is |
| SettingsSrc.Validate | src/controller/settings.py:32-45 | the dict becomes its filled form, written only when something was missing |
| SettingsSrc.LoadFallsBackToDefaults | src/controller/settings.py:32-74 | a missing file gives the defaults and saves them; an unreadable file gives the defaults and leaves the file alone; widgets refusing a readable file's values give the defaults, while the fill `validate_config` wrote before the raise stays on disk |
| SettingsSrc.LoadKeepsFileValues | src/controller/settings.py:47-63 | a readable file's values become the attributes, missing keys taking defaults |
| SettingsSrc.LoadAsWrittenLosesPromptType | src/controller/settings.py:44-45 | as written, a file holding only prompt type 1 loads as type 0 and is rewritten with 0 |
| SettingsSrc.LoadKeepsPromptType | src/controller/settings.py:47-63 | with the corrected validation the same file keeps type 1 and saving prompts |
| PictureDetect.UpdateDetectionsInfo | controller/picture_detect.py:307-308 | an empty list leaves the text untouched |
| PictureDetect.UpdateDetectionsInfoCorrect | controller/picture_detect.py:300-337 | the total is the list's length; classes appear once each in first-seen order with exact counts summing to the total; details are every detection in input order, numbered from 1 |
| PictureDetect.ResetUi | controller/picture_detect.py:428-445 | Choose enabled, the three result buttons disabled, text and both frames cleared, stored images and detections kept |
| PictureDetect.HandleError | controller/picture_detect.py:262-273 | an error resets the window as `reset_ui` does and hides the dialog |
| PictureDetect.HandleStaticComplete | controller/picture_detect.py:275-298 | the dialog is always hidden and Choose enabled; a result installs and shows the bounding-box and warm-up views, stores the detections, enables all buttons and refreshes the text; no result changes nothing else |
| PictureDetect.Finish | controller/picture_detect.py:218-298 | either way the dialog is hidden, Choose is enabled and the picture stays; a failure disables the result buttons, clears the views and text and keeps the earlier detections; a completion shows its two views, stores its detections and enables every button |
| PictureDetect.SelectPicture | controller/picture_detect.py:142-212 | no model resets the view; an empty answer does nothing; an unreadable picture is reported as an error; otherwise the RGB picture becomes current and is shown |
| PictureDetect.SaveDetectedPicture | controller/picture_detect.py:339-363 | an unknown type or a missing view is refused; the dialog opens on `detected_<type>`; an empty answer saves nothing; a save writes only the chosen path |
| PictureDetect.SavedPictureReadsBack | controller/picture_detect.py:380-391 | the written file, converted back to RGB, is the view on screen |
| PictureDetect.CheckDataAvailable | controller/picture_detect.py:411-426 | data is available exactly when a picture is loaded and the detection list is non-empty |
| PictureDetect.SaveDataRequest | controller/picture_detect.py:393-409 | the exporter is called exactly when data is available, with the original, bounding-box and warm-up frames and the detections |
| PictureDetect.ButtonsBackedPreserved | controller/picture_detect.py:48-54 | every transition keeps each enabled save button backed by its view |
| PictureDetect.EnabledSaveFindsView | controller/picture_detect.py:351-355 | an enabled save button never meets the "nothing to save" warning |
| PictureDetect.PictureFlowDataAvailable | controller/picture_detect.py:142-298 | after choosing a readable picture, a worker completion opens the data guard and enables every button, and a worker failure disables the result buttons |
| PictureDetectSrc.Run | src/picture_detect.py:360-367 | the thread's copy is always taken; an exception is captured as `error` and `detections` stays `None` |
| PictureDetectSrc.SaveFormatForCorrect | src/picture_detect.py:284-287 | JPEG at quality 100 exactly when the lower-cased path ends in .jpg or .jpeg, PNG at compression 0 otherwise, whatever the case |
| PictureDetectSrc.SaveDetectedPicture | src/picture_detect.py:267-292 | no processed view is refused; an empty answer does nothing; a conversion failure is reported; a save uses the extension's format and writes only the chosen path |
| PictureDetectSrc.SavedViewReadsBack | src/picture_detect.py:282-287 | the written file, converted back to RGB, is the view |
| PictureDetectSrc.SaveDataAsWrittenRaises | src/picture_detect.py:294-313 | as written, a detector that returns `None` makes the data button raise for any file name |
| PictureDetectSrc.SaveData | src/picture_detect.py:294-337 | a missing view or missing detections are refused; the slot raises exactly when the chosen path is a directory or has no suffix pandas can write (`.xlsx`, `.xlsm`, `.ods`); otherwise the workbook of the detections is written |
| PictureDetectSrc.SaveDataWorkbook | src/picture_detect.py:311-331 | the workbook's class rows are distinct classes in first-seen order summing to the count; its detail rows are top/left/bottom/right from the box and extents as differences, in order |
| PictureDetectSrc.SaveDataNeverRaisesOnFiles | src/picture_detect.py:360-367 | with the guard, no thread result makes the data button raise on a file path with a writable spreadsheet suffix |
| PictureDetectSrc.SaveDataBareNameRaises | src/picture_detect.py:300-335 | a name typed without a suffix raises out of the slot even with the guard, while the same name with `.xlsx` is written |

## Left out

- Widget layout, painting, message boxes, the progress dialogs' labels and `processEvents`
  are not modelled. Only the enabled flags and which image each frame shows are kept.
- YOLO inference, `plot`/`plot_heat`, the OpenCV drawing calls and text-size computation are
  foreign. Their results are parameters: rendered views, text width and height, and detector
  rows.
- Floating-point details are not modelled:
  - confidences are reals, and Python's float rounding is absent;
  - the warm-up Gaussian blending, the HSV golden-ratio colours and class percentages are left out;
  - the float aspect-ratio resize is reduced to its guard.
- The numpy PRNG colour generator is left out. Only the seed derivation and the colour cache
  are modelled; the generator is a parameter.
- QThread start, terminate and wait, signal delivery, and the camera device loop's timing are
  left out. Worker outcomes reach the controllers as parameters, and only one image is ever in
  flight.
- The file system has no parent-directory tracking and no permissions. Failures are modelled
  only where the code reacts to them: a directory in the way of a file, a file in the way of
  a directory, a missing copy source, and a missing directory for `rmtree`.
  - `cv2.imwrite` on an unsupported extension (which raises) is not distinguished from a
    successful write.
- PictureDetectSrc.ExcelExtension: pandas' writer engines are taken as installed, so an
  `.ods` name never raises for a missing `odf` package, and a hidden-file name such as
  `.xlsx`, which `os.path.splitext` gives no suffix, is treated as having one.
- Excel and JSON serialisation through pandas is modelled as the rows and documents written,
  not their bytes.
- The multi-picture controllers hand their data to a `DataExporter(settings=…)` that is not
  part of this model. Only the data they build and the hand-off are modelled.
- `save_config`'s `os.makedirs` failure is not distinguished from an unwritable file.
- The settings `save_prompt_type_changed`, `get_save_path` and `get_save_prompt_type` are
  trivial accessors and are not modelled.
- `last_export_path` and the destination-directory dialog's starting directory are not
  modelled.
- `os.path.normpath` is a parameter of the export preparation.
- MultiPictureSrc.HandleCompleteRevisionsDiverge: the divergence needs an empty payload,
  which this repository's worker never emits. Its completions always carry detections.
- PictureDetect.SelectPicture: the detection thread's own missing-path check is not
  repeated. A picture that `cv2.imread` could read exists.
- Settings: the `ShouldPrompt` predicate also accepts JSON `true`, because Python's
  `True == 1`.

## Findings

| source | as written | input that shows it | evidently intended | confidence | as-written member | corrected member |
|---|---|---|---|---|---|---|
| controller/settings.py:87-88 | `validate_config` saves through `save_config`, which writes the instance attributes over `save_path` and `save_prompt_type`; during loading those attributes still hold the defaults | a config file containing only `{"save_path": "/data"}` loads as the Downloads path and the file is rewritten with it | repairing the file must keep the values it already holds | medium, not executed | Settings.LoadAsWrittenLosesSavePath | Settings.LoadKeepsCustomSavePath |
| src/controller/settings.py:44-45 | the same clobbering save in the older revision | a config file containing only `{"save_prompt_type": 1}` loads as type 0 and is rewritten with 0 | the prompt type in the file survives loading | medium, not executed | SettingsSrc.LoadAsWrittenLosesPromptType | SettingsSrc.LoadKeepsPromptType |
| src/module/data_exporter.py:371-382 | after the loop the progress dialog is set to its maximum; Qt's auto-reset then clears the cancellation flag before `wasCanceled()` is read | pressing Cancel during item k of n > k frames: k frames are written and success is reported with `frame_count` n, and the camera session's temp data is then cleared | a cancelled batch returns `None` | medium, not executed | Exporter.CancelledExportReportsSuccess | Exporter.ExportAllFrames |
| controller/multiple_picture_detect.py:469-472 | when no image could be prepared, the temp directory is removed and an exception raised; the handler at lines 486-489 removes it again, and that second `rmtree` raises out of the slot | a stored result whose bounding-box frame OpenCV cannot convert | the failure is reported to the user and the directory removed once | low, not executed | MultiPicture.SaveAllAsWrittenEscapes | MultiPicture.SaveAll |
| src/picture_detect.py:294-313 | the data-save guard checks only `processed_image`, then iterates the thread's `detections`, which is `None` when the detector returned `None` | the detector's own exception path (src/model.py:37-39) returns `None`; the thread records no error, the data button is enabled, and pressing it raises `TypeError` out of the slot | missing detections are refused like a missing image | medium, not executed | PictureDetectSrc.SaveDataAsWrittenRaises | PictureDetectSrc.SaveData |
