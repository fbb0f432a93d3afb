/** `DataExporter` (src/module/data_exporter.py): the output layout under a chosen root
    directory, file naming, the JSON and spreadsheet contents, single-frame export and the
    batch export loop. The directory dialog's answer, the clock and the moment the user
    presses Cancel are inputs. */
module Exporter {
  import opened Wrappers
  import opened Strings
  import opened Detections
  import opened Summary
  import opened Images
  import opened Storage

  /** The five output subdirectories, in creation order. */
  const Subdirs: seq<string> := ["images/original", "images/binding_box", "images/warm_up", "data_excel", "data_json"]

  /** The directories `os.makedirs` creates for the layout under `root`, in order: the
      intermediate `images` first, then each subdirectory (`root` itself exists already, since
      it was picked in a directory dialog). */
  function LayoutDirs(root: string): (r: seq<string>)
    ensures |r| == 6
    ensures forall i :: 0 <= i < 5 ==> r[i + 1] == Join(root, Subdirs[i])
  {
    [Join(root, "images")] + seq(5, i requires 0 <= i < 5 => Join(root, Subdirs[i]))
  }

  /** Create the directories in order, stopping at the first one a file is in the way of;
      directories made before the failure stay. */
  function MakeDirs(fs: FileSystem, dirs: seq<string>): (r: (FileSystem, bool))
    ensures r.1 <==> forall i :: 0 <= i < |dirs| ==> !IsFile(fs, dirs[i])
    ensures r.1 ==> forall i :: 0 <= i < |dirs| ==> IsDir(r.0, dirs[i])
    ensures forall p :: p !in dirs ==> (p in r.0 <==> p in fs) && (p in fs ==> r.0[p] == fs[p])
    decreases |dirs|
  {
    if |dirs| == 0 then (fs, true)
    else match MakeDir(fs, dirs[0])
      case None => (fs, false)
      case Some(fs1) =>
        var (fs2, ok) := MakeDirs(fs1, dirs[1..]);
        assert forall i :: 0 < i < |dirs| ==> dirs[i] == dirs[1..][i - 1];
        assert forall i :: 0 < i < |dirs| ==> (IsFile(fs1, dirs[i]) <==> IsFile(fs, dirs[i]) || false);
        (fs2, ok)
  }

  /** `create_output_directories`: succeeds exactly when no file stands where one of the
      layout's directories goes; afterwards all five subdirectories exist. Nothing outside the
      layout is touched. */
  function CreateOutputDirectories(fs: FileSystem, root: string): (r: (FileSystem, bool))
    ensures r.1 <==> forall i :: 0 <= i < 6 ==> !IsFile(fs, LayoutDirs(root)[i])
    ensures r.1 ==> forall i :: 0 <= i < 6 ==> IsDir(r.0, LayoutDirs(root)[i])
    ensures forall p :: p !in LayoutDirs(root) ==> (p in r.0 <==> p in fs) && (p in fs ==> r.0[p] == fs[p])
  {
    MakeDirs(fs, LayoutDirs(root))
  }

  /** `generate_base_filename(prefix)`: the prefix, an underscore, and the timestamp. */
  function BaseFilename(prefix: string, timestamp: string): (r: string)
    ensures |r| == |prefix| + 1 + |timestamp|
  {
    prefix + "_" + timestamp
  }

  /** The timestamp a base name was made from, given its prefix. */
  function TimestampOf(base: string, prefix: string): string
    requires |base| > |prefix|
  {
    base[|prefix| + 1..]
  }

  /** The prefix and the timestamp can be read back from a base name, so for one prefix
      distinct timestamps give distinct base names. */
  lemma BaseFilenameRoundTrip(prefix: string, timestamp: string)
    ensures StartsWith(BaseFilename(prefix, timestamp), prefix + "_")
    ensures TimestampOf(BaseFilename(prefix, timestamp), prefix) == timestamp
  {
    var b := BaseFilename(prefix, timestamp);
    assert b[..|prefix| + 1] == prefix + "_";
    assert b[|prefix| + 1..] == timestamp;
  }

  /** The three image destinations of one base name. */
  datatype ImagePaths = ImagePaths(original: string, bindingBox: string, warmUp: string)

  function ImageDest(root: string, sub: string, base: string): string {
    Join(Join(root, sub), base + ".jpg")
  }

  function DestPaths(root: string, base: string): ImagePaths {
    ImagePaths(ImageDest(root, "images/original", base), ImageDest(root, "images/binding_box", base),
               ImageDest(root, "images/warm_up", base))
  }

  function JsonPath(root: string, base: string): string {
    Join(Join(root, "data_json"), base + ".json")
  }

  function ExcelPath(root: string, base: string): string {
    Join(Join(root, "data_excel"), base + ".xlsx")
  }

  /** Joining a relative subdirectory and then a relative file name below `root`. */
  lemma JoinTwice(root: string, sub: string, file: string)
    requires |sub| > 0 && sub[0] != '/' && sub[|sub| - 1] != '/'
    requires !StartsWith(file, "/")
    ensures Join(Join(root, sub), file) == JoinPrefix(root) + sub + "/" + file
  {
    JoinRelative(root, sub);
    var d := JoinPrefix(root) + sub;
    assert d[|d| - 1] == sub[|sub| - 1];
    assert !EndsWith(d, "/");
    JoinRelative(d, file);
  }

  lemma NotRooted(base: string, ext: string)
    requires |ext| > 0 && ext[0] == '.'
    requires !StartsWith(base, "/")
    ensures !StartsWith(base + ext, "/")
  {
    if |base| > 0 {
      assert (base + ext)[..1] == base[..1];
    } else {
      assert (base + ext)[..1] == ext[..1];
    }
  }

  /** The character of a two-level join at offset `k` into the subdirectory name. */
  lemma JoinedChar(root: string, sub: string, file: string, k: nat)
    requires |sub| > 0 && sub[0] != '/' && sub[|sub| - 1] != '/'
    requires !StartsWith(file, "/")
    requires k < |sub|
    ensures |JoinPrefix(root)| + k < |Join(Join(root, sub), file)|
    ensures Join(Join(root, sub), file)[|JoinPrefix(root)| + k] == sub[k]
  {
    JoinTwice(root, sub, file);
    var p := JoinPrefix(root);
    assert p + sub + "/" + file == p + (sub + "/" + file);
  }

  lemma BaseNotRooted(prefix: string, timestamp: string)
    requires |prefix| > 0 && prefix[0] != '/'
    ensures !StartsWith(BaseFilename(prefix, timestamp), "/")
  {
    assert BaseFilename(prefix, timestamp)[0] == prefix[0];
  }

  /** The five files of one base name are five different paths (as long as the base name is
      not itself an absolute path, which the exporter's `detection_` names never are): the
      paths differ in the subdirectory part. */
  lemma OutputPathsDistinct(root: string, base: string)
    requires !StartsWith(base, "/")
    ensures var d := DestPaths(root, base);
            && d.original != d.bindingBox && d.original != d.warmUp && d.bindingBox != d.warmUp
            && JsonPath(root, base) != ExcelPath(root, base)
            && JsonPath(root, base) !in {d.original, d.bindingBox, d.warmUp}
            && ExcelPath(root, base) !in {d.original, d.bindingBox, d.warmUp}
  {
    var jpg, json, xlsx := base + ".jpg", base + ".json", base + ".xlsx";
    NotRooted(base, ".jpg");
    NotRooted(base, ".json");
    NotRooted(base, ".xlsx");
    SubdirShape("images/original", 'o');
    SubdirShape("images/binding_box", 'b');
    SubdirShape("images/warm_up", 'w');
    SubdirShape("data_json", 'j');
    SubdirShape("data_excel", 'e');
    var d := DestPaths(root, base);
    var j, x := JsonPath(root, base), ExcelPath(root, base);
    assert d.original != d.bindingBox by { PathsDiffer(root, "images/original", jpg, "images/binding_box", jpg, 7); }
    assert d.original != d.warmUp by { PathsDiffer(root, "images/original", jpg, "images/warm_up", jpg, 7); }
    assert d.bindingBox != d.warmUp by { PathsDiffer(root, "images/binding_box", jpg, "images/warm_up", jpg, 7); }
    assert j != x by { PathsDiffer(root, "data_json", json, "data_excel", xlsx, 5); }
    assert j != d.original by { PathsDiffer(root, "data_json", json, "images/original", jpg, 0); }
    assert j != d.bindingBox by { PathsDiffer(root, "data_json", json, "images/binding_box", jpg, 0); }
    assert j != d.warmUp by { PathsDiffer(root, "data_json", json, "images/warm_up", jpg, 0); }
    assert x != d.original by { PathsDiffer(root, "data_excel", xlsx, "images/original", jpg, 0); }
    assert x != d.bindingBox by { PathsDiffer(root, "data_excel", xlsx, "images/binding_box", jpg, 0); }
    assert x != d.warmUp by { PathsDiffer(root, "data_excel", xlsx, "images/warm_up", jpg, 0); }
  }

  /** The shape of a layout subdirectory name: relative, no trailing '/', and the character
      after its `images/` or `data_` part. */
  lemma SubdirShape(sub: string, tag: char)
    requires sub in Subdirs
    requires tag == (if sub[0] == 'i' then sub[7] else sub[5])
    ensures |sub| > 7 && sub[0] != '/' && sub[|sub| - 1] != '/'
    ensures sub[0] == 'i' ==> sub[7] == tag && sub[0] != 'd'
    ensures sub[0] == 'd' ==> sub[5] == tag && sub[0] != 'i'
  {
  }

  /** Two files in different subdirectories of the same root are different paths. */
  lemma PathsDiffer(root: string, sub1: string, file1: string, sub2: string, file2: string, k: nat)
    requires |sub1| > 0 && sub1[0] != '/' && sub1[|sub1| - 1] != '/' && !StartsWith(file1, "/")
    requires |sub2| > 0 && sub2[0] != '/' && sub2[|sub2| - 1] != '/' && !StartsWith(file2, "/")
    requires k < |sub1| && k < |sub2| && sub1[k] != sub2[k]
    ensures Join(Join(root, sub1), file1) != Join(Join(root, sub2), file2)
  {
    JoinedChar(root, sub1, file1, k);
    JoinedChar(root, sub2, file2, k);
    DiffersAt(Join(Join(root, sub1), file1), Join(Join(root, sub2), file2), |JoinPrefix(root)| + k);
  }

  lemma DiffersAt(a: string, b: string, k: nat)
    requires k < |a| && k < |b| && a[k] != b[k]
    ensures a != b
  {
  }

  /** `images/<kind>/<base>.jpg`. */
  function RelativeImage(sub: string, base: string): string {
    sub + "/" + (base + ".jpg")
  }

  /** The JSON document written for a base name when no image paths are passed: the image
      paths are relative to the root, and the detections are stored as given. */
  function JsonDoc(base: string, timestamp: string, dets: seq<Detection>): (r: ExportDoc)
    ensures r.timestamp == timestamp && r.detections == dets
  {
    ExportDoc(timestamp, RelativeImage("images/original", base), RelativeImage("images/binding_box", base),
              RelativeImage("images/warm_up", base), dets)
  }

  /** The relative image paths recorded in the JSON document lead, from the root, to the very
      files the exporter writes the images to. */
  lemma JsonImagePathsResolve(root: string, base: string, timestamp: string, dets: seq<Detection>)
    requires !StartsWith(base, "/")
    ensures var doc := JsonDoc(base, timestamp, dets);
            var d := DestPaths(root, base);
            && Join(root, doc.originalImage) == d.original
            && Join(root, doc.bindingBoxImage) == d.bindingBox
            && Join(root, doc.warmUpImage) == d.warmUp
  {
    ResolveOne(root, "images/original", base);
    ResolveOne(root, "images/binding_box", base);
    ResolveOne(root, "images/warm_up", base);
  }

  lemma ResolveOne(root: string, sub: string, base: string)
    requires |sub| > 0 && sub[0] != '/' && sub[|sub| - 1] != '/'
    requires !StartsWith(base, "/")
    ensures Join(root, RelativeImage(sub, base)) == ImageDest(root, sub, base)
  {
    var file := base + ".jpg";
    var rel := RelativeImage(sub, base);
    var p := JoinPrefix(root);
    NotRooted(base, ".jpg");
    JoinTwice(root, sub, file);
    RelativeNotRooted(sub, file);
    AppendAssoc(p, sub, file);
    JoinRelative(root, sub + "/" + file);
  }

  lemma RelativeNotRooted(sub: string, file: string)
    requires |sub| > 0 && sub[0] != '/'
    ensures !StartsWith(sub + "/" + file, "/")
  {
    assert (sub + "/" + file)[0] == sub[0];
  }

  lemma AppendAssoc(p: string, sub: string, file: string)
    ensures p + sub + "/" + file == p + (sub + "/" + file)
  {
  }

  /** `save_json_data` without image paths: writes the document to `data_json/<base>.json`
      (raising when a directory is in the way). */
  function SaveJsonData(fs: FileSystem, root: string, base: string, timestamp: string, dets: seq<Detection>)
    : (r: Option<FileSystem>)
    ensures r.Some? ==> r.value == fs[JsonPath(root, base) := File(JsonExport(JsonDoc(base, timestamp, dets)))]
    ensures r.None? <==> IsDir(fs, JsonPath(root, base))
  {
    WriteFile(fs, JsonPath(root, base), JsonExport(JsonDoc(base, timestamp, dets)))
  }

  /** The two sheets of `save_excel_data`: the class summary and the detail rows. */
  function WorkbookOf(dets: seq<Detection>): (r: Content)
    ensures r.Workbook?
    ensures DistinctKeys(r.summary) && SumCounts(r.summary) == |dets|
    ensures KeySet(r.summary) == SetOf(ClassesOf(dets))
    ensures |r.details| == |dets|
    ensures forall i :: 0 <= i < |dets| ==> BoxOfRow(r.details[i]) == dets[i].bbox
  {
    ClassCountsSummary(dets);
    DetailRowsFaithful(dets);
    Workbook(ClassCounts(dets), DetailRows(dets))
  }

  /** `save_excel_data`: writes the workbook to `data_excel/<base>.xlsx`. */
  function SaveExcelData(fs: FileSystem, root: string, base: string, dets: seq<Detection>)
    : (r: Option<FileSystem>)
    ensures r.Some? ==> r.value == fs[ExcelPath(root, base) := File(WorkbookOf(dets))]
    ensures r.None? <==> IsDir(fs, ExcelPath(root, base))
  {
    WriteFile(fs, ExcelPath(root, base), WorkbookOf(dets))
  }

  // ---------------------------------------------------------------------------------------
  // Single-frame export.
  // ---------------------------------------------------------------------------------------

  /** The `frames` dictionary of a single export (`None` for a missing or `None` entry). */
  datatype Frames = Frames(original: Option<Image>, bindingBox: Option<Image>, warmUp: Option<Image>)

  /** One `cv2.cvtColor` + `cv2.imwrite` of `save_images_directly`: skipped for no image, raising
      (`false`) when the conversion raises. */
  function SaveImage(fs: FileSystem, img: Option<Image>, dest: string): (r: (FileSystem, bool))
  {
    if img.None? then (fs, true)
    else match CvtSwap(img.value)
      case None => (fs, false)
      case Some(bgr) => (ImWrite(fs, dest, bgr), true)
  }

  /** `save_images_directly`: the three images in order; a raise leaves the earlier writes. */
  function SaveImagesDirectly(fs: FileSystem, frames: Frames, d: ImagePaths): (r: (FileSystem, bool))
  {
    var (fs1, ok1) := SaveImage(fs, frames.original, d.original);
    if !ok1 then (fs1, false)
    else
      var (fs2, ok2) := SaveImage(fs1, frames.bindingBox, d.bindingBox);
      if !ok2 then (fs2, false)
      else SaveImage(fs2, frames.warmUp, d.warmUp)
  }

  /** `fs` holds the converted image at `p`, unless a directory sat there (`imwrite` then
      writes nothing). */
  predicate HoldsImage(fs: FileSystem, p: string, img: Image) {
    IsDir(fs, p) || (CvtSwap(img).Some? && p in fs && fs[p] == File(Picture(CvtSwap(img).value)))
  }

  predicate HoldsFrames(fs: FileSystem, d: ImagePaths, frames: Frames)
    requires frames.original.Some? && frames.bindingBox.Some? && frames.warmUp.Some?
  {
    && HoldsImage(fs, d.original, frames.original.value)
    && HoldsImage(fs, d.bindingBox, frames.bindingBox.value)
    && HoldsImage(fs, d.warmUp, frames.warmUp.value)
  }

  lemma SaveImageHolds(fs: FileSystem, img: Image, dest: string)
    requires SaveImage(fs, Some(img), dest).1
    ensures HoldsImage(SaveImage(fs, Some(img), dest).0, dest, img)
  {
  }

  lemma HoldsImageAfterWrite(fs: FileSystem, p: string, img: Image, q: string, e: Entry)
    requires HoldsImage(fs, p, img) && p != q
    ensures HoldsImage(fs[q := e], p, img)
  {
  }

  /** Writing to one path does not disturb the images held at the others. */
  lemma HoldsImagesAfterWrite(fs: FileSystem, d: ImagePaths, frames: Frames, q: string, e: Entry)
    requires frames.original.Some? && frames.bindingBox.Some? && frames.warmUp.Some?
    requires HoldsFrames(fs, d, frames) && q !in {d.original, d.bindingBox, d.warmUp}
    ensures HoldsFrames(fs[q := e], d, frames)
  {
    HoldsImageAfterWrite(fs, d.original, frames.original.value, q, e);
    HoldsImageAfterWrite(fs, d.bindingBox, frames.bindingBox.value, q, e);
    HoldsImageAfterWrite(fs, d.warmUp, frames.warmUp.value, q, e);
  }

  /** When all three frames are saved without a raise, each destination holds its frame. */
  lemma SaveImagesDirectlyHolds(fs: FileSystem, frames: Frames, d: ImagePaths)
    requires frames.original.Some? && frames.bindingBox.Some? && frames.warmUp.Some?
    requires d.original != d.bindingBox && d.original != d.warmUp && d.bindingBox != d.warmUp
    requires SaveImagesDirectly(fs, frames, d).1
    ensures HoldsFrames(SaveImagesDirectly(fs, frames, d).0, d, frames)
  {
    var (fs1, ok1) := SaveImage(fs, frames.original, d.original);
    var (fs2, ok2) := SaveImage(fs1, frames.bindingBox, d.bindingBox);
    var (fs3, ok3) := SaveImage(fs2, frames.warmUp, d.warmUp);
    SaveImageHolds(fs, frames.original.value, d.original);
    SaveImageHolds(fs1, frames.bindingBox.value, d.bindingBox);
    SaveImageHolds(fs2, frames.warmUp.value, d.warmUp);
    assert HoldsImage(fs2, d.original, frames.original.value);
  }

  datatype SingleResult = SingleResult(rootDir: string, baseFilename: string, jsonPath: string, excelPath: string, imagePaths: ImagePaths)

  /** `export_single_frame`. `choice` is the directory dialog's answer ("" when cancelled);
      `baseStamp` and `stamp` are the two clock readings (base name and JSON timestamp). */
  function ExportSingleFrame(fs: FileSystem, frames: Frames, dets: seq<Detection>, choice: string,
                             baseStamp: string, stamp: string): (r: (FileSystem, Option<SingleResult>))
    ensures frames.original.None? || frames.bindingBox.None? || frames.warmUp.None? || |dets| == 0
            ==> r == (fs, None)
    ensures choice == "" ==> r == (fs, None)
    ensures r.1.Some? ==>
              var res := r.1.value;
              var base := BaseFilename("detection", baseStamp);
              && res.rootDir == choice && res.baseFilename == base
              && res.jsonPath == JsonPath(choice, base) && res.excelPath == ExcelPath(choice, base)
              && res.imagePaths == DestPaths(choice, base)
              && res.jsonPath in r.0 && r.0[res.jsonPath] == File(JsonExport(JsonDoc(base, stamp, dets)))
              && res.excelPath in r.0 && r.0[res.excelPath] == File(WorkbookOf(dets))
              && HoldsFrames(r.0, res.imagePaths, frames)
  {
    if frames.original.None? || frames.bindingBox.None? || frames.warmUp.None? || |dets| == 0 then (fs, None)
    else if choice == "" then (fs, None)
    else
      var (fs1, made) := CreateOutputDirectories(fs, choice);
      if !made then (fs1, None)
      else
        var base := BaseFilename("detection", baseStamp);
        var d := DestPaths(choice, base);
        var (fs2, saved) := SaveImagesDirectly(fs1, frames, d);
        if !saved then (fs2, None)
        else match SaveJsonData(fs2, choice, base, stamp, dets)
          case None => (fs2, None)
          case Some(fs3) =>
            match SaveExcelData(fs3, choice, base, dets)
            case None => (fs3, None)
            case Some(fs4) =>
              BaseNotRooted("detection", baseStamp);
              OutputPathsDistinct(choice, base);
              SaveImagesDirectlyHolds(fs1, frames, d);
              HoldsImagesAfterWrite(fs2, d, frames, JsonPath(choice, base), File(JsonExport(JsonDoc(base, stamp, dets))));
              HoldsImagesAfterWrite(fs3, d, frames, ExcelPath(choice, base), File(WorkbookOf(dets)));
              (fs4, Some(SingleResult(choice, base, JsonPath(choice, base), ExcelPath(choice, base), d)))
  }

  /** A layout directory is at most the root's prefix plus 18 characters (`images/binding_box`,
      the longest subdirectory name). */
  lemma LayoutDirLength(root: string, i: nat)
    requires i < 6
    ensures |LayoutDirs(root)[i]| <= |JoinPrefix(root)| + 18
  {
    if i == 0 {
      assert LayoutDirs(root)[0] == Join(root, "images");
      assert !StartsWith("images", "/") by { assert "images"[..1][0] == "images"[0] == 'i'; }
      JoinRelative(root, "images");
    } else {
      var sub := Subdirs[i - 1];
      assert |sub| <= 18 && sub[0] != '/';
      JoinRelative(root, sub);
    }
  }

  /** A file below a subdirectory whose name and file name are long enough is none of the
      layout's directories, so creating the layout never puts a directory where it goes. */
  lemma OutputFileOutsideLayout(root: string, sub: string, file: string)
    requires |sub| > 0 && sub[0] != '/' && sub[|sub| - 1] != '/'
    requires !StartsWith(file, "/") && |sub| + |file| >= 18
    ensures Join(Join(root, sub), file) !in LayoutDirs(root)
  {
    JoinTwice(root, sub, file);
    forall i | 0 <= i < 6
      ensures LayoutDirs(root)[i] != Join(Join(root, sub), file)
    {
      LayoutDirLength(root, i);
    }
  }

  /** The success direction of `export_single_frame`: it reports its paths exactly when all
      three frames and some detections are there, a directory was chosen, the layout could be
      created, each frame converts, and neither the JSON nor the spreadsheet destination is a
      directory. */
  lemma ExportSingleFrameSucceeds(fs: FileSystem, frames: Frames, dets: seq<Detection>, choice: string,
                                  baseStamp: string, stamp: string)
    ensures var base := BaseFilename("detection", baseStamp);
            ExportSingleFrame(fs, frames, dets, choice, baseStamp, stamp).1.Some? <==>
              && frames.original.Some? && frames.bindingBox.Some? && frames.warmUp.Some? && |dets| > 0
              && choice != "" && CreateOutputDirectories(fs, choice).1
              && CvtSwap(frames.original.value).Some? && CvtSwap(frames.bindingBox.value).Some?
              && CvtSwap(frames.warmUp.value).Some?
              && !IsDir(fs, JsonPath(choice, base)) && !IsDir(fs, ExcelPath(choice, base))
  {
    var base := BaseFilename("detection", baseStamp);
    if frames.original.Some? && frames.bindingBox.Some? && frames.warmUp.Some? && |dets| > 0 && choice != "" {
      ExportSingleFrameStages(fs, frames, dets, choice, baseStamp, stamp);
      var (fs1, made) := CreateOutputDirectories(fs, choice);
      if made {
        var j, x := JsonPath(choice, base), ExcelPath(choice, base);
        var d := DestPaths(choice, base);
        BaseNotRooted("detection", baseStamp);
        NotRooted(base, ".json");
        NotRooted(base, ".xlsx");
        assert IsDir(fs1, j) == IsDir(fs, j) by { OutputFileOutsideLayout(choice, "data_json", base + ".json"); }
        assert IsDir(fs1, x) == IsDir(fs, x) by { OutputFileOutsideLayout(choice, "data_excel", base + ".xlsx"); }
        OutputPathsDistinct(choice, base);
        var (fs2, saved) := SaveImagesDirectly(fs1, frames, d);
        SaveImagesDirectlyElsewhere(fs1, frames, d, j);
        SaveImagesDirectlyElsewhere(fs1, frames, d, x);
        if saved && !IsDir(fs2, j) {
          var fs3 := fs2[j := File(JsonExport(JsonDoc(base, stamp, dets)))];
          assert IsDir(fs3, x) == IsDir(fs2, x);
        }
      }
    }
  }

  /** With its inputs present, `export_single_frame` succeeds when each of its four stages does. */
  lemma ExportSingleFrameStages(fs: FileSystem, frames: Frames, dets: seq<Detection>, choice: string,
                                baseStamp: string, stamp: string)
    requires frames.original.Some? && frames.bindingBox.Some? && frames.warmUp.Some? && |dets| > 0 && choice != ""
    ensures var base := BaseFilename("detection", baseStamp);
            var c := CreateOutputDirectories(fs, choice);
            var s := SaveImagesDirectly(c.0, frames, DestPaths(choice, base));
            var js := SaveJsonData(s.0, choice, base, stamp, dets);
            ExportSingleFrame(fs, frames, dets, choice, baseStamp, stamp).1.Some? <==>
              c.1 && s.1 && js.Some? && SaveExcelData(js.value, choice, base, dets).Some?
  {
  }

  /** `save_images_directly` raises exactly when one of the three present frames fails to
      convert, and touches nothing but the three destinations. */
  lemma SaveImagesDirectlyElsewhere(fs: FileSystem, frames: Frames, d: ImagePaths, q: string)
    requires frames.original.Some? && frames.bindingBox.Some? && frames.warmUp.Some?
    requires q !in {d.original, d.bindingBox, d.warmUp}
    ensures var r := SaveImagesDirectly(fs, frames, d);
            && (r.1 <==> CvtSwap(frames.original.value).Some? && CvtSwap(frames.bindingBox.value).Some?
                         && CvtSwap(frames.warmUp.value).Some?)
            && (q in r.0 <==> q in fs) && (q in fs ==> r.0[q] == fs[q])
  {
  }

  // ---------------------------------------------------------------------------------------
  // Batch export.
  // ---------------------------------------------------------------------------------------

  /** `copy_image_files` for one source key: skipped when the path is absent or empty. */
  function CopyIfPresent(fs: FileSystem, src: Option<string>, dst: string): (r: Option<FileSystem>)
    ensures src.None? || src.value == "" ==> r == Some(fs)
  {
    if src.None? || src.value == "" then Some(fs) else Copy2(fs, src.value, dst)
  }

  /** `copy_image_files`: the three copies in order; a raise leaves the earlier copies. */
  function CopyImageFiles(fs: FileSystem, item: FrameInfo, d: ImagePaths): (r: (FileSystem, bool))
  {
    match CopyIfPresent(fs, item.originalPath, d.original)
    case None => (fs, false)
    case Some(fs1) =>
      match CopyIfPresent(fs1, item.bindingBoxPath, d.bindingBox)
      case None => (fs1, false)
      case Some(fs2) =>
        match CopyIfPresent(fs2, item.warmupPath, d.warmUp)
        case None => (fs2, false)
        case Some(fs3) => (fs3, true)
  }

  /** How far one item of the batch got before it raised, with the paths recorded for it. */
  datatype ItemOutcome =
    | CopyFailed
    | JsonFailed(images: ImagePaths)
    | ExcelFailed(images: ImagePaths, json: string)
    | Exported(images: ImagePaths, json: string, excel: string)

  /** The body of the batch loop for one item, base name `detection_<timestamp>`. */
  function ExportItem(fs: FileSystem, root: string, item: FrameInfo): (r: (FileSystem, ItemOutcome))
    ensures r.1.Exported? ==>
              var base := BaseFilename("detection", item.timestamp);
              && r.1.json == JsonPath(root, base) && r.1.excel == ExcelPath(root, base)
              && r.1.json in r.0 && r.0[r.1.json] == File(JsonExport(JsonDoc(base, item.timestamp, item.detections)))
              && r.1.excel in r.0 && r.0[r.1.excel] == File(WorkbookOf(item.detections))
  {
    var base := BaseFilename("detection", item.timestamp);
    var d := DestPaths(root, base);
    var (fs1, copied) := CopyImageFiles(fs, item, d);
    if !copied then (fs1, CopyFailed)
    else match SaveJsonData(fs1, root, base, item.timestamp, item.detections)
      case None => (fs1, JsonFailed(d))
      case Some(fs2) =>
        match SaveExcelData(fs2, root, base, item.detections)
        case None => (fs2, ExcelFailed(d, JsonPath(root, base)))
        case Some(fs3) =>
          BaseNotRooted("detection", item.timestamp);
          OutputPathsDistinct(root, base);
          (fs3, Exported(d, JsonPath(root, base), ExcelPath(root, base)))
  }

  /** The loop body as a value, so that facts about the loop need not look inside it. */
  type Step = (FileSystem, FrameInfo) -> (FileSystem, ItemOutcome)

  function ItemStep(root: string): Step {
    (fs: FileSystem, item: FrameInfo) => ExportItem(fs, root, item)
  }

  /** Reference semantics of the loop without cancellation: every item is attempted, in order,
      whatever happened to the ones before it. */
  function RunItems(step: Step, fs: FileSystem, items: seq<FrameInfo>): (r: (FileSystem, seq<ItemOutcome>))
    ensures |r.1| == |items|
    decreases |items|
  {
    if |items| == 0 then (fs, [])
    else
      var prev := RunItems(step, fs, items[..|items| - 1]);
      var last := step(prev.0, items[|items| - 1]);
      (last.0, prev.1 + [last.1])
  }

  /** A failing item does not stop the batch: running `a + b` is running `a`, then `b` from
      wherever `a` left the file system. */
  lemma {:induction false} RunItemsSequential(step: Step, fs: FileSystem, a: seq<FrameInfo>, b: seq<FrameInfo>)
    ensures RunItems(step, fs, a + b)
            == (RunItems(step, RunItems(step, fs, a).0, b).0, RunItems(step, fs, a).1 + RunItems(step, RunItems(step, fs, a).0, b).1)
    decreases |b|
  {
    var ra := RunItems(step, fs, a);
    if |b| > 0 {
      var b', last := b[..|b| - 1], b[|b| - 1];
      assert (a + b)[..|a + b| - 1] == a + b';
      assert (a + b)[|a + b| - 1] == last;
      RunItemsSequential(step, fs, a, b');
      var rb' := RunItems(step, ra.0, b');
      var o := step(rb'.0, last);
      assert RunItems(step, ra.0, b) == (o.0, rb'.1 + [o.1]);
      assert ra.1 + rb'.1 + [o.1] == ra.1 + (rb'.1 + [o.1]);
    } else {
      assert a + b == a;
      assert RunItems(step, ra.0, b) == (ra.0, []);
      assert ra.1 + [] == ra.1;
    }
  }

  /** The `all_paths` dictionary: paths are recorded stage by stage, so an item that fails
      after its copies still contributes its image paths. */
  datatype ExportPaths = ExportPaths(imagePaths: seq<ImagePaths>, jsonPaths: seq<string>, excelPaths: seq<string>)

  function CollectPaths(outs: seq<ItemOutcome>): (r: ExportPaths)
    ensures |r.excelPaths| <= |r.jsonPaths| <= |r.imagePaths| <= |outs|
    decreases |outs|
  {
    if |outs| == 0 then ExportPaths([], [], [])
    else
      var p := CollectPaths(outs[..|outs| - 1]);
      match outs[|outs| - 1]
      case CopyFailed => p
      case JsonFailed(d) => p.(imagePaths := p.imagePaths + [d])
      case ExcelFailed(d, j) => p.(imagePaths := p.imagePaths + [d], jsonPaths := p.jsonPaths + [j])
      case Exported(d, j, x) => ExportPaths(p.imagePaths + [d], p.jsonPaths + [j], p.excelPaths + [x])
  }

  /** When no item fails, every item contributes one path to each list. */
  lemma {:induction false} CollectPathsAllExported(outs: seq<ItemOutcome>)
    requires forall i :: 0 <= i < |outs| ==> outs[i].Exported?
    ensures var p := CollectPaths(outs);
            |p.imagePaths| == |p.jsonPaths| == |p.excelPaths| == |outs|
            && forall i :: 0 <= i < |outs| ==> p.jsonPaths[i] == outs[i].json && p.excelPaths[i] == outs[i].excel
    decreases |outs|
  {
    if |outs| > 0 {
      CollectPathsAllExported(outs[..|outs| - 1]);
    }
  }

  datatype BatchResult = BatchResult(rootDir: string, paths: ExportPaths, frameCount: nat)

  /** Whether the Cancel button has been pressed by the time of the poll before item `i`
      (`cancelAt` is the item before whose poll the user pressed it, if ever). */
  predicate CancelledBy(cancelAt: Option<nat>, i: nat) {
    cancelAt.Some? && cancelAt.value <= i
  }

  /** Number of items the loop attempts: all of them, or those before the cancelling poll. */
  function Attempted(n: nat, cancelAt: Option<nat>): (k: nat)
    ensures k <= n
    ensures k < n <==> cancelAt.Some? && cancelAt.value < n
    ensures k < n ==> k == cancelAt.value
  {
    if cancelAt.Some? && cancelAt.value < n then cancelAt.value else n
  }

  /** `export_all_frames` with its cancellation check behaving as documented: an empty frame or
      detection list, or a cancelled directory dialog, is rejected without writing anything;
      items are polled for cancellation before each one and exported in order, an item that
      raises being skipped; after the loop the flag is read once more (line 373), so a Cancel
      pressed while the last item was being written also counts. A cancelled run returns
      `None`; any other run with its directories in place reports every frame. */
  method ExportAllFrames(fs: FileSystem, data: FrameData, choice: string, cancelAt: Option<nat>)
    returns (fsOut: FileSystem, result: Option<BatchResult>, outcomes: seq<ItemOutcome>)
    ensures |data.images| == 0 || data.detectionCount == 0 || choice == "" ==> fsOut == fs && result.None?
    ensures result.Some? <==>
              && |data.images| > 0 && data.detectionCount > 0 && choice != ""
              && CreateOutputDirectories(fs, choice).1 && !CancelledBy(cancelAt, |data.images|)
    ensures result.Some? ==> result.value == BatchResult(choice, CollectPaths(outcomes), |data.images|)
    ensures result.Some? ==> |outcomes| == |data.images|
    ensures CancelledBy(cancelAt, |data.images|) ==> result.None?
    ensures |data.images| > 0 && data.detectionCount > 0 && choice != "" && CreateOutputDirectories(fs, choice).1 ==>
              (fsOut, outcomes) == RunItems(ItemStep(choice), CreateOutputDirectories(fs, choice).0,
                                               data.images[..Attempted(|data.images|, cancelAt)])
  {
    outcomes := [];
    if |data.images| == 0 || data.detectionCount == 0 || choice == "" {
      return fs, None, outcomes;
    }
    var created := CreateOutputDirectories(fs, choice);
    fsOut := created.0;
    if !created.1 {
      return fsOut, None, outcomes;
    }
    var cancelled: bool;
    fsOut, outcomes, cancelled := RunBatch(ItemStep(choice), created.0, data.images, cancelAt);
    if cancelled || CancelledBy(cancelAt, |data.images|) {
      return fsOut, None, outcomes;
    }
    result := Some(BatchResult(choice, CollectPaths(outcomes), |data.images|));
  }

  /** The loop of `export_all_frames`: before each item, poll for cancellation and stop if the
      user has cancelled; otherwise run the item and go on. Reports whether it stopped early. */
  method RunBatch(step: Step, fs: FileSystem, items: seq<FrameInfo>, cancelAt: Option<nat>)
    returns (fsOut: FileSystem, outcomes: seq<ItemOutcome>, cancelled: bool)
    ensures cancelled <==> Attempted(|items|, cancelAt) < |items|
    ensures (fsOut, outcomes) == RunItems(step, fs, items[..Attempted(|items|, cancelAt)])
  {
    fsOut, outcomes := fs, [];
    var i := 0;
    while i < |items| && !CancelledBy(cancelAt, i)
      invariant 0 <= i <= Attempted(|items|, cancelAt)
      invariant (fsOut, outcomes) == RunItems(step, fs, items[..i])
    {
      assert items[..i + 1][..i] == items[..i];
      var next := step(fsOut, items[i]);
      fsOut, outcomes := next.0, outcomes + [next.1];
      i := i + 1;
    }
    cancelled := i < |items|;
  }

  // ---------------------------------------------------------------------------------------
  // The same loop as written, with Qt's progress dialog.
  // ---------------------------------------------------------------------------------------

  /** The parts of `QProgressDialog` the loop relies on (minimum 0, `autoReset` on, which is
      Qt's default). */
  datatype ProgressDialog = ProgressDialog(maximum: int, value: int, canceled: bool)

  /** `reset()`: the bar goes back to minimum - 1 and the cancellation flag is cleared. */
  function Reset(d: ProgressDialog): ProgressDialog {
    d.(value := -1, canceled := false)
  }

  /** `cancel()` (the Cancel button): reset, then raise the cancellation flag. */
  function Cancel(d: ProgressDialog): (r: ProgressDialog)
    ensures r.canceled
  {
    Reset(d).(canceled := true)
  }

  /** `setValue(v)`: reaching the maximum triggers `reset()` (auto-reset). */
  function SetValue(d: ProgressDialog, v: int): (r: ProgressDialog)
    ensures v == d.maximum ==> !r.canceled
    ensures v != d.maximum ==> r.canceled == d.canceled
  {
    var d1 := d.(value := v);
    if v == d.maximum then Reset(d1) else d1
  }

  /** The loop of lines 343-369 over items `i..`, the user pressing Cancel just before the poll
      of item `cancelAt`. */
  function LoopAsWritten(step: Step, fs: FileSystem, items: seq<FrameInfo>, cancelAt: Option<nat>, i: nat,
                         d: ProgressDialog, outs: seq<ItemOutcome>): (r: (FileSystem, seq<ItemOutcome>, ProgressDialog))
    requires i <= |items| && d.maximum == |items|
    ensures r.2.maximum == |items|
    decreases |items| - i
  {
    var d1 := if cancelAt == Some(i) then Cancel(d) else d;
    if i == |items| || d1.canceled then (fs, outs, d1)
    else
      var next := step(fs, items[i]);
      LoopAsWritten(step, next.0, items, cancelAt, i + 1, SetValue(d1, i), outs + [next.1])
  }

  /** `export_all_frames` as written: after the loop the bar is set to its maximum, which
      resets the dialog and clears the flag that `wasCanceled()` then reads. */
  function ExportAllFramesAsWritten(fs: FileSystem, data: FrameData, choice: string, cancelAt: Option<nat>)
    : (r: (FileSystem, Option<BatchResult>, seq<ItemOutcome>))
  {
    if |data.images| == 0 || data.detectionCount == 0 || choice == "" then (fs, None, [])
    else
      var (fs1, made) := CreateOutputDirectories(fs, choice);
      if !made then (fs1, None, [])
      else
        var n := |data.images|;
        var (fs2, outs, d) := LoopAsWritten(ItemStep(choice), fs1, data.images, cancelAt, 0, ProgressDialog(n, 0, false), []);
        var final := SetValue(d, n);
        if !final.canceled then (fs2, Some(BatchResult(choice, CollectPaths(outs), n)), outs)
        else (fs2, None, outs)
  }

  lemma {:induction false} LoopAsWrittenStopsAt(step: Step, fs: FileSystem, items: seq<FrameInfo>, k: nat, i: nat,
                                                d: ProgressDialog, outs: seq<ItemOutcome>)
    requires i <= k < |items| && d.maximum == |items| && !d.canceled
    ensures |LoopAsWritten(step, fs, items, Some(k), i, d, outs).1| == |outs| + (k - i)
    decreases |items| - i
  {
    if i < k {
      var next := step(fs, items[i]);
      LoopAsWrittenStopsAt(step, next.0, items, k, i + 1, SetValue(d, i), outs + [next.1]);
    }
  }

  /** Cancelling the batch part-way does not make it return `None`: the run still reports
      success, with a frame count covering every frame although only the frames before the
      cancelling poll were written. */
  lemma CancelledExportReportsSuccess(fs: FileSystem, data: FrameData, choice: string, k: nat)
    requires k < |data.images| && data.detectionCount > 0 && choice != ""
    requires CreateOutputDirectories(fs, choice).1
    ensures var r := ExportAllFramesAsWritten(fs, data, choice, Some(k));
            r.1 == Some(BatchResult(choice, CollectPaths(r.2), |data.images|)) && |r.2| == k
  {
    var n := |data.images|;
    var fs1 := CreateOutputDirectories(fs, choice).0;
    LoopAsWrittenStopsAt(ItemStep(choice), fs1, data.images, k, 0, ProgressDialog(n, 0, false), []);
  }
}
