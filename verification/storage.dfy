/** The file system as the application sees it: a map from path to directory or file, with the
    failure behaviour of the library calls it uses (`os.makedirs`, `shutil.copy2`, `open(.., 'w')`,
    `cv2.imwrite`, `os.remove`). Parent directories are not tracked: every write the
    application makes goes into a directory it has just created. */
module Storage {
  import opened Wrappers
  import opened Strings
  import opened Detections
  import opened Summary
  import opened Images

  /** The JSON document of one exported frame. */
  datatype ExportDoc = ExportDoc(
    timestamp: string, originalImage: string, bindingBoxImage: string, warmUpImage: string,
    detections: seq<Detection>)

  /** What a file holds. */
  datatype Content =
    | Picture(image: Image)
    | JsonExport(doc: ExportDoc)
    | Workbook(summary: seq<ClassCount>, details: seq<DetailRow>)
    | Foreign

  datatype Entry = Dir | File(content: Content)

  type FileSystem = map<string, Entry>

  predicate IsDir(fs: FileSystem, p: string) { p in fs && fs[p].Dir? }

  predicate IsFile(fs: FileSystem, p: string) { p in fs && fs[p].File? }

  /** `os.makedirs(p, exist_ok=True)` for one level: raises when a file is in the way. */
  function MakeDir(fs: FileSystem, p: string): (r: Option<FileSystem>)
    ensures r.None? <==> IsFile(fs, p)
    ensures r.Some? ==> r.value == fs[p := Dir]
  {
    if IsFile(fs, p) then None else Some(fs[p := Dir])
  }

  /** `cv2.imwrite`: writes the picture, or silently does nothing when `p` is a directory. */
  function ImWrite(fs: FileSystem, p: string, img: Image): (r: FileSystem)
    ensures IsDir(fs, p) ==> r == fs
    ensures !IsDir(fs, p) ==> r == fs[p := File(Picture(img))]
  {
    if IsDir(fs, p) then fs else fs[p := File(Picture(img))]
  }

  /** `open(p, 'w')` followed by a write (also what `pd.ExcelWriter` does): raises when `p` is
      a directory. */
  function WriteFile(fs: FileSystem, p: string, c: Content): (r: Option<FileSystem>)
    ensures r.None? <==> IsDir(fs, p)
    ensures r.Some? ==> r.value == fs[p := File(c)]
  {
    if IsDir(fs, p) then None else Some(fs[p := File(c)])
  }

  /** `shutil.copy2(src, dst)`: a directory destination receives the file under the source's
      base name; a missing or directory source, a directory target, or copying a file onto
      itself raises. */
  function Copy2(fs: FileSystem, src: string, dst: string): (r: Option<FileSystem>)
    ensures r.Some? ==> IsFile(fs, src)
    ensures r.Some? && !IsDir(fs, dst) ==> r.value == fs[dst := fs[src]]
  {
    var target := if IsDir(fs, dst) then Join(dst, Basename(src)) else dst;
    if !IsFile(fs, src) || IsDir(fs, target) || target == src then None
    else Some(fs[target := fs[src]])
  }

  /** `os.remove(p)`: raises unless `p` is a file. */
  function Remove(fs: FileSystem, p: string): (r: Option<FileSystem>)
    ensures r.None? <==> !IsFile(fs, p)
    ensures r.Some? ==> p !in r.value && forall q :: q != p ==> (q in r.value <==> q in fs)
  {
    if IsFile(fs, p) then Some(fs - {p}) else None
  }

  /** One entry of the frame lists handed to the exporter: the timestamp, the detections, and
      the paths of the three image files when the producer wrote them (an absent or empty
      path is skipped by the exporter). */
  datatype FrameInfo = FrameInfo(
    timestamp: string, detections: seq<Detection>,
    originalPath: Option<string>, bindingBoxPath: Option<string>, warmupPath: Option<string>)

  /** The `frame_data` dictionary: the frame list and the number of detection records that
      accompany it (only its emptiness is consulted). */
  datatype FrameData = FrameData(images: seq<FrameInfo>, detectionCount: nat)
}
