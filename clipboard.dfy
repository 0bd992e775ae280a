/**
 * What the watcher sees of the system clipboard, and the classification
 * `IsMemoryImage` that decides whether a clipboard image is a fresh in-memory
 * image (a screenshot) or merely stands for a file copied in a file manager.
 */
module Clipboard {

  datatype Option<T> = None | Some(value: T)

  newtype byte = x: int | 0 <= x < 256

  /** The pixel formats the pipeline distinguishes (WPF `PixelFormats`). */
  datatype PixelFormat = Bgra32 | Bgr32 | Pbgra32 | OtherFormat(tag: string)

  /**
   * A decoded WPF `BitmapSource`: its size, its pixel format, and its pixels
   * as they read once converted to BGRA32 (row-major, 4 bytes per pixel).
   */
  datatype Image = Image(width: nat, height: nat, format: PixelFormat, bgra: seq<byte>)

  /** What `IDataObject.GetData(format)` hands back for a format that is present. */
  datatype Payload =
    | StreamData(length: nat, position: nat, canSeek: bool)  // a System.IO.Stream (MemoryStream included)
    | ByteArray(bytes: seq<byte>)                            // a byte[]
    | DrawingBitmap(handle: nat)                             // a System.Drawing.Bitmap
    | WpfBitmap(image: Image)                                // a WPF BitmapSource
    | FileList(paths: seq<string>)                           // a file-drop list
    | OtherObject                                            // any other object
    | NullData                                               // present, but GetData returns null

  /**
   * A snapshot of the clipboard. `dataObject` is `GetDataObject()` (None for
   * null), mapping each present format tag to its payload; `queryThrows` says
   * that the queries made inside `IsMemoryImage` raise (clipboard held
   * elsewhere), while `ContainsImage` and `GetImage` themselves answer.
   */
  datatype ClipboardState = ClipboardState(
    containsImage: bool,                     // Clipboard.ContainsImage()
    image: Option<Image>,                    // Clipboard.GetImage()
    hasFileDropList: bool,                   // Clipboard.ContainsFileDropList()
    dataObject: Option<map<string, Payload>>,
    queryThrows: bool)

  /** The format tags that mark a clipboard image as coming from a file, in the order they are probed. */
  const FileFormats: seq<string> := ["FileName", "FileNameW", "Shell IDList Array", "Preferred DropEffect"]

  /** Reference definition: the clipboard content originates from a file. */
  ghost predicate OriginatesFromFile(c: ClipboardState)
  {
    c.hasFileDropList ||
    (c.dataObject.Some? && exists f :: f in FileFormats && f in c.dataObject.value)
  }

  /** The early-exit probe over `candidates`: the index of the first one present, if any. */
  function FirstPresent(present: set<string>, candidates: seq<string>): (r: Option<nat>)
    ensures r.Some? ==> r.value < |candidates| && candidates[r.value] in present
    ensures r.Some? ==> forall j :: 0 <= j < r.value ==> candidates[j] !in present
    ensures r.None? <==> forall j :: 0 <= j < |candidates| ==> candidates[j] !in present
  {
    if |candidates| == 0 then None
    else if candidates[0] in present then Some(0)
    else
      match FirstPresent(present, candidates[1..])
      case None => None
      case Some(k) => Some(k + 1)
  }

  /** The file-indicating format that `IsMemoryImage` reports, when it finds one. */
  function DetectedFileFormat(c: ClipboardState): (r: Option<string>)
    requires c.dataObject.Some?
    ensures r.Some? ==> r.value in FileFormats && r.value in c.dataObject.value
    ensures r.None? <==> forall f :: f in FileFormats ==> f !in c.dataObject.value
  {
    match FirstPresent(c.dataObject.value.Keys, FileFormats)
    case None => None
    case Some(k) => Some(FileFormats[k])
  }

  /**
   * `IsMemoryImage`: false when a file-drop list or a file-indicating format
   * is present; true otherwise, and true when the clipboard query throws.
   */
  function IsMemoryImage(c: ClipboardState): (r: bool)
    ensures r <==> c.queryThrows || !OriginatesFromFile(c)
  {
    if c.queryThrows then true
    else if c.hasFileDropList then false
    else if c.dataObject.None? then true
    else DetectedFileFormat(c).None?
  }

  /** The condition under which `OnClipboardChanged` schedules a capture. */
  predicate Qualifies(c: ClipboardState)
    ensures Qualifies(c) <==> c.containsImage && c.image.Some? && (c.queryThrows || !OriginatesFromFile(c))
  {
    c.containsImage && IsMemoryImage(c) && c.image.Some?
  }

  /** The clipboard after `ReplaceClipboardWithFile(path)`: one file-drop list naming the file. */
  function FileDropClipboard(path: string): (c: ClipboardState)
    ensures c.dataObject.Some? && c.dataObject.value.Keys == {"FileDrop"}
    ensures c.dataObject.Some? && c.dataObject.value["FileDrop"] == FileList([path])
    ensures c.hasFileDropList && !c.containsImage && c.image.None?
    ensures !IsMemoryImage(c) && !Qualifies(c)
  {
    ClipboardState(false, None, true, Some(map["FileDrop" := FileList([path])]), false)
  }

  /** The clipboard after `Clipboard.Clear()` succeeded and `SetFileDropList` failed. */
  const EmptyClipboard: ClipboardState := ClipboardState(false, None, false, Some(map[]), false)

  lemma EmptyClipboardDoesNotQualify()
    ensures !Qualifies(EmptyClipboard)
  {
  }

  /**
   * A snapshot with a file-drop list never qualifies, whatever else it holds,
   * as long as the query itself does not fail.
   */
  lemma FileDropNeverQualifies(c: ClipboardState)
    requires !c.queryThrows && c.hasFileDropList
    ensures !IsMemoryImage(c) && !Qualifies(c)
  {
  }

  /**
   * Any file-indicating format present makes the snapshot a file copy, and
   * the probe reports the first such format in probing order.
   */
  lemma FileFormatDetected(c: ClipboardState, k: nat)
    requires !c.queryThrows && !c.hasFileDropList && c.dataObject.Some?
    requires k < |FileFormats| && FileFormats[k] in c.dataObject.value
    ensures !IsMemoryImage(c)
    ensures DetectedFileFormat(c).Some?
    ensures forall j :: 0 <= j < |FileFormats| && FileFormats[j] == DetectedFileFormat(c).value ==> j <= k
  {
    var r := FirstPresent(c.dataObject.value.Keys, FileFormats);
    assert r.Some?;
    assert r.value <= k;
    assert FileFormats[0] != FileFormats[1] && FileFormats[0] != FileFormats[2] && FileFormats[0] != FileFormats[3];
    assert FileFormats[1] != FileFormats[2] && FileFormats[1] != FileFormats[3] && FileFormats[2] != FileFormats[3];
  }
}
