/**
 * `SaveImageWithCompatibility` and the strategies it tries in order:
 * the clipboard's own PNG stream, then its DIB data (`TrySaveFromClipboardData`),
 * then a `System.Drawing.Bitmap` or `Bitmap` clipboard format
 * (`TryAlternativeClipboardAccess`), then the standard PNG encode of the
 * pending image after `ConvertToCompatibleFormat`, then the draw-through fallback.
 *
 * Every call into an image library is an oracle: `failing` is the set of
 * those calls that throw for this capture.
 */
module SaveChain {
  import opened Clipboard

  /** The foreign image operations the chain may call. */
  datatype Step =
    | PngCopy            // copy of the clipboard "PNG" stream into the file
    | DibDecode          // GDI+ decode of the DIB data and its PNG save
    | DrawingSave        // Save of a System.Drawing.Bitmap found under "System.Drawing.Bitmap"
    | BitmapDrawingSave  // Save of a System.Drawing.Bitmap found under "Bitmap"
    | BitmapWpfDraw      // SaveImageUsingDrawing of a BitmapSource found under "Bitmap"
    | FormatConversion   // FormatConvertedBitmap to BGRA32
    | StandardEncode     // PngBitmapEncoder on the converted pending image
    | DrawThrough        // SaveImageUsingDrawing of the pending image

  /** How a successful save wrote the file. */
  datatype Strategy =
    | ClipboardPng                 // PNG stream copied verbatim
    | ClipboardDib(format: string) // DIB data decoded and re-encoded
    | DrawingBitmapFormat          // "System.Drawing.Bitmap" saved as PNG
    | BitmapFormatDrawing          // "Bitmap" holding a System.Drawing.Bitmap
    | BitmapFormatWpf(source: Image) // "Bitmap" holding a BitmapSource, drawn through
    | StandardPng(encoded: Image)  // standard encode of the converted pending image
    | Fallback(drawn: Image)       // draw-through of the pending image

  datatype SaveResult = Saved(strategy: Strategy) | AllFailed

  /** How `SaveFromDIBData` reads the DIB payload. */
  datatype DibRead =
    | DecodeStream(from: nat)   // GDI+ reads the stream from this position
    | DecodeBytes(count: nat)   // GDI+ reads this many bytes from a MemoryStream over the array
    | LengthUnavailable         // a non-seekable stream: reading Length throws, caught as false
    | EmptyData                 // zero-length stream or array
    | Unsupported               // any other payload type

  /**
   * The dispatch of `SaveFromDIBData`. A seekable stream is rewound to 0 before
   * decoding; the later `MemoryStream` branch cannot be reached because a
   * `MemoryStream` is already a `Stream`.
   */
  function DibPlan(d: Payload): (r: DibRead)
    ensures r.DecodeStream? ==> d.StreamData? && d.canSeek && d.length > 0 && r.from == 0
    ensures r.DecodeBytes? ==> d.ByteArray? && r.count == |d.bytes| > 0
    ensures r.EmptyData? <==> (d.StreamData? && d.canSeek && d.length == 0) || (d.ByteArray? && d.bytes == [])
    ensures r.Unsupported? <==> !d.StreamData? && !d.ByteArray?
    ensures r == DecodeStream(0) <==> d.StreamData? && d.canSeek && d.length > 0
    ensures r.DecodeBytes? <==> d.ByteArray? && |d.bytes| > 0
    ensures r.LengthUnavailable? <==> d.StreamData? && !d.canSeek
  {
    match d
    case StreamData(length, position, canSeek) =>
      if !canSeek then LengthUnavailable
      else if length > 0 then DecodeStream(0)
      else EmptyData
    case ByteArray(bytes) =>
      if |bytes| > 0 then DecodeBytes(|bytes|) else EmptyData
    case _ => Unsupported
  }

  /** `SaveFromDIBData`: true exactly when there is data to decode and the decode-and-save succeeds. */
  function SaveFromDibData(d: Payload, failing: set<Step>): (ok: bool)
    ensures ok <==> (DibPlan(d).DecodeStream? || DibPlan(d).DecodeBytes?) && DibDecode !in failing
  {
    match DibPlan(d)
    case DecodeStream(_) => DibDecode !in failing
    case DecodeBytes(_) => DibDecode !in failing
    case _ => false
  }

  /** The DIB format name that is read: "DeviceIndependentBitmap" when present, else "DIB". */
  function DibFormat(data: map<string, Payload>): string
  {
    if "DeviceIndependentBitmap" in data then "DeviceIndependentBitmap" else "DIB"
  }

  /** "PNG" is present and `GetData("PNG") as Stream` is non-null. */
  predicate HasPngStream(data: map<string, Payload>)
  {
    "PNG" in data && data["PNG"].StreamData?
  }

  /**
   * `TrySaveFromClipboardData`: the PNG stream is copied when there is one;
   * otherwise the DIB data is handed to `SaveFromDIBData`. A failing PNG copy
   * throws inside this method's own `try`, which returns false: the DIB data
   * is then not tried.
   */
  function TrySaveFromClipboardData(c: ClipboardState, failing: set<Step>): (r: Option<Strategy>)
    ensures r.Some? ==> r.value == ClipboardPng || r.value.ClipboardDib?
    ensures r == Some(ClipboardPng) <==> c.dataObject.Some? && HasPngStream(c.dataObject.value) && PngCopy !in failing
    ensures r.Some? && r.value.ClipboardDib? ==>
      c.dataObject.Some? &&
      var data := c.dataObject.value;
      && !HasPngStream(data)
      && r.value.format == DibFormat(data) && r.value.format in data
      && SaveFromDibData(data[r.value.format], failing)
    ensures c.dataObject.Some? ==>
      var data := c.dataObject.value;
      (!HasPngStream(data) && ("DeviceIndependentBitmap" in data || "DIB" in data) &&
       SaveFromDibData(data[DibFormat(data)], failing)) ==> r == Some(ClipboardDib(DibFormat(data)))
  {
    match c.dataObject
    case None => None
    case Some(data) =>
      if HasPngStream(data) then
        if PngCopy in failing then None else Some(ClipboardPng)
      else if "DeviceIndependentBitmap" in data || "DIB" in data then
        var format := DibFormat(data);
        var dib := data[format];
        if dib.NullData? then None
        else if SaveFromDibData(dib, failing) then Some(ClipboardDib(format))
        else None
      else None
  }

  /**
   * `TryAlternativeClipboardAccess`: a `System.Drawing.Bitmap` object under the
   * "System.Drawing.Bitmap" format is saved; otherwise the "Bitmap" format is
   * saved when it holds a System.Drawing bitmap or a BitmapSource. A failing
   * save throws into this method's own `try`, which returns false.
   */
  function TryAlternativeClipboardAccess(c: ClipboardState, failing: set<Step>): (r: Option<Strategy>)
    ensures r.Some? ==> r.value in {DrawingBitmapFormat, BitmapFormatDrawing} || r.value.BitmapFormatWpf?
    ensures r == Some(DrawingBitmapFormat) <==>
      c.dataObject.Some? && "System.Drawing.Bitmap" in c.dataObject.value &&
      c.dataObject.value["System.Drawing.Bitmap"].DrawingBitmap? && DrawingSave !in failing
    ensures r.Some? && r.value != DrawingBitmapFormat ==>
      c.dataObject.Some? &&
      var data := c.dataObject.value;
      && !("System.Drawing.Bitmap" in data && data["System.Drawing.Bitmap"].DrawingBitmap?)
      && "Bitmap" in data
      && (r.value == BitmapFormatDrawing ==> data["Bitmap"].DrawingBitmap? && BitmapDrawingSave !in failing)
      && (r.value.BitmapFormatWpf? ==> data["Bitmap"] == WpfBitmap(r.value.source) && BitmapWpfDraw !in failing)
    ensures c.dataObject.Some? ==>
      var data := c.dataObject.value;
      (!("System.Drawing.Bitmap" in data && data["System.Drawing.Bitmap"].DrawingBitmap?) &&
       "Bitmap" in data && data["Bitmap"].DrawingBitmap? && BitmapDrawingSave !in failing)
      ==> r == Some(BitmapFormatDrawing)
    ensures c.dataObject.Some? ==>
      var data := c.dataObject.value;
      (!("System.Drawing.Bitmap" in data && data["System.Drawing.Bitmap"].DrawingBitmap?) &&
       "Bitmap" in data && data["Bitmap"].WpfBitmap? && BitmapWpfDraw !in failing)
      ==> r == Some(BitmapFormatWpf(data["Bitmap"].image))
  {
    match c.dataObject
    case None => None
    case Some(data) =>
      if "System.Drawing.Bitmap" in data && data["System.Drawing.Bitmap"].DrawingBitmap? then
        if DrawingSave in failing then None else Some(DrawingBitmapFormat)
      else if "Bitmap" in data then
        match data["Bitmap"]
        case DrawingBitmap(_) => if BitmapDrawingSave in failing then None else Some(BitmapFormatDrawing)
        case WpfBitmap(source) => if BitmapWpfDraw in failing then None else Some(BitmapFormatWpf(source))
        case _ => None
      else None
  }

  /** The formats the encoder takes as they are. */
  predicate IsCompatible(f: PixelFormat)
  {
    f == Bgra32 || f == Bgr32 || f == Pbgra32
  }

  /**
   * `ConvertToCompatibleFormat`: the image itself when its format is already
   * BGRA32, BGR32 or PBGRA32; otherwise the same pixels in BGRA32, or the
   * image itself when the conversion throws.
   */
  function ConvertToCompatibleFormat(img: Image, failing: set<Step>): (r: Image)
    ensures IsCompatible(img.format) ==> r == img
    ensures IsCompatible(r.format) || (FormatConversion in failing && r == img)
    ensures r.format != img.format ==> r.format == Bgra32
    ensures r.width == img.width && r.height == img.height && r.bgra == img.bgra
    ensures !IsCompatible(img.format) && FormatConversion in failing ==> r == img
    ensures !IsCompatible(img.format) && FormatConversion !in failing ==> r == img.(format := Bgra32)
  {
    if IsCompatible(img.format) then img
    else if FormatConversion in failing then img
    else img.(format := Bgra32)
  }

  /** Converting an already converted image changes nothing. */
  lemma ConvertIsIdempotent(img: Image, failing: set<Step>)
    ensures ConvertToCompatibleFormat(ConvertToCompatibleFormat(img, failing), failing) ==
            ConvertToCompatibleFormat(img, failing)
  {
  }

  /**
   * `SaveImageWithCompatibility` after its diagnostic pixel scan: the first
   * strategy that succeeds writes the file. A clipboard-data result wins,
   * then an alternative-access result; the encodes of the pending image are
   * reached only when both clipboard methods declined, and the draw-through
   * only after the standard encode failed. `AllFailed` is the exception it
   * rethrows, exactly when the last two strategies throw as well.
   */
  function SaveImageWithCompatibility(img: Image, c: ClipboardState, failing: set<Step>): (r: SaveResult)
    ensures TrySaveFromClipboardData(c, failing).Some? ==> r == Saved(TrySaveFromClipboardData(c, failing).value)
    ensures TrySaveFromClipboardData(c, failing).None? && TryAlternativeClipboardAccess(c, failing).Some? ==>
              r == Saved(TryAlternativeClipboardAccess(c, failing).value)
    ensures r.Saved? && Rank(r.strategy) <= 2 ==> TrySaveFromClipboardData(c, failing) == Some(r.strategy)
    ensures r.Saved? && 3 <= Rank(r.strategy) <= 4 ==> TryAlternativeClipboardAccess(c, failing) == Some(r.strategy)
    ensures (TrySaveFromClipboardData(c, failing).None? && TryAlternativeClipboardAccess(c, failing).None? &&
             StandardEncode !in failing) ==> r == Saved(StandardPng(ConvertToCompatibleFormat(img, failing)))
    ensures r.Saved? && Rank(r.strategy) >= 3 ==> TrySaveFromClipboardData(c, failing).None?
    ensures r.Saved? && Rank(r.strategy) >= 5 ==> TryAlternativeClipboardAccess(c, failing).None?
    ensures r.Saved? && r.strategy.Fallback? ==> StandardEncode in failing && r.strategy.drawn == img
    ensures r.Saved? && r.strategy.StandardPng? ==>
              StandardEncode !in failing && r.strategy.encoded == ConvertToCompatibleFormat(img, failing)
    ensures r.AllFailed? <==>
              && TrySaveFromClipboardData(c, failing).None?
              && TryAlternativeClipboardAccess(c, failing).None?
              && StandardEncode in failing && DrawThrough in failing
  {
    match TrySaveFromClipboardData(c, failing)
    case Some(s) => Saved(s)
    case None =>
      match TryAlternativeClipboardAccess(c, failing)
      case Some(s) => Saved(s)
      case None =>
        if StandardEncode !in failing then Saved(StandardPng(ConvertToCompatibleFormat(img, failing)))
        else if DrawThrough !in failing then Saved(Fallback(img))
        else AllFailed
  }

  /** The position of a strategy in the chain, from 1 (tried first) to 6. */
  function Rank(s: Strategy): nat
  {
    match s
    case ClipboardPng => 1
    case ClipboardDib(_) => 2
    case DrawingBitmapFormat => 3
    case BitmapFormatDrawing => 4
    case BitmapFormatWpf(_) => 4
    case StandardPng(_) => 5
    case Fallback(_) => 6
  }

  /** A PNG stream on the clipboard that copies without error is saved verbatim, whatever else is there. */
  lemma PngStreamPreferred(img: Image, c: ClipboardState, failing: set<Step>)
    requires c.dataObject.Some? && HasPngStream(c.dataObject.value) && PngCopy !in failing
    ensures SaveImageWithCompatibility(img, c, failing) == Saved(ClipboardPng)
  {
  }

  /**
   * With a PNG stream present, the DIB data is never used, even when the copy
   * of the PNG stream fails: the chain moves on to the bitmap formats.
   */
  lemma FailedPngCopySkipsDib(img: Image, c: ClipboardState, failing: set<Step>)
    requires c.dataObject.Some? && HasPngStream(c.dataObject.value) && PngCopy in failing
    ensures TrySaveFromClipboardData(c, failing).None?
    ensures var r := SaveImageWithCompatibility(img, c, failing);
      r.Saved? ==> Rank(r.strategy) >= 3
  {
  }

  /** When both DIB format names are present, "DeviceIndependentBitmap" is the one decoded. */
  lemma DeviceIndependentBitmapPreferred(c: ClipboardState, failing: set<Step>)
    requires c.dataObject.Some? && "DeviceIndependentBitmap" in c.dataObject.value && "DIB" in c.dataObject.value
    requires TrySaveFromClipboardData(c, failing).Some?
    requires TrySaveFromClipboardData(c, failing).value.ClipboardDib?
    ensures TrySaveFromClipboardData(c, failing).value.format == "DeviceIndependentBitmap"
  {
  }

  /**
   * Fallthrough to the last resort: when every clipboard strategy declines and
   * the standard encode fails, a working draw-through saves the pending image.
   */
  lemma DrawThroughIsLastResort(img: Image, c: ClipboardState, failing: set<Step>)
    requires TrySaveFromClipboardData(c, failing).None? && TryAlternativeClipboardAccess(c, failing).None?
    requires StandardEncode in failing && DrawThrough !in failing
    ensures SaveImageWithCompatibility(img, c, failing) == Saved(Fallback(img))
  {
  }

  /** The standard encode always gets a 32-bit image when the conversion works. */
  lemma StandardEncodeIsCompatible(img: Image, c: ClipboardState, failing: set<Step>)
    requires FormatConversion !in failing
    requires SaveImageWithCompatibility(img, c, failing).Saved?
    requires SaveImageWithCompatibility(img, c, failing).strategy.StandardPng?
    ensures IsCompatible(SaveImageWithCompatibility(img, c, failing).strategy.encoded.format)
  {
  }

  /** Fewer failing library calls never turn a successful save into a failure. */
  lemma FewerFailuresStillSave(img: Image, c: ClipboardState, failing: set<Step>, fewer: set<Step>)
    requires fewer <= failing
    requires SaveImageWithCompatibility(img, c, failing).Saved?
    ensures SaveImageWithCompatibility(img, c, fewer).Saved?
  {
    if TrySaveFromClipboardData(c, fewer).None? {
      assert TrySaveFromClipboardData(c, failing).None?;
      if TryAlternativeClipboardAccess(c, fewer).None? {
        assert TryAlternativeClipboardAccess(c, failing).None?;
      }
    }
  }
}
