/**
 * The diagnostic opacity scan `AnalyzeImagePixelData`: sample the first rows
 * of the image as BGRA32 bytes, count the pixels whose alpha byte is non-zero,
 * and warn when fewer than 1% of the sampled pixels are opaque.
 *
 * The sample buffer holds at most ten rows, but `CopyPixels(pixels, stride, 0)`
 * copies the whole bitmap and throws when the buffer is too small. So as
 * written the scan is lost for every image taller than ten rows
 * (`ScanAsWritten`); `PixelReport` is the intended scan of the first rows.
 */
module PixelScan {
  import opened Clipboard

  /** At most this many rows are sampled. */
  const SampleRows: nat := 10

  function Min(a: nat, b: nat): nat { if a <= b then a else b }

  /** Bytes in the sample buffer: a stride of `width * 4` times `min(10, height)` rows. */
  function SampleLength(img: Image): nat
  {
    img.width * 4 * Min(SampleRows, img.height)
  }

  /** A BGRA32 image holds exactly four bytes per pixel. */
  predicate WellFormed(img: Image)
  {
    |img.bgra| == img.width * img.height * 4
  }

  /** Bytes `CopyPixels(pixels, stride, 0)` writes: every row of the bitmap. */
  function FullLength(img: Image): nat
  {
    img.width * 4 * img.height
  }

  /** The sample never exceeds the bitmap, and falls short of it exactly for non-empty images taller than ten rows. */
  lemma SampleWithinImage(img: Image)
    ensures SampleLength(img) <= FullLength(img)
    ensures SampleLength(img) < FullLength(img) <==> img.width > 0 && img.height > SampleRows
  {
    var stride := img.width * 4;
    if img.height > SampleRows {
      assert SampleLength(img) == stride * SampleRows;
      assert FullLength(img) == stride * SampleRows + stride * (img.height - SampleRows);
      assert img.width > 0 ==> stride * (img.height - SampleRows) > 0;
    } else {
      assert SampleLength(img) == FullLength(img);
    }
  }

  /** Number of the first `n` pixels of `s` whose alpha byte (offset 3) is positive. */
  function OpaqueCount(s: seq<byte>, n: nat): (r: nat)
    requires 4 * n <= |s|
    ensures r <= n
  {
    if n == 0 then 0
    else OpaqueCount(s, n - 1) + (if s[4 * (n - 1) + 3] > 0 then 1 else 0)
  }

  /** Reference definition: the set of pixel indices below `n` whose alpha byte is positive. */
  function OpaquePixels(s: seq<byte>, n: nat): set<nat>
    requires 4 * n <= |s|
  {
    set k: nat | k < n && s[4 * k + 3] > 0
  }

  /** The counting loop counts exactly the opaque pixels. */
  lemma {:induction false} OpaqueCountIsCardinality(s: seq<byte>, n: nat)
    requires 4 * n <= |s|
    ensures OpaqueCount(s, n) == |OpaquePixels(s, n)|
  {
    if n == 0 {
      assert OpaquePixels(s, 0) == {};
    } else {
      OpaqueCountIsCardinality(s, n - 1);
      var k := n - 1;
      if s[4 * k + 3] > 0 {
        assert OpaquePixels(s, n) == OpaquePixels(s, k) + {k};
      } else {
        assert OpaquePixels(s, n) == OpaquePixels(s, k);
      }
    }
  }

  /** The outcome of the scan: counts and the warning, or failure to copy the pixels. */
  datatype ScanReport = Scanned(opaqueCount: nat, total: nat, warning: bool) | ScanFailed

  /** The integer form of `(double)opaque / total < 0.01`. */
  predicate MostlyTransparent(opaqueCount: nat, total: nat)
  {
    opaqueCount * 100 < total
  }

  /**
   * The intended scan: the first `min(10, height)` rows are sampled and counted.
   * It fails only for an image that holds fewer bytes than its own size says.
   */
  function PixelReport(img: Image): (r: ScanReport)
    ensures r.ScanFailed? <==> |img.bgra| < SampleLength(img)
    ensures WellFormed(img) ==> r.Scanned?
    ensures r.Scanned? ==> r.total == img.width * Min(SampleRows, img.height)
    ensures r.Scanned? ==> r.opaqueCount <= r.total
    ensures r.Scanned? ==> (r.warning <==> r.opaqueCount * 100 < r.total)
    ensures r.Scanned? ==> r.opaqueCount == |OpaquePixels(img.bgra[..SampleLength(img)], r.total)|
  {
    var total := img.width * Min(SampleRows, img.height);
    var n := SampleLength(img);
    assert n == 4 * total;
    SampleWithinImage(img);
    if |img.bgra| < n then ScanFailed
    else
      var opaqueCount := OpaqueCount(img.bgra[..n], total);
      OpaqueCountIsCardinality(img.bgra[..n], total);
      Scanned(opaqueCount, total, MostlyTransparent(opaqueCount, total))
  }

  /**
   * The scan as written: the buffer of `stride * min(10, height)` bytes is handed
   * to `CopyPixels(pixels, stride, 0)`, which throws into the catch unless the
   * buffer holds the whole bitmap; otherwise the whole image was sampled.
   */
  function ScanAsWritten(img: Image): (r: ScanReport)
    ensures WellFormed(img) ==> (r.ScanFailed? <==> img.width > 0 && img.height > SampleRows)
    ensures r.ScanFailed? <==> SampleLength(img) < FullLength(img) || |img.bgra| < SampleLength(img)
    ensures r.Scanned? ==> r == PixelReport(img) && r.total == img.width * img.height
  {
    SampleWithinImage(img);
    if SampleLength(img) < FullLength(img) then ScanFailed else PixelReport(img)
  }

  /**
   * For a non-empty image taller than ten rows the scan as written is lost,
   * whereas the intended scan samples its first ten rows.
   */
  lemma TallImagesLoseTheScan(img: Image)
    requires WellFormed(img) && img.width > 0 && img.height > SampleRows
    ensures ScanAsWritten(img) == ScanFailed
    ensures PixelReport(img).Scanned? && PixelReport(img).total == img.width * SampleRows
  {
  }

  /** Concretely: an opaque 1x11 image is reported as a failed scan instead of ten opaque pixels. */
  lemma OneByElevenLosesTheScan()
    ensures var img := Image(1, 11, Bgra32, seq(44, _ => 255 as byte));
      && WellFormed(img)
      && ScanAsWritten(img) == ScanFailed
      && PixelReport(img) == Scanned(10, 10, false)
  {
    var img := Image(1, 11, Bgra32, seq(44, _ => 255 as byte));
    FullyOpaqueNeverWarns(img.bgra[..40], 10);
  }

  /** Up to ten rows, the scan as written and the intended scan agree. */
  lemma ShortImagesScanAlike(img: Image)
    requires img.width == 0 || img.height <= SampleRows
    ensures ScanAsWritten(img) == PixelReport(img)
  {
    SampleWithinImage(img);
  }

  /**
   * `AnalyzeImagePixelData`: the sample buffer of `stride * min(10, height)`
   * bytes is allocated and filled by `CopyPixels`, which throws when the buffer
   * cannot hold every row (or the image holds too few bytes); then a loop steps
   * over it four bytes at a time counting positive alphas.
   */
  method AnalyzeImagePixelData(img: Image) returns (r: ScanReport)
    ensures r == ScanAsWritten(img)
    ensures r.Scanned? ==> r.opaqueCount == |OpaquePixels(img.bgra[..SampleLength(img)], r.total)|
  {
    var stride := img.width * 4;
    var n := stride * Min(SampleRows, img.height);
    if n < stride * img.height || |img.bgra| < n {
      return ScanFailed;
    }
    var pixels := new byte[n](i => if 0 <= i < |img.bgra| then img.bgra[i] else 0);
    assert pixels[..] == img.bgra[..n];
    assert n == 4 * (img.width * Min(SampleRows, img.height));
    var total := pixels.Length / 4;
    var opaqueCount := 0;
    var i := 0;
    ghost var k := 0;
    while i < pixels.Length
      invariant 0 <= k <= total && i == 4 * k
      invariant pixels[..] == img.bgra[..n]
      invariant opaqueCount == OpaqueCount(pixels[..], k)
    {
      var alpha := pixels[i + 3];
      if alpha > 0 {
        opaqueCount := opaqueCount + 1;
      }
      i := i + 4;
      k := k + 1;
    }
    OpaqueCountIsCardinality(pixels[..], total);
    r := Scanned(opaqueCount, total, MostlyTransparent(opaqueCount, total));
  }

  /** A sample with no opaque pixel warns exactly when something was sampled. */
  lemma {:induction false} FullyTransparentWarns(s: seq<byte>, n: nat)
    requires 4 * n <= |s|
    requires forall k :: 0 <= k < n ==> s[4 * k + 3] == 0
    ensures OpaqueCount(s, n) == 0
    ensures MostlyTransparent(OpaqueCount(s, n), n) <==> n > 0
  {
    if n > 0 {
      FullyTransparentWarns(s, n - 1);
    }
  }

  /** A sample whose pixels are all opaque never warns. */
  lemma {:induction false} FullyOpaqueNeverWarns(s: seq<byte>, n: nat)
    requires 4 * n <= |s|
    requires forall k :: 0 <= k < n ==> s[4 * k + 3] > 0
    ensures OpaqueCount(s, n) == n
    ensures !MostlyTransparent(OpaqueCount(s, n), n)
  {
    if n > 0 {
      FullyOpaqueNeverWarns(s, n - 1);
    }
  }

  /** An image with no pixel rows or columns is scanned, samples nothing, and does not warn. */
  lemma EmptySampleNeverWarns(img: Image)
    requires img.width == 0 || img.height == 0
    ensures PixelReport(img) == Scanned(0, 0, false)
  {
  }
}
