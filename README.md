# Clipboard Image Watcher: the capture pipeline

Clipboard Image Watcher is a Windows tray application. When a screenshot or
another in-memory image lands on the clipboard, it waits 500 ms for the
screenshot tool to finish. It then saves the image as
`capture_yyyyMMddHHmmssfff.png` in its own directory and replaces the
clipboard's bitmap with a file-drop reference to the saved file. At most
three captures are kept. Captures older than one hour are swept every five
minutes and at start-up, and every capture is deleted when the user exits.

This project models the core of `MainWindow` in Dafny and proves properties of
that model. The modules are:

- `Clipboard` is one snapshot of the clipboard, as seen through the queries
  the watcher makes:
  - `ContainsImage`, `GetImage` and `ContainsFileDropList`;
  - the data object's formats and what `GetData` returns for each;
  - whether querying throws.

  `IsMemoryImage` decides whether an image was copied from a file.
- `PixelScan` is the diagnostic opacity scan `AnalyzeImagePixelData`. It is
  a method over a byte array, proved against the function `ScanAsWritten`.
  As written, the scan is lost for every image taller than ten rows; see
  "## Findings".
- `SaveChain` is `SaveImageWithCompatibility`, which tries six stages in a
  fixed order:
  - the clipboard's PNG stream, then its DIB data (`TrySaveFromClipboardData`,
    which calls `SaveFromDIBData`);
  - a "System.Drawing.Bitmap" object, then the "Bitmap" format
    (`TryAlternativeClipboardAccess`);
  - the standard PNG encode of the pending image after
    `ConvertToCompatibleFormat`;
  - the draw-through fallback `SaveImageUsingDrawing`.
  - Each call into an image library is an oracle: the set `failing` names
    the library calls that throw for this capture.
  - The clipboard strategies read the clipboard as it is when the timer
    fires, which is the last notification of the burst; that may be a
    notification that did not qualify (a file copy that also carries PNG or
    DIB data). The saved file then need not hold the pending image.
- `CaptureStore` is the storage directory.
  - The directory is a sequence of `(name, creation time)` entries with
    unique names, in the order the OS lists them.
  - `GetCapturedFiles` keeps the names matching `capture_*.png` and sorts
    them stably by creation time (`ListingIsStable`).
  - The class `CaptureFolder` owns the directory. Its methods
    `CleanupAndMakeSpace`, `CleanupOldFiles` and `CleanupAllCachedImages`
    delete files one at a time, in loops. Each is proved to produce the
    directory that a pure function describes (`MakeSpace`, `SweepExpired`,
    `PurgeAll`).
  - `File.Delete` raising `IOException` is an oracle, the set `locked`.
- `CaptureNaming` builds the file name from the local time, zero-padded
  field by field. It proves that the name can be read back.
- `Watcher` is the debounce state machine of `OnClipboardChanged` and
  `ProcessPendingImage`, and the start-up and exit paths.
  - The pure functions `OnChange` and `Process` describe each transition on
    a `Pipeline`. A `Pipeline` holds the clipboard, the pending image, the
    processing timer and the directory.
  - The class `ImageWatcher` holds the mutable fields. Each of its methods
    is proved to perform its transition.
  - A ghost `history` records the observable actions in order: making
    space, the save attempt, the pixel scan, the outcome, and the clipboard
    rewrite.

The code of `TrySaveFromClipboardData` and `TryAlternativeClipboardAccess`
catches any exception in its own `try` and returns false. So when a PNG
stream is present but copying it throws, the DIB formats are not tried at
all. Likewise, a "System.Drawing.Bitmap" whose save throws means the
"Bitmap" format is not tried. One might expect each format to be tried
in turn; the code does not, and the model follows the code
(`FailedPngCopySkipsDib`).

## Model

All source lines are in `ClipboardImageWatcher/MainWindow.xaml.cs`.

| member | source | states |
|---|---|---|
| Clipboard.FirstPresent | ClipboardImageWatcher/MainWindow.xaml.cs:169-176 | the index found is the first candidate format present, and no earlier one is; none is found exactly when no candidate is present |
| Clipboard.DetectedFileFormat | ClipboardImageWatcher/MainWindow.xaml.cs:162-176 | a format is reported exactly when one of the four file-based formats is present, and the one reported is among them and present |
| Clipboard.IsMemoryImage | ClipboardImageWatcher/MainWindow.xaml.cs:146-188 | the image counts as in-memory exactly when a clipboard query throws, or there is no file-drop list and none of the four file formats is present |
| Clipboard.FileFormatDetected | ClipboardImageWatcher/MainWindow.xaml.cs:162-176 | any one of the four file formats being present rejects the image as file-based, and the format reported comes no later in probing order than that one |
| Clipboard.FileDropClipboard | ClipboardImageWatcher/MainWindow.xaml.cs:63-81 | the clipboard after `Clear` and `SetFileDropList` has exactly one format, a file-drop list whose only path is the saved file, and no image; so `IsMemoryImage` rejects it and it never schedules a capture |
| Clipboard.Qualifies | ClipboardImageWatcher/MainWindow.xaml.cs:549-553 | a notification schedules a capture exactly when the clipboard holds an image and, unless the classification query throws, nothing on it originates from a file (see also `FileDropNeverQualifies` and `DebounceLastWins`) |
| Clipboard.FileDropNeverQualifies | ClipboardImageWatcher/MainWindow.xaml.cs:152-155 | a clipboard with a file-drop list never schedules a capture unless querying throws |
| Clipboard.EmptyClipboardDoesNotQualify | ClipboardImageWatcher/MainWindow.xaml.cs:72-80 | an empty clipboard (a `Clear` whose `SetFileDropList` then threw) schedules nothing |
| PixelScan.OpaqueCount | ClipboardImageWatcher/MainWindow.xaml.cs:596-603 | the count of positive alpha bytes among the first `n` pixels never exceeds `n` |
| PixelScan.OpaqueCountIsCardinality | ClipboardImageWatcher/MainWindow.xaml.cs:596-603 | the count equals the size of the set of pixel indices whose alpha byte is positive |
| PixelScan.SampleWithinImage | ClipboardImageWatcher/MainWindow.xaml.cs:588-591 | the buffer of `stride*min(10,height)` bytes never exceeds the bitmap, and is smaller than it exactly for a non-empty image taller than ten rows |
| PixelScan.PixelReport | ClipboardImageWatcher/MainWindow.xaml.cs:587-611 | the intended scan of the first rows: it succeeds on every well-formed image; total is `width*min(10,height)`, the opaque count is at most total, the opaque count is the number of opaque pixels among those sampled, and the warning is raised exactly when fewer than 1% are opaque |
| PixelScan.ScanAsWritten | ClipboardImageWatcher/MainWindow.xaml.cs:588-616 | the scan as written: on a well-formed image it fails exactly when the width is positive and the height exceeds ten, because `CopyPixels` needs room for every row; otherwise it sampled the whole image and agrees with `PixelReport` |
| PixelScan.TallImagesLoseTheScan | ClipboardImageWatcher/MainWindow.xaml.cs:589-591 | for every well-formed non-empty image taller than ten rows, the scan as written fails, while the intended scan samples ten rows |
| PixelScan.OneByElevenLosesTheScan | ClipboardImageWatcher/MainWindow.xaml.cs:589-591 | an opaque 1x11 image is reported as a failed scan instead of ten opaque pixels |
| PixelScan.ShortImagesScanAlike | ClipboardImageWatcher/MainWindow.xaml.cs:589-591 | up to ten rows, or at width zero, the scan as written and the intended scan agree |
| PixelScan.AnalyzeImagePixelData | ClipboardImageWatcher/MainWindow.xaml.cs:580-617 | allocating the buffer, the throwing `CopyPixels`, and the loop over the buffer four bytes at a time together produce `ScanAsWritten`, and the count is the number of opaque pixels |
| PixelScan.FullyTransparentWarns | ClipboardImageWatcher/MainWindow.xaml.cs:605-610 | a sample with every alpha zero counts nothing and warns exactly when something was sampled |
| PixelScan.FullyOpaqueNeverWarns | ClipboardImageWatcher/MainWindow.xaml.cs:605-610 | a sample with every alpha positive counts every pixel and never warns |
| PixelScan.EmptySampleNeverWarns | ClipboardImageWatcher/MainWindow.xaml.cs:586-610 | the intended scan of an image of zero width or height samples nothing and does not warn; a real `BitmapSource` is never that small, so this is a boundary of the model rather than a case the program meets |
| SaveChain.DibPlan | ClipboardImageWatcher/MainWindow.xaml.cs:361-446 | each case holds exactly when: a seekable non-empty stream is decoded from position 0; a non-empty byte array is decoded in full; a non-seekable stream fails on reading `Length`; an empty seekable stream or empty array is empty data; any other payload is unsupported |
| SaveChain.SaveFromDibData | ClipboardImageWatcher/MainWindow.xaml.cs:361-446 | true exactly when there is DIB data to decode and the GDI+ decode and save do not throw |
| SaveChain.TrySaveFromClipboardData | ClipboardImageWatcher/MainWindow.xaml.cs:318-359 | the PNG stream is used exactly when present and its copy works; the DIB data is used exactly when there is no PNG stream, a DIB name is present, and `SaveFromDIBData` succeeds on the data under "DeviceIndependentBitmap" when present, else "DIB" |
| SaveChain.TryAlternativeClipboardAccess | ClipboardImageWatcher/MainWindow.xaml.cs:266-316 | "System.Drawing.Bitmap" is saved exactly when it holds a drawing bitmap whose save works; otherwise "Bitmap" is saved exactly when it holds a drawing bitmap or a BitmapSource and the matching save works, and the BitmapSource is the one drawn |
| SaveChain.ConvertToCompatibleFormat | ClipboardImageWatcher/MainWindow.xaml.cs:448-475 | a BGRA32, BGR32 or PBGRA32 image comes back unchanged; any other becomes BGRA32 with the same size and pixels, unless the conversion throws, which returns the image unchanged |
| SaveChain.ConvertIsIdempotent | ClipboardImageWatcher/MainWindow.xaml.cs:453-458 | converting a converted image changes nothing |
| SaveChain.SaveImageWithCompatibility | ClipboardImageWatcher/MainWindow.xaml.cs:190-264 | the first strategy that succeeds is the one used: a clipboard-data result is saved, else an alternative-access result, else the standard encode of the converted image when it works; a PNG or DIB save comes only from `TrySaveFromClipboardData` and a bitmap-format save only from `TryAlternativeClipboardAccess`; later strategies run only when earlier ones declined; the draw-through writes the pending image and runs only after the standard encode failed; the chain rethrows exactly when both clipboard methods decline and both the standard encode and the draw-through throw |
| SaveChain.PngStreamPreferred | ClipboardImageWatcher/MainWindow.xaml.cs:325-337 | a PNG stream that copies cleanly is what gets saved, whatever else is on the clipboard |
| SaveChain.FailedPngCopySkipsDib | ClipboardImageWatcher/MainWindow.xaml.cs:326-358 | when copying the PNG stream throws, `TrySaveFromClipboardData` declines without trying the DIB data, and neither PNG nor DIB is used |
| SaveChain.DeviceIndependentBitmapPreferred | ClipboardImageWatcher/MainWindow.xaml.cs:343 | with both DIB names present, "DeviceIndependentBitmap" is the one decoded |
| SaveChain.DrawThroughIsLastResort | ClipboardImageWatcher/MainWindow.xaml.cs:246-256 | when every earlier strategy declined or threw and the draw-through works, the pending image is drawn through |
| SaveChain.StandardEncodeIsCompatible | ClipboardImageWatcher/MainWindow.xaml.cs:236-238 | the standard encoder always receives a 32-bit format when the conversion works |
| SaveChain.FewerFailuresStillSave | ClipboardImageWatcher/MainWindow.xaml.cs:190-264 | making fewer library calls fail never turns a save into a failure |
| CaptureNaming.Digits | ClipboardImageWatcher/MainWindow.xaml.cs:675 | a zero-padded field is exactly `w` decimal digits |
| CaptureNaming.DigitsRoundTrip | ClipboardImageWatcher/MainWindow.xaml.cs:675 | reading a zero-padded field back gives the number when it fits its width |
| CaptureNaming.CaptureFileName | ClipboardImageWatcher/MainWindow.xaml.cs:675 | the file name is 29 characters and matches `capture_*.png`, so the listing finds it |
| CaptureNaming.StampText | ClipboardImageWatcher/MainWindow.xaml.cs:675 | the `yyyyMMddHHmmssfff` stamp is 17 characters; that each is a digit and each field reads back is `StampTextFields` |
| CaptureNaming.StampTextFields | ClipboardImageWatcher/MainWindow.xaml.cs:675 | every character of `yyyyMMddHHmmssfff` is a digit, and each field read back gives the year, month, day, hour, minute, second and millisecond |
| CaptureNaming.CaptureFileNameInjective | ClipboardImageWatcher/MainWindow.xaml.cs:675 | two different valid times never give the same file name |
| CaptureStore.Captures | ClipboardImageWatcher/MainWindow.xaml.cs:743 | the glob keeps exactly the entries whose names match `capture_*.png` |
| CaptureStore.CapturesCountEach | ClipboardImageWatcher/MainWindow.xaml.cs:743 | every matching entry is listed exactly as often as the directory holds it, and no other entry is listed |
| CaptureStore.InsertByCreation | ClipboardImageWatcher/MainWindow.xaml.cs:744 | inserting one entry adds exactly that entry |
| CaptureStore.InsertKeepsSorted | ClipboardImageWatcher/MainWindow.xaml.cs:744 | inserting into a list sorted by creation time keeps it sorted |
| CaptureStore.SortByCreation | ClipboardImageWatcher/MainWindow.xaml.cs:744 | `OrderBy(CreationTime)` gives a permutation sorted by creation time |
| CaptureStore.GetCapturedFiles | ClipboardImageWatcher/MainWindow.xaml.cs:740-745 | the listing is a permutation of the matching files, sorted by creation time, holding exactly the capture files of the directory |
| CaptureStore.InsertIsStable | ClipboardImageWatcher/MainWindow.xaml.cs:743-744 | inserting an entry places it ahead of every entry created at the same time and keeps the order of all others |
| CaptureStore.SortIsStable | ClipboardImageWatcher/MainWindow.xaml.cs:743-744 | the sort by creation time keeps the relative order of entries created at the same time |
| CaptureStore.ListingIsStable | ClipboardImageWatcher/MainWindow.xaml.cs:743-744 | captures created at the same time are listed in directory order, which decides `First()` on a tie |
| CaptureStore.FirstListedIsOldest | ClipboardImageWatcher/MainWindow.xaml.cs:706 | `First()` of the listing is a capture file no younger than any other |
| CaptureStore.Without | ClipboardImageWatcher/MainWindow.xaml.cs:709 | deleting a set of names removes exactly the entries with those names |
| CaptureStore.WithoutKeepsFewerCaptures | ClipboardImageWatcher/MainWindow.xaml.cs:724-737 | deleting files never adds to the number of captures listed |
| CaptureStore.MakeSpaceEvictsOldest | ClipboardImageWatcher/MainWindow.xaml.cs:701-717 | with three or more captures and the oldest deletable, exactly the oldest is removed and one capture fewer is listed |
| CaptureStore.MakeSpaceOtherwiseUnchanged | ClipboardImageWatcher/MainWindow.xaml.cs:701-717 | with fewer than three captures, or the oldest locked, the directory is unchanged |
| CaptureStore.SaveKeepsBound | ClipboardImageWatcher/MainWindow.xaml.cs:673-676 | making space and then writing a new capture keeps at most three captures, when there were at most three and the oldest could be deleted |
| CaptureStore.SweepExact | ClipboardImageWatcher/MainWindow.xaml.cs:719-738 | after the sweep, a file is gone exactly when it is a capture older than one hour that was not locked |
| CaptureStore.SweepLeavesNoExpired | ClipboardImageWatcher/MainWindow.xaml.cs:726 | after the sweep, every capture still listed is at most one hour old or was locked |
| CaptureStore.SweepIdempotent | ClipboardImageWatcher/MainWindow.xaml.cs:719-738 | sweeping twice at the same time is the same as sweeping once |
| CaptureStore.PurgeExact | ClipboardImageWatcher/MainWindow.xaml.cs:760-783 | after the purge, exactly the locked captures and the other files remain |
| CaptureStore.PurgeEmptiesListing | ClipboardImageWatcher/MainWindow.xaml.cs:760-783 | with nothing locked, the purge leaves no capture listed |
| CaptureStore.IsCaptureName | ClipboardImageWatcher/MainWindow.xaml.cs:743 | a name matches `capture_*.png` exactly when it is `capture_`, then any text, then `.png` |
| CaptureStore.WriteFileUnique | ClipboardImageWatcher/MainWindow.xaml.cs:676 | writing a file keeps the directory's names unique, whether the file was new or overwritten |
| CaptureStore.WriteFileListed | ClipboardImageWatcher/MainWindow.xaml.cs:676 | the written capture is listed afterwards, and the listing grows by at most one |
| CaptureStore.CaptureFolder.Delete | ClipboardImageWatcher/MainWindow.xaml.cs:709-715 | `File.Delete` removes the named entry unless the file is locked, which the caller catches and ignores; it reports which happened |
| CaptureStore.CaptureFolder.CleanupAndMakeSpace | ClipboardImageWatcher/MainWindow.xaml.cs:701-717 | the directory becomes `MakeSpace` of the old directory |
| CaptureStore.CaptureFolder.CleanupOldFiles | ClipboardImageWatcher/MainWindow.xaml.cs:719-738 | the deletion loop over the listing leaves exactly `SweepExpired` of the old directory |
| CaptureStore.CaptureFolder.DeleteExpired | ClipboardImageWatcher/MainWindow.xaml.cs:724-737 | looping over a listing deletes exactly its expired, unlocked names |
| CaptureStore.CaptureFolder.SweepStep | ClipboardImageWatcher/MainWindow.xaml.cs:726-736 | one iteration deletes the file exactly when it is expired and not locked |
| CaptureStore.CaptureFolder.CleanupAllCachedImages | ClipboardImageWatcher/MainWindow.xaml.cs:760-783 | the deletion loop leaves exactly `PurgeAll` of the old directory |
| CaptureStore.CaptureFolder.DeleteListed | ClipboardImageWatcher/MainWindow.xaml.cs:765-776 | looping over a listing deletes exactly its unlocked names |
| CaptureStore.CaptureFolder.PurgeStep | ClipboardImageWatcher/MainWindow.xaml.cs:767-775 | one iteration deletes the file unless it is locked |
| CaptureStore.CaptureFolder.Write | ClipboardImageWatcher/MainWindow.xaml.cs:676 | `FileMode.Create` adds a new file with the current time as its creation time, or overwrites an existing one, which keeps its creation time |
| Watcher.LastQualifying | ClipboardImageWatcher/MainWindow.xaml.cs:549-559 | some image is found exactly when some notification in the burst qualified |
| Watcher.DebounceLastWins | ClipboardImageWatcher/MainWindow.xaml.cs:547-578 | after a burst of notifications, the pending image is the last qualifying one, and the timer is armed exactly when one qualified; otherwise pending image and timer are as before; the directory is untouched |
| Watcher.BurstSavesLastImageOnce | ClipboardImageWatcher/MainWindow.xaml.cs:556-569 | when the timer fires after a burst, exactly one save is attempted, with the last qualifying image as the pending image; what the clipboard strategies write comes from the clipboard at that moment |
| Watcher.SettleActions | ClipboardImageWatcher/MainWindow.xaml.cs:676-697 | a failed save records only the failure; a successful save records the file name and strategy, then the rewrite or its failure |
| Watcher.ProcessOrder | ClipboardImageWatcher/MainWindow.xaml.cs:658-699 | with nothing pending, only the timer is dropped; otherwise the steps are making space, the save attempt with the pending image, the pixel scan of it, then failure or success followed by the clipboard rewrite, and there is no second save attempt |
| Watcher.FailedSaveSkipsRewrite | ClipboardImageWatcher/MainWindow.xaml.cs:695-698 | when every save strategy throws, the clipboard is not rewritten, nothing is written, the image stays pending and the timer is not rearmed, but space was still made |
| Watcher.SettleSaved | ClipboardImageWatcher/MainWindow.xaml.cs:675-693 | after a save the file is listed, the pending image and the timer are cleared, and a rewrite that works leaves on the clipboard a drop list whose only path is the file's name |
| Watcher.SuccessfulSaveRewrites | ClipboardImageWatcher/MainWindow.xaml.cs:673-693 | a successful save records the file and strategy, then the rewrite outcome; the file is listed, nothing stays pending, and the clipboard holds the file reference when the rewrite works |
| Watcher.FileCopyWritesNothing | ClipboardImageWatcher/MainWindow.xaml.cs:547-578 | an image copied from a file schedules nothing, so a later timer tick writes nothing |
| Watcher.Rewrite | ClipboardImageWatcher/MainWindow.xaml.cs:63-81 | a working rewrite leaves a drop list naming only the file; a throwing `Clear` leaves the clipboard as it was; a throwing `SetFileDropList` leaves it cleared; only the untouched clipboard can schedule another capture |
| Watcher.OwnRewriteIgnored | ClipboardImageWatcher/MainWindow.xaml.cs:63-81 | the clipboard notification caused by the watcher's own rewrite changes nothing |
| Watcher.StepsKeepInv | ClipboardImageWatcher/MainWindow.xaml.cs:547-783 | every transition keeps the directory's names unique and never leaves an armed timer without a pending image |
| Watcher.ProcessKeepsBound | ClipboardImageWatcher/MainWindow.xaml.cs:673-676 | processing a capture keeps at most three captures listed, when the oldest can be deleted |
| Watcher.StepsKeepBound | ClipboardImageWatcher/MainWindow.xaml.cs:673-783 | notifications, sweeps and the exit purge never add captures, and processing keeps at most three |
| Watcher.ImageWatcher.constructor | ClipboardImageWatcher/MainWindow.xaml.cs:503-545 | start-up has nothing pending and no timer, then runs the initial `CleanupOldFiles` |
| Watcher.ImageWatcher.OnClipboardChanged | ClipboardImageWatcher/MainWindow.xaml.cs:547-578 | the state becomes `OnChange`: a qualifying image replaces the pending one and re-arms the timer; anything else only updates the clipboard |
| Watcher.ImageWatcher.ProcessPendingImage | ClipboardImageWatcher/MainWindow.xaml.cs:658-699 | the timer tick performs `Process` on the state and appends its actions to the history |
| Watcher.ImageWatcher.Complete | ClipboardImageWatcher/MainWindow.xaml.cs:676-697 | after the save chain, the state and history become those of `Settle` |
| Watcher.ImageWatcher.OnCleanupTimer | ClipboardImageWatcher/MainWindow.xaml.cs:525-528 | the five-minute tick sweeps the directory and changes nothing else |
| Watcher.ImageWatcher.OnExit | ClipboardImageWatcher/MainWindow.xaml.cs:747-758 | exit purges every unlocked capture, leaves any processing timer disposed, and records nothing in the history |

## Left out

- Logging and the tray icon, its menu and tooltips change no modelled state, so they are not modelled.
- `AnalyzeClipboardFormats` only logs, and it is not modelled.
- `Dispatcher.Invoke` and the timers' threads are not modelled. Each timer firing is an explicit call to `ProcessPendingImage` or `OnCleanupTimer`, and notifications and firings never interleave inside a call.
- The five-minute and 500 ms intervals are not modelled, because time passes only through the `now` parameters.
- Real image encoding and decoding are not modelled. Each library call is an oracle: it succeeds or throws, as `failing` says. The standard encode and the draw-through record which image they write; the clipboard strategies record only which format was used.
- Partial files left behind by a save attempt that throws part-way are not modelled.
- `File.Delete` failures other than `IOException` (for example `UnauthorizedAccessException`) are not modelled. In the source they would escape the cleanup loops; here every delete either succeeds or is locked.
- `queryThrows` stands only for the queries inside `IsMemoryImage` throwing, which its catch turns into "in-memory". A `GetData` that throws for one particular format is not modelled separately.
- `ContainsImage` and `GetImage` throwing in `OnClipboardChanged` is not modelled. They sit outside any `try`, so the exception would escape the handler and nothing would be scheduled; in the model they always answer.
- `GetDataObject` throwing inside `TrySaveFromClipboardData` or `TryAlternativeClipboardAccess` is not modelled separately, because each method's catch makes it decline, as when no format applies. The strategies do not read `queryThrows`.
- Captures: its own contract states membership and length only. That each matching entry is listed exactly as often as the directory holds it is stated by the lemma `CapturesCountEach`; it is kept out of the function's contract because every listing proof would then pay for it.
- The glob `capture_*.png` is matched case-sensitively and without 8.3 short names, whereas Windows matches it case-insensitively.
- File paths are file names: the storage directory is fixed, and `Path.Combine` is left out.
- CaptureStore.WriteFile puts a new file last in the directory order. A real NTFS listing is ordered by name, so that position is a choice of the model. It matters only when two captures share a creation time, where `ListingIsStable` lets directory order decide `First()`.
- `DateTime.Now` is a parameter. The stamp of the file name and the `now` used as its creation time are separate inputs. `CleanupOldFiles` reads the clock once per file, but the model uses one `now` per sweep.
- PixelScan.WellFormed is not imposed on every `Image`. An image whose `bgra` holds fewer than `width*height*4` bytes cannot arise from a real bitmap; for it the scan as written reports a failed copy whenever the copy is narrower than the whole image, and the intended scan `PixelReport` fails only when `bgra` is shorter than the sampled rows.
- PixelScan.ScanAsWritten: the 32-bit `int` stride `width * 4` is unbounded here, so overflow on huge widths is not modelled.
- PixelScan.PixelReport uses the integer comparison `opaque * 100 < total` in place of the floating-point ratio. It agrees on every input, including an empty sample, where `0.0/0` is NaN and gives no warning.
- SaveChain.DibPlan: the `MemoryStream` branch of `SaveFromDIBData` cannot be reached, because a `MemoryStream` is already a `Stream`, so it has no counterpart.
- SaveChain.TrySaveFromClipboardData does not model the PNG stream being copied from its current position rather than from the start.
- The processing timer after a failed save, or after exit, is `Inert`: it still exists but never fires again, since it does not auto-reset.
- `OnClosed`, `App` and `ClipboardMonitor` are not modelled; this model starts from `MainWindow`'s constructor and its handlers.

## Findings

| source | as written | input that shows it | evidently intended | confidence | as-written member | corrected member |
|---|---|---|---|---|---|---|
| ClipboardImageWatcher/MainWindow.xaml.cs:589-591 | a buffer of `stride * Math.Min(10, PixelHeight)` bytes is handed to `CopyPixels(pixels, stride, 0)`, which copies the whole bitmap and throws when the buffer cannot hold every row; the catch at 613-616 then drops the scan | any non-empty image taller than ten rows, for example an opaque 1x11 image | sample and count only the first ten rows, for example by `CopyPixels` with a rectangle of those rows | not executed; follows the documented `BitmapSource.CopyPixels` contract | PixelScan.ScanAsWritten (exhibited by PixelScan.OneByElevenLosesTheScan and PixelScan.TallImagesLoseTheScan) | PixelScan.PixelReport (it succeeds on every well-formed image and counts the opaque pixels of the first rows, PixelScan.OpaqueCountIsCardinality) |

The scan only writes to the log, and the saved file does not depend on it. The
model therefore keeps the program's observable behaviour:
`AnalyzeImagePixelData` and the recorded `PixelsAnalysed` action follow
`ScanAsWritten`, and `ScanAsWritten` uses the corrected `PixelReport` whenever
the copy succeeds.
