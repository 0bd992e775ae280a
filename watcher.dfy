/**
 * The capture pipeline of the main window: a clipboard change schedules the
 * capture of a fresh in-memory image behind a 500 ms timer (`OnClipboardChanged`),
 * each new qualifying change superseding the pending one; when the timer
 * elapses, `ProcessPendingImage` makes space in the store, saves the image
 * with the first strategy that works, and replaces the clipboard content
 * with a reference to the saved file. The periodic sweep and the purge at
 * exit act on the same store.
 *
 * The pure functions below are the state machine; the class `ImageWatcher`
 * holds the mutable fields and each of its methods is proved to perform the
 * step the corresponding function describes.
 */
module Watcher {
  import opened Clipboard
  import opened PixelScan
  import opened SaveChain
  import opened CaptureStore
  import opened CaptureNaming

  /** The processing timer: none, armed (will elapse once), or inert (elapsed or stopped, still referenced). */
  datatype TimerState = NoTimer | Armed | Inert

  /** How `ReplaceClipboardWithFile` fares: both calls work, `Clear` throws, or `SetFileDropList` throws. */
  datatype RewriteOutcome = RewriteWorks | ClearThrows | SetThrows

  /** What a timer firing depends on that the model does not compute: clock, file system and library outcomes. */
  datatype FireInputs = FireInputs(
    now: int,                // creation time of a new file, in milliseconds
    stamp: Stamp,            // DateTime.Now as shown in the file name
    failing: set<Step>,      // image-library calls that throw
    locked: set<string>,     // files whose deletion throws IOException
    rewrite: RewriteOutcome)

  /** What the pipeline did, in order. */
  datatype Action =
    | Scheduled(image: Image)
    | MadeSpace
    | SaveAttempted(image: Image)
    | PixelsAnalysed(report: ScanReport)
    | SaveFailed
    | FileSaved(name: string, strategy: Strategy)
    | ClipboardRewritten(name: string)
    | RewriteFailed

  /** The state the pipeline owns: clipboard as last seen, `_pendingImage`, `_processingTimer`, and the storage directory. */
  datatype Pipeline = Pipeline(clipboard: ClipboardState, pending: Option<Image>, timer: TimerState, files: seq<FileEntry>)

  /** The invariant: the directory has unique names, and an armed timer always has an image to process. */
  predicate Inv(p: Pipeline)
  {
    UniqueNames(p.files) && (p.timer == Armed ==> p.pending.Some?)
  }

  /** `OnClipboardChanged`: a qualifying image replaces the pending one and re-arms the timer. */
  function OnChange(p: Pipeline, c: ClipboardState): Pipeline
  {
    if Qualifies(c) then p.(clipboard := c, pending := c.image, timer := Armed)
    else p.(clipboard := c)
  }

  /** The actions of one step, with the state after it. */
  datatype Firing = Firing(after: Pipeline, actions: seq<Action>)

  /**
   * The clipboard after `ReplaceClipboardWithFile(name)`: a drop list naming
   * only the file when it works; untouched when `Clear` throws; cleared when
   * `SetFileDropList` throws. Only the untouched clipboard can schedule
   * another capture.
   */
  function Rewrite(c: ClipboardState, name: string, outcome: RewriteOutcome): (r: ClipboardState)
    ensures outcome == RewriteWorks ==> r.dataObject == Some(map["FileDrop" := FileList([name])]) && r.hasFileDropList
    ensures outcome == ClearThrows ==> r == c
    ensures outcome == SetThrows ==> r.dataObject == Some(map[]) && !r.hasFileDropList && r.image.None?
    ensures outcome != ClearThrows ==> !Qualifies(r)
  {
    match outcome
    case RewriteWorks => FileDropClipboard(name)
    case ClearThrows => c
    case SetThrows => EmptyClipboard
  }

  /**
   * `ProcessPendingImage`: with a pending image, make space, then save; a
   * save that throws leaves the pending image and the timer reference in
   * place and skips the rewrite; a save that works is followed by the
   * clipboard rewrite, and the pending image and timer are cleared.
   */
  function Process(p: Pipeline, io: FireInputs): Firing
  {
    match p.pending
    case None => Firing(p.(timer := NoTimer), [])
    case Some(img) =>
      var spaced := p.(files := MakeSpace(p.files, io.locked));
      var rest := Settle(spaced, io, SaveImageWithCompatibility(img, p.clipboard, io.failing));
      Firing(rest.after, [MadeSpace, SaveAttempted(img), PixelsAnalysed(ScanAsWritten(img))] + rest.actions)
  }

  /** The part of `ProcessPendingImage` after space was made and the save chain returned `result`. */
  function Settle(p: Pipeline, io: FireInputs, result: SaveResult): Firing
  {
    match result
    case AllFailed =>
      Firing(p.(timer := if p.timer == Armed then Inert else p.timer), [SaveFailed])
    case Saved(strategy) =>
      var name := CaptureFileName(io.stamp);
      var rewritten := if io.rewrite == RewriteWorks then ClipboardRewritten(name) else RewriteFailed;
      Firing(Pipeline(Rewrite(p.clipboard, name, io.rewrite), None, NoTimer, WriteFile(p.files, name, io.now)),
             [FileSaved(name, strategy), rewritten])
  }

  /** The cleanup timer's `CleanupOldFiles`. */
  function Sweep(p: Pipeline, now: int, locked: set<string>): Pipeline
  {
    p.(files := SweepExpired(p.files, now, locked))
  }

  /** `OnExit`: purge the cache first, then stop the timers. */
  function Shutdown(p: Pipeline, locked: set<string>): Pipeline
  {
    p.(files := PurgeAll(p.files, locked), timer := if p.timer == NoTimer then NoTimer else Inert)
  }

  /** Clipboard notifications delivered one after another. */
  function Deliver(p: Pipeline, cs: seq<ClipboardState>): Pipeline
    decreases |cs|
  {
    if cs == [] then p else Deliver(OnChange(p, cs[0]), cs[1..])
  }

  /** The image of the last qualifying notification in `cs`, if any. */
  function LastQualifying(cs: seq<ClipboardState>): (r: Option<Image>)
    ensures r.Some? <==> exists k :: 0 <= k < |cs| && Qualifies(cs[k])
  {
    if cs == [] then None
    else
      match LastQualifying(cs[1..])
      case Some(img) =>
        assert exists k :: 0 <= k < |cs| - 1 && Qualifies(cs[1..][k]);
        var k :| 0 <= k < |cs| - 1 && Qualifies(cs[1..][k]);
        assert Qualifies(cs[k + 1]);
        Some(img)
      case None =>
        assert forall k :: 1 <= k < |cs| ==> cs[1..][k - 1] == cs[k];
        if Qualifies(cs[0]) then cs[0].image else None
  }

  lemma LastQualifyingSnoc(cs: seq<ClipboardState>, c: ClipboardState)
    ensures LastQualifying(cs + [c]) == if Qualifies(c) then c.image else LastQualifying(cs)
  {
    if cs == [] {
      assert ([c])[1..] == [];
    } else {
      assert (cs + [c])[1..] == cs[1..] + [c];
      LastQualifyingSnoc(cs[1..], c);
    }
  }

  lemma {:induction false} DeliverSnoc(p: Pipeline, cs: seq<ClipboardState>, c: ClipboardState)
    ensures Deliver(p, cs + [c]) == OnChange(Deliver(p, cs), c)
    decreases |cs|
  {
    if cs == [] {
      assert ([c])[1..] == [];
    } else {
      assert (cs + [c])[1..] == cs[1..] + [c];
      DeliverSnoc(OnChange(p, cs[0]), cs[1..], c);
    }
  }

  /**
   * Debounce, last image wins: after any sequence of notifications the pending
   * image is that of the last qualifying one (or the earlier pending image when
   * none qualified), a timer is armed when one qualified, and no file is touched.
   */
  lemma {:induction false} DebounceLastWins(p: Pipeline, cs: seq<ClipboardState>)
    ensures var q := Deliver(p, cs);
      && q.files == p.files
      && q.pending == (if LastQualifying(cs).Some? then LastQualifying(cs) else p.pending)
      && q.timer == (if LastQualifying(cs).Some? then Armed else p.timer)
      && (cs != [] ==> q.clipboard == cs[|cs| - 1])
  {
    if cs != [] {
      var init := cs[..|cs| - 1];
      var last := cs[|cs| - 1];
      assert cs == init + [last];
      DebounceLastWins(p, init);
      DeliverSnoc(p, init, last);
      LastQualifyingSnoc(init, last);
    }
  }

  /**
   * A burst of notifications processed by one timer firing: exactly one save
   * is attempted, and it is of the image of the last qualifying notification.
   */
  lemma {:induction false} BurstSavesLastImageOnce(p: Pipeline, cs: seq<ClipboardState>, io: FireInputs)
    requires LastQualifying(cs).Some?
    ensures var a := Process(Deliver(p, cs), io).actions;
      && |a| >= 4
      && a[1] == SaveAttempted(LastQualifying(cs).value)
      && forall k :: 0 <= k < |a| && k != 1 ==> !a[k].SaveAttempted?
  {
    DebounceLastWins(p, cs);
    ProcessOrder(Deliver(p, cs), io);
  }

  /** The actions after the save chain returned, whatever it returned. */
  lemma SettleActions(p: Pipeline, io: FireInputs, result: SaveResult)
    ensures var a := Settle(p, io, result).actions;
      var name := CaptureFileName(io.stamp);
      && (result.AllFailed? ==> a == [SaveFailed])
      && (result.Saved? ==> |a| == 2 && a[0] == FileSaved(name, result.strategy))
      && (result.Saved? ==> (a[1] == ClipboardRewritten(name) <==> io.rewrite == RewriteWorks))
      && (result.Saved? ==> (a[1] == RewriteFailed <==> io.rewrite != RewriteWorks))
  {
  }

  /**
   * Processing order: with a pending image, make-space comes first, then the
   * save attempt and the scan, then the outcome of the save, and the clipboard
   * rewrite only after a save that worked. With no pending image nothing is
   * done and the timer reference is released.
   */
  lemma ProcessOrder(p: Pipeline, io: FireInputs)
    ensures var s := Process(p, io);
      match p.pending
      case None => s.actions == [] && s.after == p.(timer := NoTimer)
      case Some(img) =>
        && 4 <= |s.actions| <= 5
        && s.actions[0] == MadeSpace
        && s.actions[1] == SaveAttempted(img)
        && s.actions[2] == PixelsAnalysed(ScanAsWritten(img))
        && (s.actions[3] == SaveFailed || s.actions[3].FileSaved?)
        && (|s.actions| == 5 <==> s.actions[3].FileSaved?)
        && (|s.actions| == 5 ==> s.actions[4].ClipboardRewritten? || s.actions[4] == RewriteFailed)
        && forall k :: 0 <= k < |s.actions| && k != 1 ==> !s.actions[k].SaveAttempted?
  {
    if p.pending.Some? {
      var img := p.pending.value;
      SettleActions(p.(files := MakeSpace(p.files, io.locked)), io, SaveImageWithCompatibility(img, p.clipboard, io.failing));
    }
  }

  /** A failed save: no rewrite, clipboard untouched, image still pending, and the armed timer spent. */
  lemma FailedSaveSkipsRewrite(p: Pipeline, io: FireInputs)
    requires p.pending.Some?
    requires SaveImageWithCompatibility(p.pending.value, p.clipboard, io.failing).AllFailed?
    ensures var s := Process(p, io);
      && s.actions[|s.actions| - 1] == SaveFailed
      && (forall k :: 0 <= k < |s.actions| ==> !s.actions[k].ClipboardRewritten? && !s.actions[k].FileSaved?)
      && s.after.clipboard == p.clipboard
      && s.after.pending == p.pending
      && s.after.files == MakeSpace(p.files, io.locked)
      && s.after.timer != Armed
  {
    ProcessOrder(p, io);
  }

  /** The state after a save that worked with `strategy`. */
  lemma SettleSaved(p: Pipeline, io: FireInputs, strategy: Strategy)
    ensures var q := Settle(p, io, Saved(strategy)).after;
      var name := CaptureFileName(io.stamp);
      && q.files == WriteFile(p.files, name, io.now)
      && name in Names(GetCapturedFiles(q.files))
      && q.pending.None? && q.timer == NoTimer
      && (io.rewrite == RewriteWorks ==> q.clipboard == FileDropClipboard(name))
      && (io.rewrite == RewriteWorks ==> q.clipboard.dataObject == Some(map["FileDrop" := FileList([name])]))
  {
    WriteFileListed(p.files, CaptureFileName(io.stamp), io.now);
  }

  /**
   * A successful save: the file is written under the capture name of the
   * stamp and listed, the clipboard is rewritten after it, and the pending
   * image and timer are cleared.
   */
  lemma SuccessfulSaveRewrites(p: Pipeline, io: FireInputs)
    requires p.pending.Some?
    requires SaveImageWithCompatibility(p.pending.value, p.clipboard, io.failing).Saved?
    ensures var s := Process(p, io);
      var name := CaptureFileName(io.stamp);
      && |s.actions| == 5
      && s.actions[3] == FileSaved(name, SaveImageWithCompatibility(p.pending.value, p.clipboard, io.failing).strategy)
      && (io.rewrite == RewriteWorks <==> s.actions[4] == ClipboardRewritten(name))
      && name in Names(GetCapturedFiles(s.after.files))
      && s.after.pending.None? && s.after.timer == NoTimer
      && (io.rewrite == RewriteWorks ==> s.after.clipboard == FileDropClipboard(name))
  {
    var img := p.pending.value;
    var r := SaveImageWithCompatibility(img, p.clipboard, io.failing);
    var spaced := p.(files := MakeSpace(p.files, io.locked));
    var rest := Settle(spaced, io, r);
    assert Process(p, io) == Firing(rest.after, [MadeSpace, SaveAttempted(img), PixelsAnalysed(ScanAsWritten(img))] + rest.actions);
    SettleActions(spaced, io, r);
    SettleSaved(spaced, io, r.strategy);
  }

  /**
   * A copy of a file (file-drop list or file-indicating format) schedules
   * nothing: when the timer then fires, no file is written and no save is attempted.
   */
  lemma FileCopyWritesNothing(p: Pipeline, c: ClipboardState, io: FireInputs)
    requires p.pending.None?
    requires !c.queryThrows && OriginatesFromFile(c)
    ensures Process(OnChange(p, c), io).after.files == p.files
    ensures Process(OnChange(p, c), io).actions == []
  {
  }

  /**
   * The notification caused by the watcher's own rewrite is ignored: it
   * changes nothing but the recorded clipboard, which it already holds.
   */
  lemma OwnRewriteIgnored(p: Pipeline, io: FireInputs)
    requires p.pending.Some? && io.rewrite == RewriteWorks
    requires SaveImageWithCompatibility(p.pending.value, p.clipboard, io.failing).Saved?
    ensures var q := Process(p, io).after;
      OnChange(q, q.clipboard) == q
  {
  }

  lemma MakeSpaceUnique(d: seq<FileEntry>, locked: set<string>)
    requires UniqueNames(d)
    ensures UniqueNames(MakeSpace(d, locked))
  {
    var files := GetCapturedFiles(d);
    if |files| >= MaxFiles && files[0].name !in locked {
      WithoutUnique(d, {files[0].name});
    }
  }

  /** Every step of the pipeline keeps the invariant. */
  lemma StepsKeepInv(p: Pipeline, c: ClipboardState, io: FireInputs, now: int, locked: set<string>)
    requires Inv(p)
    ensures Inv(OnChange(p, c))
    ensures Inv(Process(p, io).after)
    ensures Inv(Sweep(p, now, locked))
    ensures Inv(Shutdown(p, locked))
  {
    MakeSpaceUnique(p.files, io.locked);
    WriteFileUnique(MakeSpace(p.files, io.locked), CaptureFileName(io.stamp), io.now);
    WithoutUnique(p.files, Expired(p.files, now) - locked);
    WithoutUnique(p.files, CaptureNames(p.files) - locked);
  }

  /** At most `MaxFiles` captures are listed. */
  predicate Bounded(p: Pipeline)
  {
    |GetCapturedFiles(p.files)| <= MaxFiles
  }

  /** The files after processing: space made, then the new file written when the save worked. */
  lemma ProcessFiles(p: Pipeline, io: FireInputs)
    requires p.pending.Some?
    ensures var spaced := MakeSpace(p.files, io.locked);
      Process(p, io).after.files ==
        if SaveImageWithCompatibility(p.pending.value, p.clipboard, io.failing).AllFailed? then spaced
        else WriteFile(spaced, CaptureFileName(io.stamp), io.now)
  {
  }

  lemma ProcessKeepsBound(p: Pipeline, io: FireInputs)
    requires Inv(p) && Bounded(p)
    requires |GetCapturedFiles(p.files)| == MaxFiles ==> GetCapturedFiles(p.files)[0].name !in io.locked
    ensures Bounded(Process(p, io).after)
  {
    if p.pending.Some? {
      ProcessFiles(p, io);
      var files := GetCapturedFiles(p.files);
      if |files| >= MaxFiles && files[0].name !in io.locked {
        WithoutKeepsFewerCaptures(p.files, {files[0].name});
      }
      SaveKeepsBound(p.files, io.locked, CaptureFileName(io.stamp), io.now);
    }
  }

  /**
   * The cache bound survives a capture, as long as the oldest file can be
   * deleted when the cache is full, and survives the sweep and the purge.
   */
  lemma StepsKeepBound(p: Pipeline, c: ClipboardState, io: FireInputs, now: int, locked: set<string>)
    requires Inv(p) && Bounded(p)
    requires |GetCapturedFiles(p.files)| == MaxFiles ==> GetCapturedFiles(p.files)[0].name !in io.locked
    ensures Bounded(OnChange(p, c))
    ensures Bounded(Process(p, io).after)
    ensures Bounded(Sweep(p, now, locked))
    ensures Bounded(Shutdown(p, locked))
    ensures OnChange(p, c).files == p.files
    ensures |GetCapturedFiles(Sweep(p, now, locked).files)| <= |GetCapturedFiles(p.files)|
    ensures |GetCapturedFiles(Shutdown(p, locked).files)| <= |GetCapturedFiles(p.files)|
  {
    ProcessKeepsBound(p, io);
    WithoutKeepsFewerCaptures(p.files, Expired(p.files, now) - locked);
    WithoutKeepsFewerCaptures(p.files, CaptureNames(p.files) - locked);
  }

  /** The main window's capture state. */
  class ImageWatcher {
    var clipboard: ClipboardState
    var pending: Option<Image>
    var timer: TimerState
    const folder: CaptureFolder
    /** Everything the pipeline did, in order. */
    ghost var history: seq<Action>

    ghost predicate Valid()
      reads this, folder
    {
      folder.Valid() && Inv(State())
    }

    ghost function State(): Pipeline
      reads this, folder
    {
      Pipeline(clipboard, pending, timer, folder.entries)
    }

    /** Start-up: no capture pending, no processing timer, and one sweep of the store. */
    constructor (dir: CaptureFolder, c: ClipboardState, now: int, locked: set<string>)
      requires dir.Valid()
      modifies dir
      ensures Valid() && folder == dir
      ensures State() == Sweep(Pipeline(c, None, NoTimer, old(dir.entries)), now, locked)
      ensures history == []
    {
      clipboard, pending, timer, folder := c, None, NoTimer, dir;
      history := [];
      new;
      folder.CleanupOldFiles(now, locked);
    }

    method OnClipboardChanged(c: ClipboardState)
      requires Valid()
      modifies this
      ensures Valid()
      ensures State() == OnChange(old(State()), c)
      ensures history == old(history) + (if Qualifies(c) then [Scheduled(c.image.value)] else [])
    {
      clipboard := c;
      if c.containsImage && IsMemoryImage(c) {
        var image := c.image;
        if image.Some? {
          pending := image;
          timer := Armed;
          history := history + [Scheduled(image.value)];
        }
      }
    }

    method ProcessPendingImage(io: FireInputs)
      requires Valid()
      modifies this, folder
      ensures Valid()
      ensures State() == Process(old(State()), io).after
      ensures history == old(history) + Process(old(State()), io).actions
    {
      if pending.None? {
        timer := NoTimer;
        return;
      }
      ghost var p := State();
      var img := pending.value;
      folder.CleanupAndMakeSpace(io.locked);
      var report := AnalyzeImagePixelData(img);
      history := history + [MadeSpace, SaveAttempted(img), PixelsAnalysed(report)];
      var result := SaveImageWithCompatibility(img, clipboard, io.failing);
      ghost var spaced := p.(files := MakeSpace(p.files, io.locked));
      assert State() == spaced;
      Complete(result, io);
      assert Process(p, io).after == Settle(spaced, io, result).after;
    }

    /**
     * The rest of `ProcessPendingImage` once the save chain returned `result`:
     * the new file and the clipboard rewrite, or only the spent timer after a
     * save that threw.
     */
    method Complete(result: SaveResult, io: FireInputs)
      requires Valid() && pending.Some?
      modifies this, folder
      ensures Valid()
      ensures State() == Settle(old(State()), io, result).after
      ensures history == old(history) + Settle(old(State()), io, result).actions
    {
      if result.AllFailed? {
        history := history + [SaveFailed];
        if timer == Armed {
          timer := Inert;
        }
        return;
      }
      var name := CaptureFileName(io.stamp);
      folder.Write(name, io.now);
      history := history + [FileSaved(name, result.strategy)];
      clipboard := Rewrite(clipboard, name, io.rewrite);
      history := history + [if io.rewrite == RewriteWorks then ClipboardRewritten(name) else RewriteFailed];
      pending := None;
      timer := NoTimer;
    }

    /** The cleanup timer elapsing at time `now`. */
    method OnCleanupTimer(now: int, locked: set<string>)
      requires Valid()
      modifies folder
      ensures Valid()
      ensures State() == Sweep(old(State()), now, locked)
    {
      folder.CleanupOldFiles(now, locked);
    }

    method OnExit(locked: set<string>)
      requires Valid()
      modifies this, folder
      ensures Valid()
      ensures State() == Shutdown(old(State()), locked)
      ensures history == old(history)
    {
      folder.CleanupAllCachedImages(locked);
      if timer != NoTimer {
        timer := Inert;
      }
    }
  }
}
