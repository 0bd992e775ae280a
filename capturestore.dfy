/**
 * The capture store: the storage directory (the source of truth, re-listed on
 * every call), the listing `GetCapturedFiles` of the `capture_*.png` files by
 * creation time, and the three deleting operations on it: count-based
 * eviction before a save (`CleanupAndMakeSpace`), the age-based sweep
 * (`CleanupOldFiles`) and the purge at shutdown (`CleanupAllCachedImages`).
 *
 * The directory is a sequence of entries in the order the operating system
 * lists them; a deletion that raises `IOException` (a locked file) is an
 * oracle, the set `locked` of names whose deletion fails.
 */
module CaptureStore {

  /** At most this many captures are kept when a new one is saved. */
  const MaxFiles: nat := 3
  /** Captures older than one hour, in milliseconds, are swept. */
  const MaxAgeMs: int := 3600000
  const FilePrefix: string := "capture_"
  const FileExtension: string := ".png"

  /** A directory entry: the file name and its creation time in milliseconds. */
  datatype FileEntry = FileEntry(name: string, created: int)

  /** Checking the prefix and the extension is the same as matching `capture_` `*` `.png`. */
  lemma PrefixAndExtension(n: string)
    ensures (&& |n| >= |FilePrefix| + |FileExtension|
             && n[..|FilePrefix|] == FilePrefix
             && n[|n| - |FileExtension|..] == FileExtension)
            <==> exists mid :: n == FilePrefix + mid + FileExtension
  {
    if && |n| >= |FilePrefix| + |FileExtension|
       && n[..|FilePrefix|] == FilePrefix
       && n[|n| - |FileExtension|..] == FileExtension
    {
      var mid := n[|FilePrefix|..|n| - |FileExtension|];
      assert n == n[..|FilePrefix|] + mid + n[|n| - |FileExtension|..];
    }
    forall mid | n == FilePrefix + mid + FileExtension
      ensures |n| >= |FilePrefix| + |FileExtension|
      ensures n[..|FilePrefix|] == FilePrefix && n[|n| - |FileExtension|..] == FileExtension
    {
      assert n[..|FilePrefix|] == FilePrefix;
      assert n[|n| - |FileExtension|..] == FileExtension;
    }
  }

  /** The match of `GetFiles("capture_*.png")`: the prefix and the extension, not overlapping. */
  predicate IsCaptureName(n: string)
    ensures IsCaptureName(n) <==> exists mid :: n == FilePrefix + mid + FileExtension
  {
    PrefixAndExtension(n);
    && |n| >= |FilePrefix| + |FileExtension|
    && n[..|FilePrefix|] == FilePrefix
    && n[|n| - |FileExtension|..] == FileExtension
  }

  function Names(d: seq<FileEntry>): set<string>
  {
    set e | e in d :: e.name
  }

  /** A directory holds each file name once. */
  predicate UniqueNames(d: seq<FileEntry>)
  {
    d == [] || (d[0].name !in Names(d[1..]) && UniqueNames(d[1..]))
  }

  lemma NamesCons(d: seq<FileEntry>)
    requires d != []
    ensures Names(d) == {d[0].name} + Names(d[1..])
  {
    assert forall e :: e in d <==> e == d[0] || e in d[1..];
  }

  /** In a directory without duplicate names, a name determines its entry. */
  lemma {:induction false} NameDeterminesEntry(d: seq<FileEntry>, a: FileEntry, b: FileEntry)
    requires UniqueNames(d) && a in d && b in d && a.name == b.name
    ensures a == b
  {
    if a != d[0] && b != d[0] {
      NameDeterminesEntry(d[1..], a, b);
    }
  }

  /** The entries of `d` that the listing pattern matches, in directory order. */
  function Captures(d: seq<FileEntry>): (r: seq<FileEntry>)
    ensures forall e :: e in r <==> e in d && IsCaptureName(e.name)
    ensures |r| <= |d|
  {
    if d == [] then []
    else (if IsCaptureName(d[0].name) then [d[0]] else []) + Captures(d[1..])
  }

  /** The glob lists every matching entry exactly as often as the directory holds it, and nothing else. */
  lemma {:induction false} CapturesCountEach(d: seq<FileEntry>)
    ensures forall e :: multiset(Captures(d))[e] == if IsCaptureName(e.name) then multiset(d)[e] else 0
  {
    if d != [] {
      CapturesCountEach(d[1..]);
      assert d == [d[0]] + d[1..];
    }
  }

  predicate SortedByCreation(s: seq<FileEntry>)
  {
    forall i, j :: 0 <= i < j < |s| ==> s[i].created <= s[j].created
  }

  /** Insert `e` before the first entry that is not older than it. */
  function InsertByCreation(e: FileEntry, s: seq<FileEntry>): (r: seq<FileEntry>)
    ensures multiset(r) == multiset(s) + multiset{e}
    ensures |r| == |s| + 1
  {
    if s == [] then [e]
    else if e.created <= s[0].created then [e] + s
    else
      assert s == [s[0]] + s[1..];
      [s[0]] + InsertByCreation(e, s[1..])
  }

  lemma {:induction false} InsertKeepsSorted(e: FileEntry, s: seq<FileEntry>)
    requires SortedByCreation(s)
    ensures SortedByCreation(InsertByCreation(e, s))
  {
    if s != [] && e.created > s[0].created {
      var rest := InsertByCreation(e, s[1..]);
      InsertKeepsSorted(e, s[1..]);
      forall k | 0 <= k < |rest| ensures s[0].created <= rest[k].created {
        assert rest[k] in multiset(rest);
        if rest[k] != e {
          assert rest[k] in multiset(s[1..]);
          var j :| 0 <= j < |s[1..]| && s[1..][j] == rest[k];
          assert s[j + 1] == rest[k];
        }
      }
      assert InsertByCreation(e, s) == [s[0]] + rest;
    }
  }

  /** `OrderBy(f => f.CreationTime)`: a stable insertion sort by creation time. */
  function SortByCreation(s: seq<FileEntry>): (r: seq<FileEntry>)
    ensures SortedByCreation(r)
    ensures multiset(r) == multiset(s)
  {
    if s == [] then []
    else
      assert s == [s[0]] + s[1..];
      var rest := SortByCreation(s[1..]);
      InsertKeepsSorted(s[0], rest);
      InsertByCreation(s[0], rest)
  }

  /** `[e]` when `e` was created at time `t`, else nothing. */
  function OwnEntryAt(e: FileEntry, t: int): seq<FileEntry>
  {
    if e.created == t then [e] else []
  }

  /** The entries of `s` created at time `t`, in the order of `s`. */
  function CreatedAt(s: seq<FileEntry>, t: int): seq<FileEntry>
  {
    if s == [] then []
    else OwnEntryAt(s[0], t) + CreatedAt(s[1..], t)
  }

  lemma CreatedAtCons(e: FileEntry, s: seq<FileEntry>, t: int)
    ensures CreatedAt([e] + s, t) == OwnEntryAt(e, t) + CreatedAt(s, t)
  {
    assert ([e] + s)[1..] == s;
  }

  /** Inserting `e` puts it ahead of every entry as old as it, and moves no other entry past an equal one. */
  lemma {:induction false} InsertIsStable(e: FileEntry, s: seq<FileEntry>, t: int)
    ensures CreatedAt(InsertByCreation(e, s), t) == OwnEntryAt(e, t) + CreatedAt(s, t)
  {
    if s == [] {
      CreatedAtCons(e, [], t);
      assert [e] + [] == [e];
    } else if e.created <= s[0].created {
      CreatedAtCons(e, s, t);
    } else {
      var rest := InsertByCreation(e, s[1..]);
      var a, b, c := OwnEntryAt(e, t), OwnEntryAt(s[0], t), CreatedAt(s[1..], t);
      assert a == [] || b == [];
      calc {
        CreatedAt(InsertByCreation(e, s), t);
        CreatedAt([s[0]] + rest, t);
        { CreatedAtCons(s[0], rest, t); }
        b + CreatedAt(rest, t);
        { InsertIsStable(e, s[1..], t); }
        b + (a + c);
        a + (b + c);
        { CreatedAtCons(s[0], s[1..], t); assert [s[0]] + s[1..] == s; }
        a + CreatedAt(s, t);
      }
    }
  }

  /** The sort is stable: entries created at the same time keep their relative order. */
  lemma {:induction false} SortIsStable(s: seq<FileEntry>, t: int)
    ensures CreatedAt(SortByCreation(s), t) == CreatedAt(s, t)
  {
    if s != [] {
      SortIsStable(s[1..], t);
      InsertIsStable(s[0], SortByCreation(s[1..]), t);
    }
  }

  /**
   * `GetCapturedFiles`: every capture file of the directory and nothing else,
   * oldest first.
   */
  function GetCapturedFiles(d: seq<FileEntry>): (r: seq<FileEntry>)
    ensures SortedByCreation(r)
    ensures multiset(r) == multiset(Captures(d))
    ensures |r| == |Captures(d)|
    ensures forall e :: e in r <==> e in d && IsCaptureName(e.name)
  {
    var r := SortByCreation(Captures(d));
    assert forall e :: e in r <==> e in multiset(r);
    assert forall e :: e in Captures(d) <==> e in multiset(Captures(d));
    assert |r| == |multiset(r)|;
    r
  }

  /** Captures created at the same time are listed in directory order, so `First()` breaks ties by that order. */
  lemma ListingIsStable(d: seq<FileEntry>, t: int)
    ensures CreatedAt(GetCapturedFiles(d), t) == CreatedAt(Captures(d), t)
  {
    SortIsStable(Captures(d), t);
  }

  /** The first listed capture is the oldest capture in the directory. */
  lemma FirstListedIsOldest(d: seq<FileEntry>)
    requires |GetCapturedFiles(d)| > 0
    ensures var oldest := GetCapturedFiles(d)[0];
      && oldest in d && IsCaptureName(oldest.name)
      && forall e :: e in d && IsCaptureName(e.name) ==> oldest.created <= e.created
  {
    var files := GetCapturedFiles(d);
    assert files[0] in files;
    forall e | e in d && IsCaptureName(e.name) ensures files[0].created <= e.created {
      assert e in files;
      var j :| 0 <= j < |files| && files[j] == e;
      if j > 0 {
        assert files[0].created <= files[j].created;
      }
    }
  }

  /** The directory after the files named in `gone` are deleted. */
  function Without(d: seq<FileEntry>, gone: set<string>): (r: seq<FileEntry>)
    ensures forall e :: e in r <==> e in d && e.name !in gone
    ensures |r| <= |d|
  {
    if d == [] then []
    else (if d[0].name in gone then [] else [d[0]]) + Without(d[1..], gone)
  }

  lemma {:induction false} WithoutNothing(d: seq<FileEntry>)
    ensures Without(d, {}) == d
  {
    if d != [] {
      WithoutNothing(d[1..]);
      assert d == [d[0]] + d[1..];
    }
  }

  lemma {:induction false} WithoutTwice(d: seq<FileEntry>, a: set<string>, b: set<string>)
    ensures Without(Without(d, a), b) == Without(d, a + b)
  {
    if d != [] {
      WithoutTwice(d[1..], a, b);
      var w := Without(d[1..], a);
      if d[0].name in a {
        assert Without(d, a) == w;
      } else {
        assert Without(d, a) == [d[0]] + w;
        assert ([d[0]] + w)[1..] == w;
      }
    }
  }

  lemma WithoutNames(d: seq<FileEntry>, gone: set<string>)
    ensures Names(Without(d, gone)) == Names(d) - gone
  {
    var w := Without(d, gone);
    forall n | n in Names(d) - gone ensures n in Names(w) {
      var e :| e in d && e.name == n;
      assert e in w;
    }
  }

  /** Deleting files keeps the names unique. */
  lemma {:induction false} WithoutUnique(d: seq<FileEntry>, gone: set<string>)
    requires UniqueNames(d)
    ensures UniqueNames(Without(d, gone))
  {
    if d != [] {
      WithoutUnique(d[1..], gone);
      var w := Without(d[1..], gone);
      if d[0].name !in gone {
        WithoutNames(d[1..], gone);
        assert Without(d, gone) == [d[0]] + w;
        assert ([d[0]] + w)[1..] == w;
      } else {
        assert Without(d, gone) == w;
      }
    }
  }

  /** Deleting one capture file that exists lowers the capture count by one. */
  lemma {:induction false} WithoutOneCapture(d: seq<FileEntry>, n: string)
    requires UniqueNames(d) && IsCaptureName(n) && n in Names(d)
    ensures |Captures(Without(d, {n}))| == |Captures(d)| - 1
  {
    NamesCons(d);
    var w := Without(d[1..], {n});
    if d[0].name == n {
      assert Without(d, {n}) == w;
      assert n !in Names(d[1..]);
      WithoutNames(d[1..], {n});
      WithoutNothing(d[1..]);
      assert Without(d[1..], {n}) == Without(d[1..], {}) by {
        WithoutIgnoresAbsent(d[1..], {n});
      }
    } else {
      assert n in Names(d[1..]);
      WithoutOneCapture(d[1..], n);
      assert Without(d, {n}) == [d[0]] + w;
      assert ([d[0]] + w)[1..] == w;
    }
  }

  /** Deleting names that are not in the directory changes nothing. */
  lemma {:induction false} WithoutIgnoresAbsent(d: seq<FileEntry>, gone: set<string>)
    requires Names(d) !! gone
    ensures Without(d, gone) == Without(d, {})
  {
    if d != [] {
      NamesCons(d);
      WithoutIgnoresAbsent(d[1..], gone);
    }
  }

  /** Deleting files never lengthens the listing. */
  lemma {:induction false} WithoutKeepsFewerCaptures(d: seq<FileEntry>, gone: set<string>)
    ensures |GetCapturedFiles(Without(d, gone))| <= |GetCapturedFiles(d)|
  {
    if d != [] {
      WithoutKeepsFewerCaptures(d[1..], gone);
      var w := Without(d[1..], gone);
      if d[0].name in gone {
        assert Without(d, gone) == w;
      } else {
        assert Without(d, gone) == [d[0]] + w;
        assert ([d[0]] + w)[1..] == w;
      }
    }
  }

  /** The directory after `File.Delete(name)`: gone, unless its deletion throws. */
  function DeleteFile(d: seq<FileEntry>, name: string, locked: set<string>): seq<FileEntry>
  {
    if name in locked then d else Without(d, {name})
  }

  /**
   * `CleanupAndMakeSpace`: with at least `MaxFiles` captures listed, the first
   * listed (the oldest) is deleted, unless its deletion throws.
   */
  function MakeSpace(d: seq<FileEntry>, locked: set<string>): seq<FileEntry>
  {
    var files := GetCapturedFiles(d);
    if |files| >= MaxFiles then DeleteFile(d, files[0].name, locked) else d
  }

  /** Names of the capture files strictly older than `MaxAgeMs` at time `now`. */
  function Expired(d: seq<FileEntry>, now: int): set<string>
  {
    set e | e in d && IsCaptureName(e.name) && now - e.created > MaxAgeMs :: e.name
  }

  /** `CleanupOldFiles`: every expired capture is deleted, except those whose deletion throws. */
  function SweepExpired(d: seq<FileEntry>, now: int, locked: set<string>): seq<FileEntry>
  {
    Without(d, Expired(d, now) - locked)
  }

  function CaptureNames(d: seq<FileEntry>): set<string>
  {
    set e | e in d && IsCaptureName(e.name) :: e.name
  }

  /** `CleanupAllCachedImages`: every capture is deleted, except those whose deletion throws. */
  function PurgeAll(d: seq<FileEntry>, locked: set<string>): seq<FileEntry>
  {
    Without(d, CaptureNames(d) - locked)
  }

  /**
   * A save to `name` at time `now` (`FileMode.Create`): a new file is added;
   * an existing file of that name is overwritten in place and keeps its
   * creation time.
   */
  function WriteFile(d: seq<FileEntry>, name: string, now: int): seq<FileEntry>
  {
    if name in Names(d) then d else d + [FileEntry(name, now)]
  }

  lemma {:induction false} AppendUnique(d: seq<FileEntry>, e: FileEntry)
    requires UniqueNames(d) && e.name !in Names(d)
    ensures UniqueNames(d + [e])
  {
    if d == [] {
      assert [e][1..] == [];
    } else {
      NamesCons(d);
      AppendUnique(d[1..], e);
      assert (d + [e])[1..] == d[1..] + [e];
      NamesCons(d + [e]);
      assert Names(d[1..] + [e]) == Names(d[1..]) + {e.name} by {
        assert forall x :: x in d[1..] + [e] <==> x in d[1..] || x == e;
      }
    }
  }

  lemma {:induction false} CapturesAppend(d: seq<FileEntry>, e: FileEntry)
    ensures Captures(d + [e]) == Captures(d) + (if IsCaptureName(e.name) then [e] else [])
  {
    if d == [] {
      assert [e][1..] == [];
    } else {
      var x := d[0];
      assert (d + [e])[0] == x;
      assert (d + [e])[1..] == d[1..] + [e];
      CapturesAppend(d[1..], e);
      var head := if IsCaptureName(x.name) then [x] else [];
      var tail := if IsCaptureName(e.name) then [e] else [];
      calc {
        Captures(d + [e]);
        head + Captures(d[1..] + [e]);
        head + (Captures(d[1..]) + tail);
        (head + Captures(d[1..])) + tail;
        Captures(d) + tail;
      }
    }
  }

  lemma WriteFileUnique(d: seq<FileEntry>, name: string, now: int)
    requires UniqueNames(d)
    ensures UniqueNames(WriteFile(d, name, now))
  {
    if name !in Names(d) {
      AppendUnique(d, FileEntry(name, now));
    }
  }

  /** A written capture file is listed afterwards, and the count grows by at most one. */
  lemma WriteFileListed(d: seq<FileEntry>, name: string, now: int)
    requires IsCaptureName(name)
    ensures name in Names(GetCapturedFiles(WriteFile(d, name, now)))
    ensures |GetCapturedFiles(WriteFile(d, name, now))| <= |GetCapturedFiles(d)| + 1
  {
    var d' := WriteFile(d, name, now);
    if name in Names(d) {
      var e :| e in d && e.name == name;
      assert e in GetCapturedFiles(d');
    } else {
      CapturesAppend(d, FileEntry(name, now));
      assert FileEntry(name, now) in GetCapturedFiles(d');
    }
  }

  /**
   * Make-space deletes exactly the oldest capture when at least `MaxFiles` are
   * listed and its deletion does not throw; every other entry stays as it was.
   */
  lemma MakeSpaceEvictsOldest(d: seq<FileEntry>, locked: set<string>)
    requires UniqueNames(d)
    requires |GetCapturedFiles(d)| >= MaxFiles && GetCapturedFiles(d)[0].name !in locked
    ensures var oldest := GetCapturedFiles(d)[0];
      && oldest in d
      && (forall e :: e in d && IsCaptureName(e.name) ==> oldest.created <= e.created)
      && (forall e :: e in MakeSpace(d, locked) <==> e in d && e != oldest)
      && |GetCapturedFiles(MakeSpace(d, locked))| == |GetCapturedFiles(d)| - 1
  {
    var oldest := GetCapturedFiles(d)[0];
    FirstListedIsOldest(d);
    assert MakeSpace(d, locked) == Without(d, {oldest.name});
    assert forall e :: e in Without(d, {oldest.name}) <==> e in d && e != oldest by {
      forall e | e in d && e.name == oldest.name ensures e == oldest {
        NameDeterminesEntry(d, e, oldest);
      }
    }
    assert |Captures(Without(d, {oldest.name}))| == |Captures(d)| - 1 by {
      WithoutOneCapture(d, oldest.name);
    }
  }

  /** With fewer than `MaxFiles` captures listed, or a locked oldest file, make-space changes nothing. */
  lemma MakeSpaceOtherwiseUnchanged(d: seq<FileEntry>, locked: set<string>)
    requires |GetCapturedFiles(d)| < MaxFiles || GetCapturedFiles(d)[0].name in locked
    ensures MakeSpace(d, locked) == d
  {
  }

  /**
   * The cache bound: if at most `MaxFiles` captures are listed and, when the
   * count is at the bound, the oldest can be deleted, then after make-space and
   * one save at most `MaxFiles` captures are listed.
   */
  lemma SaveKeepsBound(d: seq<FileEntry>, locked: set<string>, name: string, now: int)
    requires UniqueNames(d)
    requires |GetCapturedFiles(d)| <= MaxFiles
    requires |GetCapturedFiles(d)| == MaxFiles ==> GetCapturedFiles(d)[0].name !in locked
    requires IsCaptureName(name)
    ensures |GetCapturedFiles(WriteFile(MakeSpace(d, locked), name, now))| <= MaxFiles
  {
    if |GetCapturedFiles(d)| == MaxFiles {
      MakeSpaceEvictsOldest(d, locked);
    }
    WriteFileListed(MakeSpace(d, locked), name, now);
  }

  /**
   * The sweep deletes exactly the capture files strictly older than one hour
   * whose deletion does not throw; younger captures, other files and locked
   * files are untouched.
   */
  lemma SweepExact(d: seq<FileEntry>, now: int, locked: set<string>)
    requires UniqueNames(d)
    ensures forall e :: e in SweepExpired(d, now, locked) <==>
      e in d && !(IsCaptureName(e.name) && now - e.created > MaxAgeMs && e.name !in locked)
  {
    forall e | e in d && e.name in Expired(d, now)
      ensures IsCaptureName(e.name) && now - e.created > MaxAgeMs
    {
      var x :| x in d && IsCaptureName(x.name) && now - x.created > MaxAgeMs && x.name == e.name;
      NameDeterminesEntry(d, x, e);
    }
  }

  /** After a sweep no capture older than one hour remains, except ones whose deletion threw. */
  lemma SweepLeavesNoExpired(d: seq<FileEntry>, now: int, locked: set<string>)
    requires UniqueNames(d)
    ensures forall e :: e in GetCapturedFiles(SweepExpired(d, now, locked)) ==>
      now - e.created <= MaxAgeMs || e.name in locked
  {
    SweepExact(d, now, locked);
  }

  /** Sweeping twice at the same time deletes nothing more. */
  lemma SweepIdempotent(d: seq<FileEntry>, now: int, locked: set<string>)
    requires UniqueNames(d)
    ensures SweepExpired(SweepExpired(d, now, locked), now, locked) == SweepExpired(d, now, locked)
  {
    var s := SweepExpired(d, now, locked);
    SweepExact(d, now, locked);
    assert Expired(s, now) - locked == {};
    WithoutNothing(s);
  }

  /** After the purge only non-capture files and captures whose deletion threw remain. */
  lemma PurgeExact(d: seq<FileEntry>, locked: set<string>)
    requires UniqueNames(d)
    ensures forall e :: e in PurgeAll(d, locked) <==> e in d && (!IsCaptureName(e.name) || e.name in locked)
    ensures forall e :: e in GetCapturedFiles(PurgeAll(d, locked)) ==> e.name in locked
  {
    forall e | e in d && e.name in CaptureNames(d) ensures IsCaptureName(e.name) {
      var x :| x in d && IsCaptureName(x.name) && x.name == e.name;
      NameDeterminesEntry(d, x, e);
    }
  }

  lemma {:induction false} CapturesAllGone(d: seq<FileEntry>, gone: set<string>)
    requires forall e :: e in d && IsCaptureName(e.name) ==> e.name in gone
    ensures Captures(Without(d, gone)) == []
  {
    if d != [] {
      CapturesAllGone(d[1..], gone);
      var w := Without(d[1..], gone);
      if d[0].name !in gone {
        assert Without(d, gone) == [d[0]] + w;
        assert ([d[0]] + w)[1..] == w;
      } else {
        assert Without(d, gone) == w;
      }
    }
  }

  /** When no deletion throws, the listing after the purge is empty. */
  lemma PurgeEmptiesListing(d: seq<FileEntry>)
    ensures GetCapturedFiles(PurgeAll(d, {})) == []
  {
    CapturesAllGone(d, CaptureNames(d) - {});
  }

  /** Names of the entries of `s` strictly older than `MaxAgeMs` at time `now`, collected front to back. */
  function ExpiredAmong(s: seq<FileEntry>, now: int): set<string>
  {
    if s == [] then {}
    else
      var last := s[|s| - 1];
      ExpiredAmong(s[..|s| - 1], now) + (if now - last.created > MaxAgeMs then {last.name} else {})
  }

  lemma {:induction false} ExpiredAmongMembers(s: seq<FileEntry>, now: int)
    ensures forall n :: n in ExpiredAmong(s, now) <==> exists e :: e in s && now - e.created > MaxAgeMs && e.name == n
  {
    if s != [] {
      var last := s[|s| - 1];
      ExpiredAmongMembers(s[..|s| - 1], now);
      assert s == s[..|s| - 1] + [last];
      assert forall e :: e in s <==> e in s[..|s| - 1] || e == last;
    }
  }

  lemma NamesSnoc(s: seq<FileEntry>, x: FileEntry)
    ensures Names(s + [x]) == Names(s) + {x.name}
  {
    assert forall e :: e in s + [x] <==> e in s || e == x;
  }

  /** The expired names among the listing are the expired captures of the directory. */
  lemma ExpiredListed(d: seq<FileEntry>, now: int)
    ensures ExpiredAmong(GetCapturedFiles(d), now) == Expired(d, now)
  {
    ExpiredAmongMembers(GetCapturedFiles(d), now);
  }

  /** The names in the listing are the capture names of the directory. */
  lemma NamesListed(d: seq<FileEntry>)
    ensures Names(GetCapturedFiles(d)) == CaptureNames(d)
  {
  }

  /** The storage directory, whose entries the store operations delete and create. */
  class CaptureFolder {
    var entries: seq<FileEntry>

    ghost predicate Valid()
      reads this
    {
      UniqueNames(entries)
    }

    constructor (initial: seq<FileEntry>)
      requires UniqueNames(initial)
      ensures Valid() && entries == initial
    {
      entries := initial;
    }

    /** `File.Delete(name)`, with its `IOException` caught by the caller. */
    method Delete(name: string, locked: set<string>) returns (deleted: bool)
      requires Valid()
      modifies this
      ensures Valid()
      ensures deleted <==> name !in locked
      ensures entries == DeleteFile(old(entries), name, locked)
    {
      deleted := name !in locked;
      if deleted {
        WithoutUnique(entries, {name});
        entries := Without(entries, {name});
      }
    }

    /**
     * One deletion of a cleanup loop, with its `IOException` caught: `gone`
     * accumulates the names deleted so far from the directory `start`.
     */
    method DeleteFrom(name: string, locked: set<string>, ghost start: seq<FileEntry>, ghost gone: set<string>)
      returns (ghost gone': set<string>)
      requires Valid() && entries == Without(start, gone)
      modifies this
      ensures Valid() && entries == Without(start, gone')
      ensures gone' == gone + ({name} - locked)
    {
      var deleted := Delete(name, locked);
      if deleted {
        WithoutTwice(start, gone, {name});
        gone' := gone + {name};
      } else {
        gone' := gone;
      }
    }

    method CleanupAndMakeSpace(locked: set<string>)
      requires Valid()
      modifies this
      ensures Valid()
      ensures entries == MakeSpace(old(entries), locked)
    {
      var files := GetCapturedFiles(entries);
      if |files| >= MaxFiles {
        var oldestFile := files[0];
        var _ := Delete(oldestFile.name, locked);
      }
    }

    /** `CleanupOldFiles` at time `now`: one pass over the listing, deleting the expired files. */
    method CleanupOldFiles(now: int, locked: set<string>)
      requires Valid()
      modifies this
      ensures Valid()
      ensures entries == SweepExpired(old(entries), now, locked)
    {
      var files := GetCapturedFiles(entries);
      ExpiredListed(entries, now);
      DeleteExpired(files, now, locked);
    }

    /** The loop of `CleanupOldFiles` over `files`: delete each file older than `MaxAgeMs`. */
    method DeleteExpired(files: seq<FileEntry>, now: int, locked: set<string>)
      requires Valid()
      modifies this
      ensures Valid()
      ensures entries == Without(old(entries), ExpiredAmong(files, now) - locked)
    {
      ghost var start := entries;
      ghost var gone: set<string> := {};
      WithoutNothing(start);
      var i := 0;
      while i < |files|
        invariant 0 <= i <= |files|
        invariant Valid()
        invariant gone == ExpiredAmong(files[..i], now) - locked
        invariant entries == Without(start, gone)
      {
        gone := SweepStep(files, i, now, locked, start, gone);
        i := i + 1;
      }
      assert files[..i] == files;
    }

    /** One iteration of the `CleanupOldFiles` loop: delete `files[i]` if it is expired. */
    method SweepStep(files: seq<FileEntry>, i: nat, now: int, locked: set<string>,
                     ghost start: seq<FileEntry>, ghost gone: set<string>) returns (ghost gone': set<string>)
      requires i < |files| && Valid() && entries == Without(start, gone)
      requires gone == ExpiredAmong(files[..i], now) - locked
      modifies this
      ensures Valid() && entries == Without(start, gone')
      ensures gone' == ExpiredAmong(files[..i + 1], now) - locked
    {
      var file := files[i];
      assert files[..i + 1][..i] == files[..i];
      if now - file.created > MaxAgeMs {
        gone' := DeleteFrom(file.name, locked, start, gone);
      } else {
        gone' := gone;
      }
    }

    /** `CleanupAllCachedImages`: one pass over the listing, deleting every capture. */
    method CleanupAllCachedImages(locked: set<string>)
      requires Valid()
      modifies this
      ensures Valid()
      ensures entries == PurgeAll(old(entries), locked)
    {
      var files := GetCapturedFiles(entries);
      NamesListed(entries);
      DeleteListed(files, locked);
    }

    /** The loop of `CleanupAllCachedImages` over `files`: delete each of them. */
    method DeleteListed(files: seq<FileEntry>, locked: set<string>)
      requires Valid()
      modifies this
      ensures Valid()
      ensures entries == Without(old(entries), Names(files) - locked)
    {
      ghost var start := entries;
      ghost var gone: set<string> := {};
      WithoutNothing(start);
      var i := 0;
      while i < |files|
        invariant 0 <= i <= |files|
        invariant Valid()
        invariant gone == Names(files[..i]) - locked
        invariant entries == Without(start, gone)
      {
        gone := PurgeStep(files, i, locked, start, gone);
        i := i + 1;
      }
      assert files[..i] == files;
    }

    /** One iteration of the `CleanupAllCachedImages` loop: delete `files[i]`. */
    method PurgeStep(files: seq<FileEntry>, i: nat, locked: set<string>,
                     ghost start: seq<FileEntry>, ghost gone: set<string>) returns (ghost gone': set<string>)
      requires i < |files| && Valid() && entries == Without(start, gone)
      requires gone == Names(files[..i]) - locked
      modifies this
      ensures Valid() && entries == Without(start, gone')
      ensures gone' == Names(files[..i + 1]) - locked
    {
      var file := files[i];
      assert files[..i + 1] == files[..i] + [file];
      NamesSnoc(files[..i], file);
      gone' := DeleteFrom(file.name, locked, start, gone);
    }

    /** The file written by a successful save. */
    method Write(name: string, now: int)
      requires Valid()
      modifies this
      ensures Valid()
      ensures entries == WriteFile(old(entries), name, now)
    {
      WriteFileUnique(entries, name, now);
      if name !in Names(entries) {
        entries := entries + [FileEntry(name, now)];
      }
    }
  }
}
