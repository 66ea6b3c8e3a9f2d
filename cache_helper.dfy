/** CacheHelper.kt: the two disk-cache strategies applied when the page-cache
    folder of a PDF is opened. That folder, `cacheDir`, is the child named
    `cacheDirName` of `parent` (CacheManager's "___pdf___cache___" directory);
    `parent` is null when `cacheDir.parentFile?.listFiles()` gives null. */
module CacheHelper {
  import opened Wrappers
  import opened Jvm
  import opened JavaIo

  datatype CacheStrategy = MinimizeCache | MaximizePerformance

  function Max(a: int, b: int): int {
    if a >= b then a else b
  }

  // ------------------------------------------------------------------
  // MINIMIZE_CACHE

  /** The listing after `clearAllPreviousCache(keepFileName)`. */
  function KeepOnly(es: seq<FileEntry>, keepFileName: string): seq<FileEntry> {
    Without(es, NamesOf(es) - {keepFileName})
  }

  /** MINIMIZE_CACHE deletes every child whose name differs from the kept one,
      so at most that one child is left. */
  lemma KeepOnlyKeepsNamed(es: seq<FileEntry>, keepFileName: string)
    requires DistinctNames(es)
    ensures forall e :: e in KeepOnly(es, keepFileName) <==> e in es && e.name == keepFileName
    ensures |KeepOnly(es, keepFileName)| <= 1
  {
    var r := KeepOnly(es, keepFileName);
    WithoutMembers(es, NamesOf(es) - {keepFileName});
    WithoutKeepsDistinct(es, NamesOf(es) - {keepFileName});
    forall e | e in es && e.name != keepFileName
      ensures e.name in NamesOf(es) - {keepFileName}
    {
      var i :| 0 <= i < |es| && es[i] == e;
    }
    AtMostOneNamed(r, keepFileName);
  }

  /** A listing with distinct names whose children all share one name holds at most one child. */
  lemma AtMostOneNamed(es: seq<FileEntry>, name: string)
    requires DistinctNames(es)
    requires forall e :: e in es ==> e.name == name
    ensures |es| <= 1
  {
    DistinctNamesCount(es);
    if es != [] {
      assert es[0] in es;
      assert NamesOf(es) == {name};
    }
  }

  /** A listing with distinct names has as many names as children. */
  lemma {:induction false} DistinctNamesCount(es: seq<FileEntry>)
    requires DistinctNames(es)
    ensures |NamesOf(es)| == |es|
  {
    if es != [] {
      var p := es[..|es| - 1];
      DistinctNamesCount(p);
      assert es[|es| - 1].name !in NamesOf(p);
    }
  }

  /** `clearAllPreviousCache(origin, cacheDir, keepFileName)`. */
  method ClearAllPreviousCache(parent: Directory?, keepFileName: string)
    requires parent != null ==> parent.Valid()
    modifies parent
    ensures parent != null ==> parent.Valid() && parent.entries == KeepOnly(old(parent.entries), keepFileName)
  {
    if parent == null {
      return;
    }
    var cachedFiles := parent.entries;
    var i := 0;
    while i < |cachedFiles|
      invariant 0 <= i <= |cachedFiles|
      invariant parent.Valid()
      invariant parent.entries == Kept(cachedFiles, keepFileName, i)
    {
      if cachedFiles[i].name != keepFileName {
        parent.Delete(cachedFiles[i].name);
      }
      i := i + 1;
    }
    KeptIsKeepOnly(cachedFiles, keepFileName, i);
  }

  /** The listing once the loop of `clearAllPreviousCache` has visited the
      first i children: each visited child not named `keepFileName` deleted. */
  function Kept(es: seq<FileEntry>, keepFileName: string, i: nat): seq<FileEntry>
    requires i <= |es|
  {
    if i == 0 then es
    else if es[i - 1].name == keepFileName then Kept(es, keepFileName, i - 1)
    else Without(Kept(es, keepFileName, i - 1), {es[i - 1].name})
  }

  /** After visiting i children, exactly the visited names other than the kept
      one are deleted; after all of them, the listing is `KeepOnly`. */
  lemma {:induction false} KeptIsKeepOnly(es: seq<FileEntry>, keepFileName: string, i: nat)
    requires i <= |es|
    ensures Kept(es, keepFileName, i) == Without(es, NamesOf(es[..i]) - {keepFileName})
    ensures i == |es| ==> Kept(es, keepFileName, i) == KeepOnly(es, keepFileName)
  {
    if i == 0 {
      assert NamesOf(es[..0]) - {keepFileName} == {};
      WithoutAbsent(es, {});
    } else {
      KeptIsKeepOnly(es, keepFileName, i - 1);
      KeepStep(es, keepFileName, i - 1);
    }
    if i == |es| {
      assert es[..i] == es;
    }
  }

  /** One step of `clearAllPreviousCache`: the child at `i` joins the deleted
      names unless it is the kept one. */
  lemma KeepStep(es: seq<FileEntry>, keepFileName: string, i: nat)
    requires i < |es|
    ensures es[i].name == keepFileName ==>
              NamesOf(es[..i + 1]) - {keepFileName} == NamesOf(es[..i]) - {keepFileName}
    ensures es[i].name != keepFileName ==>
              Without(Without(es, NamesOf(es[..i]) - {keepFileName}), {es[i].name}) ==
              Without(es, NamesOf(es[..i + 1]) - {keepFileName})
  {
    NamesOfExtend(es, i);
    WithoutTwice(es, NamesOf(es[..i]) - {keepFileName}, {es[i].name});
    if es[i].name != keepFileName {
      assert NamesOf(es[..i + 1]) - {keepFileName} == NamesOf(es[..i]) - {keepFileName} + {es[i].name};
    }
  }

  // ------------------------------------------------------------------
  // MAXIMIZE_PERFORMANCE

  /** `listFiles().filter { it.isDirectory }`. */
  function Folders(es: seq<FileEntry>): (r: seq<FileEntry>)
    ensures forall e :: e in r <==> e in es && e.isDirectory
    ensures |r| <= |es|
  {
    if es == [] then []
    else if es[0].isDirectory then [es[0]] + Folders(es[1..])
    else Folders(es[1..])
  }

  /** `minByOrNull { it.lastModified() }` on a non-empty list: the position of
      the first entry whose modification time is minimal. */
  function OldestIndex(es: seq<FileEntry>): (k: nat)
    requires es != []
    ensures k < |es|
    ensures forall j :: 0 <= j < |es| ==> es[k].lastModified <= es[j].lastModified
    ensures forall j :: 0 <= j < k ==> es[j].lastModified > es[k].lastModified
  {
    if |es| == 1 then 0
    else
      var k := OldestIndex(es[..|es| - 1]);
      if es[|es| - 1].lastModified < es[k].lastModified then |es| - 1 else k
  }

  /** The folder `enforceCacheLimit` evicts, if any: the least recently
      modified folder, once there are at least max(maxCachedPdfs, 1) folders. */
  function Victim(es: seq<FileEntry>, maxCachedPdfs: int): (v: Option<FileEntry>)
    ensures v.Some? <==> |Folders(es)| >= Max(maxCachedPdfs, 1)
    ensures v.Some? ==> v.value in es && v.value.isDirectory
    ensures v.Some? ==> forall e :: e in es && e.isDirectory ==> v.value.lastModified <= e.lastModified
  {
    var folders := Folders(es);
    if |folders| >= Max(maxCachedPdfs, 1) then
      var k := OldestIndex(folders);
      assert forall e :: e in folders ==> exists j :: 0 <= j < |folders| && folders[j] == e;
      Some(folders[k])
    else None
  }

  /** The listing after `enforceCacheLimit(maxCachedPdfs)`. */
  function AfterEnforce(es: seq<FileEntry>, maxCachedPdfs: int): seq<FileEntry> {
    match Victim(es, maxCachedPdfs)
    case None => es
    case Some(v) => Without(es, {v.name})
  }

  /** Deleting a present name from a listing with distinct names removes one entry. */
  lemma {:induction false} WithoutOnePresent(es: seq<FileEntry>, e: FileEntry)
    requires DistinctNames(es) && e in es
    ensures |Without(es, {e.name})| == |es| - 1
  {
    if es[0] == e {
      assert forall i :: 1 <= i < |es| ==> es[i].name != e.name;
      assert forall i :: 0 <= i < |es[1..]| ==> es[1..][i].name !in {e.name};
      WithoutAbsent(es[1..], {e.name});
    } else {
      assert e in es[1..];
      WithoutOnePresent(es[1..], e);
    }
  }

  /** Limit enforcement: files are never deleted; at most one folder goes, and
      only when there are at least max(maxCachedPdfs, 1) folders. */
  lemma EnforceLimitEvictsAtMostOneFolder(es: seq<FileEntry>, maxCachedPdfs: int)
    requires DistinctNames(es)
    ensures forall e :: e in es && !e.isDirectory ==> e in AfterEnforce(es, maxCachedPdfs)
    ensures |Folders(es)| < Max(maxCachedPdfs, 1) ==> AfterEnforce(es, maxCachedPdfs) == es
    ensures |Folders(es)| >= Max(maxCachedPdfs, 1) ==> |AfterEnforce(es, maxCachedPdfs)| == |es| - 1
  {
    var v := Victim(es, maxCachedPdfs);
    if v.Some? {
      WithoutOnePresent(es, v.value);
      WithoutMembers(es, {v.value.name});
    }
  }

  /** A limit of zero or less acts as a limit of one. */
  lemma NonPositiveLimitActsAsOne(es: seq<FileEntry>, maxCachedPdfs: int)
    requires maxCachedPdfs <= 0
    ensures AfterEnforce(es, maxCachedPdfs) == AfterEnforce(es, 1)
  {
  }

  /** The listing after `handleCacheStrategy`. */
  function AfterStrategy(es: seq<FileEntry>, strategy: CacheStrategy, cacheDirName: string,
                         newFileName: string, maxCachedPdfs: int, now: nat): seq<FileEntry>
  {
    match strategy
    case MinimizeCache => KeepOnly(es, newFileName)
    case MaximizePerformance => AfterEnforce(Touched(es, cacheDirName, now), maxCachedPdfs)
  }

  /** After touching, every child named `name` carries the time `time`. */
  lemma TouchedCarriesTime(es: seq<FileEntry>, name: string, time: int)
    ensures forall e :: e in Touched(es, name, time) && e.name == name ==> e.lastModified == time
  {
    var t := Touched(es, name, time);
    forall e | e in t && e.name == name
      ensures e.lastModified == time
    {
      var i :| 0 <= i < |t| && t[i] == e;
    }
  }

  /** Under MAXIMIZE_PERFORMANCE the folder just opened survives whenever another
      folder exists and "now" is later than every other folder's time: touching
      it first makes some other folder the least recently modified. */
  lemma OpenedFolderSurvives(es: seq<FileEntry>, cacheDirName: string, maxCachedPdfs: int, now: nat)
    requires exists i | 0 <= i < |es| :: es[i].name == cacheDirName
    requires exists i | 0 <= i < |es| :: es[i].name != cacheDirName && es[i].isDirectory
    requires forall i :: 0 <= i < |es| && es[i].name != cacheDirName ==> es[i].lastModified < now
    ensures HasEntry(AfterStrategy(es, MaximizePerformance, cacheDirName, "", maxCachedPdfs, now), cacheDirName)
  {
    var t := Touched(es, cacheDirName, now);
    var c :| 0 <= c < |es| && es[c].name == cacheDirName;
    var o :| 0 <= o < |es| && es[o].name != cacheDirName && es[o].isDirectory;
    TouchedCarriesTime(es, cacheDirName, now);
    VictimSparesFresh(t, cacheDirName, now, maxCachedPdfs, o);
    assert t[c].name == cacheDirName;
    var v := Victim(t, maxCachedPdfs);
    if v.Some? {
      SurvivesDeletion(t, c, {v.value.name});
    } else {
      assert HasEntry(t, t[c].name);
    }
  }

  /** A child whose name is not deleted is still there afterwards. */
  lemma SurvivesDeletion(es: seq<FileEntry>, i: nat, gone: set<string>)
    requires i < |es| && es[i].name !in gone
    ensures HasEntry(Without(es, gone), es[i].name)
  {
    WithoutMembers(es, gone);
    var r := Without(es, gone);
    assert es[i] in r;
    var j :| 0 <= j < |r| && r[j] == es[i];
  }

  /** A folder older than `now` is evicted before any child stamped `now`. */
  lemma VictimSparesFresh(t: seq<FileEntry>, name: string, now: int, maxCachedPdfs: int, o: nat)
    requires o < |t| && t[o].isDirectory && t[o].lastModified < now
    requires forall e :: e in t && e.name == name ==> e.lastModified == now
    ensures Victim(t, maxCachedPdfs).Some? ==> Victim(t, maxCachedPdfs).value.name != name
  {
    assert t[o] in t;
  }

  /** Under MAXIMIZE_PERFORMANCE, when the opened folder is the only folder and
      the limit is at most one, that very folder is evicted. */
  lemma LoneFolderEvicted(es: seq<FileEntry>, cacheDirName: string, maxCachedPdfs: int, now: nat)
    requires DistinctNames(es) && maxCachedPdfs <= 1
    requires forall i :: 0 <= i < |es| ==> (es[i].isDirectory <==> es[i].name == cacheDirName)
    requires HasEntry(es, cacheDirName)
    ensures !HasEntry(AfterStrategy(es, MaximizePerformance, cacheDirName, "", maxCachedPdfs, now), cacheDirName)
  {
    var t := Touched(es, cacheDirName, now);
    var c :| 0 <= c < |es| && es[c].name == cacheDirName;
    assert t[c] in Folders(t);
    var v := Victim(t, maxCachedPdfs);
    assert v.Some?;
    assert v.value.name == cacheDirName;
    WithoutMembers(t, {cacheDirName});
  }

  /** `updateCacheAccessTime(cacheDir)`: `cacheDir.setLastModified(now)`. */
  method UpdateCacheAccessTime(parent: Directory?, cacheDirName: string, now: nat)
    requires parent != null ==> parent.Valid()
    modifies parent
    ensures parent != null ==> parent.Valid() && parent.entries == Touched(old(parent.entries), cacheDirName, now)
  {
    if parent != null {
      parent.SetLastModified(cacheDirName, now);
    }
  }

  /** `enforceCacheLimit(origin, cacheDir, maxCachedPdfs)`. */
  method EnforceCacheLimit(parent: Directory?, maxCachedPdfs: Int32)
    requires parent != null ==> parent.Valid()
    modifies parent
    ensures parent != null ==> parent.Valid() && parent.entries == AfterEnforce(old(parent.entries), maxCachedPdfs)
  {
    if parent == null {
      return;
    }
    var cachedFolders := Folders(parent.entries);
    if |cachedFolders| >= Max(maxCachedPdfs, 1) {
      var oldest := cachedFolders[OldestIndex(cachedFolders)];
      parent.Delete(oldest.name);
    }
  }

  /** `handleCacheStrategy(origin, cacheDir, cacheStrategy, newFileName, maxCachedPdfs)`,
      with the clock reading `now`. */
  method HandleCacheStrategy(parent: Directory?, cacheDirName: string, cacheStrategy: CacheStrategy,
                             newFileName: string, maxCachedPdfs: Int32, now: nat)
    requires parent != null ==> parent.Valid()
    modifies parent
    ensures parent != null ==> parent.Valid()
    ensures parent != null ==>
              parent.entries == AfterStrategy(old(parent.entries), cacheStrategy, cacheDirName,
                                              newFileName, maxCachedPdfs, now)
  {
    match cacheStrategy
    case MinimizeCache =>
      ClearAllPreviousCache(parent, newFileName);
    case MaximizePerformance =>
      UpdateCacheAccessTime(parent, cacheDirName, now);
      EnforceCacheLimit(parent, maxCachedPdfs);
  }
}
