/** PdfDownloader.kt: fetching a remote PDF into the app's cache directory.
    A URL's cache file is named from its hash code; a cached copy is reused,
    otherwise the file is downloaded in up to three attempts, each reported to
    the listener as it goes.

    The network is a function from the attempt number (0, 1, 2) to what that
    attempt meets: an IOException before any byte arrives, or a reported
    content length with the chunks the stream then delivers and, possibly, an
    IOException that ends the reading. */
module PdfDownloader {
  import opened Wrappers
  import opened Jvm
  import opened JavaIo
  import FileUtils

  /** `MAX_RETRIES`: the number of attempts. */
  const MAX_RETRIES: nat := 3

  /** The calls the downloader makes on its `StatusListener`. */
  datatype Event =
    | DownloadStart
    | DownloadProgress(currentBytes: int, totalBytes: int)
    | DownloadSuccess(absolutePath: string)
    | Error(error: Throwable)

  /** An IOException: its class and its message. */
  datatype IoError = IoError(kind: IoKind, message: Option<string>)

  function AsThrowable(e: IoError): Throwable {
    IoException(e.kind, e.message)
  }

  /** What one attempt meets. `Refused`: `createTempFile`, `openConnection`,
      `getInputStream` or `FileOutputStream(tempFile)` throws. `Served`: the
      connection reports `contentLength` (-1 when unknown) and the stream
      delivers `chunks`, then ends or throws `readError`. */
  datatype Attempt =
    | Refused(error: IoError)
    | Served(contentLength: int, chunks: seq<Chunk>, readError: Option<IoError>)

  type Network = nat -> Attempt

  /** The stream a served attempt reads. */
  function Body(a: Attempt): FileUtils.InputStream
    requires a.Served?
  {
    FileUtils.InputStream(a.chunks, if a.readError.Some? then Some(AsThrowable(a.readError.value)) else None)
  }

  /** The exception thrown when the file's length differs from the reported one. */
  const INCOMPLETE: Throwable := IoException(PlainIo, Some("Incomplete download"))

  /** The exception reported once the last attempt has failed. */
  function FinalError(url: string): Throwable {
    IoException(PlainIo, Some("Failed to download after 3 attempts: " + url))
  }

  /** How an attempt ends: the bytes moved into the cache file, or the
      IOException caught. It succeeds exactly when the stream ends normally and
      the bytes written number the reported content length. */
  function AttemptOutcome(a: Attempt): (r: Result<seq<byte>, Throwable>)
    ensures r.Success? <==> a.Served? && a.readError.None? && |FileUtils.Concat(a.chunks)| == a.contentLength
    ensures r.Success? ==> r.value == FileUtils.Concat(a.chunks)
    ensures a.Refused? ==> r == Failure(AsThrowable(a.error))
    ensures a.Served? && a.readError.Some? ==> r == Failure(AsThrowable(a.readError.value))
    ensures a.Served? && a.readError.None? && r.Failure? ==> r.error == INCOMPLETE
  {
    match a
    case Refused(e) => Failure(AsThrowable(e))
    case Served(contentLength, chunks, readError) =>
      if readError.Some? then Failure(AsThrowable(readError.value))
      else if |FileUtils.Concat(chunks)| == contentLength then Success(FileUtils.Concat(chunks))
      else Failure(INCOMPLETE)
  }

  /** The `onDownloadProgress(totalBytesRead, totalLength)` calls of an attempt:
      one per chunk read, with the running total. */
  function ProgressEvents(a: Attempt): (es: seq<Event>)
    ensures a.Refused? ==> es == []
    ensures a.Served? ==> |es| == |a.chunks|
    ensures a.Served? ==> forall k :: 0 <= k < |es| ==>
              es[k] == DownloadProgress(|FileUtils.Concat(a.chunks[..k + 1])|, a.contentLength)
  {
    if a.Refused? then []
    else
      seq(|a.chunks|, k requires 0 <= k < |a.chunks| =>
        DownloadProgress(|FileUtils.Concat(a.chunks[..k + 1])|, a.contentLength))
  }

  /** The events of one attempt whose cache file would be at `path`. */
  function AttemptEvents(a: Attempt, path: string): seq<Event> {
    [DownloadStart] + ProgressEvents(a) +
      match AttemptOutcome(a)
      case Success(_) => [DownloadSuccess(path)]
      case Failure(e) => [Error(e)]
  }

  /** The events of `download` from attempt number `retries` on. */
  function Run(network: Network, url: string, path: string, retries: nat): seq<Event>
    decreases MAX_RETRIES - retries
  {
    if retries >= MAX_RETRIES then []
    else
      var a := network(retries);
      AttemptEvents(a, path) +
        if AttemptOutcome(a).Success? then []
        else if retries + 1 < MAX_RETRIES then Run(network, url, path, retries + 1)
        else [Error(FinalError(url))]
  }

  /** The bytes stored by the first attempt from number `retries` on that succeeds, if any. */
  function Stored(network: Network, retries: nat): Option<seq<byte>>
    decreases MAX_RETRIES - retries
  {
    if retries >= MAX_RETRIES then None
    else
      match AttemptOutcome(network(retries))
      case Success(content) => Some(content)
      case Failure(_) => Stored(network, retries + 1)
  }

  /** The cache directory after `download`; a successful attempt renames its
      temporary file, written at time `now`, to `name`. Failed attempts delete
      their temporary file again. */
  function AfterDownload(es: seq<FileEntry>, name: string, network: Network, now: nat): seq<FileEntry> {
    match Stored(network, 0)
    case None => es
    case Some(content) => Without(es, {name}) + [FileEntry(name, false, now, content)]
  }

  // ------------------------------------------------------------------
  // Counting events

  function Starts(es: seq<Event>): nat {
    if es == [] then 0 else (if es[0].DownloadStart? then 1 else 0) + Starts(es[1..])
  }

  function Successes(es: seq<Event>): nat {
    if es == [] then 0 else (if es[0].DownloadSuccess? then 1 else 0) + Successes(es[1..])
  }

  lemma {:induction false} CountsAppend(a: seq<Event>, b: seq<Event>)
    ensures Starts(a + b) == Starts(a) + Starts(b)
    ensures Successes(a + b) == Successes(a) + Successes(b)
  {
    if a == [] {
      assert a + b == b;
    } else {
      assert (a + b)[1..] == a[1..] + b;
      CountsAppend(a[1..], b);
    }
  }

  lemma {:induction false} CountsOfProgress(es: seq<Event>)
    requires forall k :: 0 <= k < |es| ==> es[k].DownloadProgress?
    ensures Starts(es) == 0 && Successes(es) == 0
  {
    if es != [] {
      CountsOfProgress(es[1..]);
    }
  }

  /** One attempt starts once and reports success exactly when it succeeds. */
  lemma AttemptCounts(a: Attempt, path: string)
    ensures Starts(AttemptEvents(a, path)) == 1
    ensures Successes(AttemptEvents(a, path)) == if AttemptOutcome(a).Success? then 1 else 0
    ensures AttemptEvents(a, path)[0] == DownloadStart
  {
    var p := ProgressEvents(a);
    var last := match AttemptOutcome(a) case Success(_) => [DownloadSuccess(path)] case Failure(e) => [Error(e)];
    CountsOfProgress(p);
    CountsAppend([DownloadStart], p);
    CountsAppend([DownloadStart] + p, last);
  }

  // ------------------------------------------------------------------
  // What a download reports

  /** The number of attempts made from attempt number `r` on: up to and
      including the first that succeeds, and at most the remaining ones. */
  function AttemptsUsed(network: Network, r: nat): nat
    decreases MAX_RETRIES - r
  {
    if r >= MAX_RETRIES then 0
    else if AttemptOutcome(network(r)).Success? then 1
    else 1 + AttemptsUsed(network, r + 1)
  }

  /** Every attempt made starts with `onDownloadStart`, and only then. */
  lemma {:induction false} StartsCountAttempts(network: Network, url: string, path: string, r: nat)
    ensures Starts(Run(network, url, path, r)) == AttemptsUsed(network, r)
    decreases MAX_RETRIES - r
  {
    if r < MAX_RETRIES {
      var a := network(r);
      RunUnfold(network, url, path, r);
      AttemptCounts(a, path);
      if AttemptOutcome(a).Success? {
        CountsAppend(AttemptEvents(a, path), []);
      } else if r + 1 < MAX_RETRIES {
        StartsCountAttempts(network, url, path, r + 1);
        CountsAppend(AttemptEvents(a, path), Run(network, url, path, r + 1));
      } else {
        CountsAppend(AttemptEvents(a, path), [Error(FinalError(url))]);
        assert Starts([Error(FinalError(url))]) == 0;
      }
    }
  }

  /** From attempt `r` on: at least one and at most the remaining number of
      attempts are made; every attempt before the last one made failed; the
      last one made succeeded exactly when the download stores a file; and
      fewer than all remaining attempts are made only after a success. */
  lemma {:induction false} AttemptsUsedBounds(network: Network, r: nat)
    requires r < MAX_RETRIES
    ensures var n := AttemptsUsed(network, r);
            && 1 <= n <= MAX_RETRIES - r
            && (forall k :: r <= k < r + n - 1 ==> AttemptOutcome(network(k)).Failure?)
            && (Stored(network, r).Some? <==> AttemptOutcome(network(r + n - 1)).Success?)
            && (n < MAX_RETRIES - r ==> Stored(network, r).Some?)
    decreases MAX_RETRIES - r
  {
    if AttemptOutcome(network(r)).Failure? && r + 1 < MAX_RETRIES {
      AttemptsUsedBounds(network, r + 1);
    }
  }

  /** The `onDownloadStart` calls of a download count its attempts, which obey `AttemptsUsedBounds`. */
  lemma RunAttempts(network: Network, url: string, path: string)
    ensures var n := Starts(Run(network, url, path, 0));
            && 1 <= n <= MAX_RETRIES
            && (forall k :: 0 <= k < n - 1 ==> AttemptOutcome(network(k)).Failure?)
            && (Stored(network, 0).Some? <==> AttemptOutcome(network(n - 1)).Success?)
            && (n < MAX_RETRIES ==> Stored(network, 0).Some?)
  {
    StartsCountAttempts(network, url, path, 0);
    AttemptsUsedBounds(network, 0);
  }

  /** From attempt `r` on the download begins with `onDownloadStart`, reports
      success at most once, and ends with the success when a file is stored
      and with the final error otherwise. */
  lemma RunOutcome(network: Network, url: string, path: string, r: nat)
    requires r < MAX_RETRIES
    ensures var es := Run(network, url, path, r);
            && |es| >= 2
            && es[0] == DownloadStart
            && Successes(es) == (if Stored(network, r).Some? then 1 else 0)
            && (Stored(network, r).Some? ==> es[|es| - 1] == DownloadSuccess(path))
            && (Stored(network, r).None? ==> es[|es| - 1] == Error(FinalError(url)))
  {
    RunSplit(network, url, path, r);
    AttemptEnds(network(r), path);
    RunSuccesses(network, url, path, r);
    RunLast(network, url, path, r);
  }

  /** The rest of the events after attempt `r`. */
  function RunRest(network: Network, url: string, path: string, r: nat): seq<Event>
    requires r < MAX_RETRIES
  {
    if AttemptOutcome(network(r)).Success? then []
    else if r + 1 < MAX_RETRIES then Run(network, url, path, r + 1)
    else [Error(FinalError(url))]
  }

  lemma RunSplit(network: Network, url: string, path: string, r: nat)
    requires r < MAX_RETRIES
    ensures Run(network, url, path, r) == AttemptEvents(network(r), path) + RunRest(network, url, path, r)
  {
  }

  /** From attempt `r` on, success is reported once when a file is stored, and never otherwise. */
  lemma {:induction false} RunSuccesses(network: Network, url: string, path: string, r: nat)
    requires r < MAX_RETRIES
    ensures Successes(Run(network, url, path, r)) == if Stored(network, r).Some? then 1 else 0
    decreases MAX_RETRIES - r
  {
    var ev, rest := AttemptEvents(network(r), path), RunRest(network, url, path, r);
    RunSplit(network, url, path, r);
    RunUnfold(network, url, path, r);
    AttemptCounts(network(r), path);
    CountsAppend(ev, rest);
    if AttemptOutcome(network(r)).Failure? {
      if r + 1 < MAX_RETRIES {
        RunSuccesses(network, url, path, r + 1);
      } else {
        assert Successes(rest) == 0;
      }
    }
  }

  /** The end of the events from attempt `r` on: the success when a file is
      stored, and the final error otherwise. */
  lemma {:induction false} RunLast(network: Network, url: string, path: string, r: nat)
    requires r < MAX_RETRIES
    ensures Run(network, url, path, r) != []
    ensures Last(Run(network, url, path, r)) ==
              if Stored(network, r).Some? then DownloadSuccess(path) else Error(FinalError(url))
    decreases MAX_RETRIES - r
  {
    StoredStep(network, r);
    if AttemptOutcome(network(r)).Success? {
      LastOfSuccess(network, url, path, r);
    } else if r + 1 < MAX_RETRIES {
      RunLast(network, url, path, r + 1);
      LastOfRetry(network, url, path, r);
    } else {
      LastOfFinal(network, url, path, r);
    }
  }

  function Last(es: seq<Event>): Event
    requires es != []
  {
    es[|es| - 1]
  }

  lemma LastOfAppend(a: seq<Event>, b: seq<Event>)
    requires b != []
    ensures Last(a + b) == Last(b)
  {
  }

  /** An attempt's events are at least a start and an end, and end with its outcome. */
  lemma AttemptEnds(a: Attempt, path: string)
    ensures var ev := AttemptEvents(a, path);
            && |ev| >= 2 && ev[0] == DownloadStart
            && Last(ev) == match AttemptOutcome(a) case Success(_) => DownloadSuccess(path) case Failure(e) => Error(e)
  {
  }

  lemma LastOfSuccess(network: Network, url: string, path: string, r: nat)
    requires r < MAX_RETRIES && AttemptOutcome(network(r)).Success?
    ensures Run(network, url, path, r) != [] && Last(Run(network, url, path, r)) == DownloadSuccess(path)
  {
    RunSplit(network, url, path, r);
    AttemptEnds(network(r), path);
    assert Run(network, url, path, r) == AttemptEvents(network(r), path) + [];
  }

  lemma LastOfRetry(network: Network, url: string, path: string, r: nat)
    requires r + 1 < MAX_RETRIES && AttemptOutcome(network(r)).Failure?
    requires Run(network, url, path, r + 1) != []
    ensures Run(network, url, path, r) != []
    ensures Last(Run(network, url, path, r)) == Last(Run(network, url, path, r + 1))
  {
    RunSplit(network, url, path, r);
    LastOfAppend(AttemptEvents(network(r), path), Run(network, url, path, r + 1));
  }

  lemma LastOfFinal(network: Network, url: string, path: string, r: nat)
    requires r + 1 == MAX_RETRIES && AttemptOutcome(network(r)).Failure?
    ensures Run(network, url, path, r) != [] && Last(Run(network, url, path, r)) == Error(FinalError(url))
  {
    RunSplit(network, url, path, r);
    LastOfAppend(AttemptEvents(network(r), path), [Error(FinalError(url))]);
  }

  /** A download reports success exactly when it ends with success, and the
      final error exactly when it reports no success: the two never meet. */
  lemma SuccessExcludesFinalError(network: Network, url: string, path: string)
    ensures var es := Run(network, url, path, 0);
            && (Successes(es) == 1 <==> es[|es| - 1] == DownloadSuccess(path))
            && (Successes(es) == 0 <==> es[|es| - 1] == Error(FinalError(url)))
  {
    RunOutcome(network, url, path, 0);
  }

  /** A server whose reported length is negative (unknown) on every attempt
      never yields a stored file, however many bytes it sends. */
  lemma {:induction false} UnknownLengthNeverStores(network: Network, r: nat)
    requires forall k :: r <= k < MAX_RETRIES ==> network(k).Served? ==> network(k).contentLength < 0
    ensures Stored(network, r) == None
    decreases MAX_RETRIES - r
  {
    if r < MAX_RETRIES {
      UnknownLengthNeverStores(network, r + 1);
    }
  }

  /** After a successful download the cache file is present, so the next
      request for the same URL is a cache hit. */
  lemma DownloadedFileIsCached(es: seq<FileEntry>, name: string, network: Network, now: nat)
    requires Stored(network, 0).Some?
    ensures HasEntry(AfterDownload(es, name, network, now), name)
  {
    var r := AfterDownload(es, name, network, now);
    assert r[|r| - 1].name == name;
  }

  /** Clearing the cache for a file spares that file. */
  lemma ClearingSparesCurrent(es: seq<FileEntry>, name: string)
    requires HasEntry(es, name)
    ensures HasEntry(FileUtils.PdfCacheAfterClear(es, Some(name)), name)
  {
    var i :| 0 <= i < |es| && es[i].name == name;
    FileUtils.PdfCacheClearedExactly(es, Some(name));
    var r := FileUtils.PdfCacheAfterClear(es, Some(name));
    assert es[i] in r;
  }

  /** The cache file name: the same rule as `FileUtils.getCachedFileName`. */
  function GetCachedFileName(url: string): (name: string)
    ensures name == FileUtils.CachedFileName(url)
    ensures EndsWith(name, ".pdf")
  {
    IntToString(HashCode(url)) + ".pdf"
  }

  /** A `PdfDownloader` for `url` whose listener's context has the cache directory `cacheDir`. */
  class Downloader {
    const url: string
    const cacheDir: Directory
    var lastDownloadedFile: Option<string>

    ghost predicate Valid()
      reads this, cacheDir
    {
      cacheDir.Valid()
    }

    constructor (url: string, cacheDir: Directory)
      requires cacheDir.Valid()
      ensures Valid()
      ensures this.url == url && this.cacheDir == cacheDir && lastDownloadedFile == None
    {
      this.url := url;
      this.cacheDir := cacheDir;
      lastDownloadedFile := None;
    }

    /** `clearPdfCache(exceptFileName)`: the same deletion as `FileUtils.clearPdfCache`. */
    method ClearPdfCache(exceptFileName: Option<string>)
      requires Valid()
      modifies cacheDir
      ensures Valid()
      ensures cacheDir.entries == FileUtils.PdfCacheAfterClear(old(cacheDir.entries), exceptFileName)
    {
      FileUtils.ClearPdfCache(cacheDir, exceptFileName);
    }

    /** `checkAndDownload(url)`: the events reported, with the network in
        `network` and the clock reading `now`. */
    method CheckAndDownload(network: Network, now: nat) returns (events: seq<Event>)
      requires Valid()
      modifies this, cacheDir
      ensures Valid()
      ensures lastDownloadedFile == Some(FileUtils.CachedFileName(url))
      ensures var name := FileUtils.CachedFileName(url);
              var path := ChildPath(cacheDir.path, name);
              var listing := if old(lastDownloadedFile) != Some(name)
                             then FileUtils.PdfCacheAfterClear(old(cacheDir.entries), Some(name))
                             else old(cacheDir.entries);
              if HasEntry(listing, name) then
                events == [DownloadSuccess(path)] && cacheDir.entries == listing
              else
                && events == Run(network, url, path, 0)
                && cacheDir.entries == AfterDownload(listing, name, network, now)
    {
      var cachedFileName := GetCachedFileName(url);
      if lastDownloadedFile != Some(cachedFileName) {
        ClearPdfCache(Some(cachedFileName));
      }
      if HasEntry(cacheDir.entries, cachedFileName) {
        events := [DownloadSuccess(ChildPath(cacheDir.path, cachedFileName))];
      } else {
        events := Download(network, cachedFileName, now);
      }
      lastDownloadedFile := Some(cachedFileName);
    }

    /** `download(url, cachedFileName)`: the retry loop. */
    method Download(network: Network, cachedFileName: string, now: nat) returns (events: seq<Event>)
      requires Valid()
      modifies cacheDir
      ensures Valid()
      ensures events == Run(network, url, ChildPath(cacheDir.path, cachedFileName), 0)
      ensures cacheDir.entries == AfterDownload(old(cacheDir.entries), cachedFileName, network, now)
    {
      var path := ChildPath(cacheDir.path, cachedFileName);
      events := [];
      var retries := 0;
      ghost var done := false;
      while retries < MAX_RETRIES
        invariant 0 <= retries <= MAX_RETRIES
        invariant cacheDir.Valid()
        invariant events + Run(network, url, path, retries) == Run(network, url, path, 0)
        invariant done ==> retries == MAX_RETRIES
        invariant !done ==> Stored(network, retries) == Stored(network, 0) && cacheDir.entries == old(cacheDir.entries)
        invariant done ==> cacheDir.entries == AfterDownload(old(cacheDir.entries), cachedFileName, network, now)
      {
        var attempt := network(retries);
        var outcome, progress := RunAttempt(attempt);
        RunUnfold(network, url, path, retries);
        match outcome {
          case Success(content) =>
            var reported := [DownloadStart] + progress + [DownloadSuccess(path)];
            assert reported == AttemptEvents(attempt, path);
            cacheDir.Store(FileEntry(cachedFileName, false, now, content));
            events := events + reported;
            retries := MAX_RETRIES;
            done := true;
          case Failure(e) =>
            var reported := [DownloadStart] + progress + [Error(e)];
            assert reported == AttemptEvents(attempt, path);
            retries := retries + 1;
            if retries < MAX_RETRIES {
              AppendAssoc(events, reported, Run(network, url, path, retries));
              events := events + reported;
            } else {
              AppendAssoc(events, reported, [Error(FinalError(url))]);
              events := events + reported + [Error(FinalError(url))];
            }
        }
      }
    }
  }

  lemma AppendAssoc(a: seq<Event>, b: seq<Event>, c: seq<Event>)
    ensures a + b + c == a + (b + c)
  {
  }

  /** A failed attempt leaves the stored file to the next attempts; a
      successful one stores its bytes. */
  lemma StoredStep(network: Network, r: nat)
    requires r < MAX_RETRIES
    ensures AttemptOutcome(network(r)).Failure? ==> Stored(network, r) == Stored(network, r + 1)
    ensures AttemptOutcome(network(r)).Success? ==> Stored(network, r) == Some(AttemptOutcome(network(r)).value)
  {
  }

  /** One step of the retry loop. */
  lemma RunUnfold(network: Network, url: string, path: string, r: nat)
    requires r < MAX_RETRIES
    ensures Run(network, url, path, r) ==
              AttemptEvents(network(r), path) +
                if AttemptOutcome(network(r)).Success? then []
                else if r + 1 < MAX_RETRIES then Run(network, url, path, r + 1)
                else [Error(FinalError(url))]
    ensures Stored(network, r) ==
              if AttemptOutcome(network(r)).Success? then Some(AttemptOutcome(network(r)).value)
              else Stored(network, r + 1)
  {
  }

  /** The body of one attempt after `onDownloadStart`: read the stream into
      the temporary file, reporting progress, then compare its length with
      the reported one. */
  method RunAttempt(attempt: Attempt) returns (outcome: Result<seq<byte>, Throwable>, progress: seq<Event>)
    ensures outcome == AttemptOutcome(attempt)
    ensures progress == ProgressEvents(attempt)
  {
    match attempt
    case Refused(e) =>
      outcome, progress := Failure(AsThrowable(e)), [];
    case Served(totalLength, chunks, readError) =>
      var written, totals, thrown := FileUtils.WriteFile(Body(attempt), totalLength, None);
      progress := seq(|totals|, k requires 0 <= k < |totals| => DownloadProgress(totals[k], totalLength));
      if thrown.Some? {
        outcome := Failure(thrown.value);
      } else if |written| == totalLength {
        outcome := Success(written);
      } else {
        outcome := Failure(INCOMPLETE);
      }
  }
}
