/** FileUtils.kt: the cache file names, clearing cached PDFs, copying a stream
    into a file, and the `%PDF` validity check. */
module FileUtils {
  import opened Wrappers
  import opened Jvm
  import opened JavaIo

  // ------------------------------------------------------------------
  // Cache file names

  /** `getCachedFileName(url)`: the decimal text of `url.hashCode()`, then ".pdf". */
  function CachedFileName(url: string): (name: string)
    ensures EndsWith(name, ".pdf")
    ensures name[..|name| - 4] == IntToString(Wrap(PolySum(Utf16(url))))
  {
    IntToString(HashCode(url)) + ".pdf"
  }

  /** Two URLs share a cache file exactly when their hash codes are equal. */
  lemma CachedFileNameCollision(u1: string, u2: string)
    ensures CachedFileName(u1) == CachedFileName(u2) <==> HashCode(u1) == HashCode(u2)
  {
    var n1, n2 := CachedFileName(u1), CachedFileName(u2);
    if n1 == n2 {
      assert IntToString(HashCode(u1)) == n1[..|n1| - 4] == n2[..|n2| - 4] == IntToString(HashCode(u2));
      IntToStringInjective(HashCode(u1), HashCode(u2));
    }
  }

  /** `cachedFileNameWithFormat(name, format)`: the text of `name`, then `format`,
      which is ".jpg" unless given. */
  function CachedFileNameWithFormat(name: string, format: string := ".jpg"): (r: string)
    ensures |r| == |name| + |format| && r[..|name|] == name && r[|name|..] == format
  {
    name + format
  }

  /** The page files of CacheManager, named by page number with the default
      format, are distinct for distinct pages. */
  lemma PageFileNamesDistinct(p: int, q: int)
    ensures CachedFileNameWithFormat(IntToString(p)) == CachedFileNameWithFormat(IntToString(q)) <==> p == q
  {
    var a, b := CachedFileNameWithFormat(IntToString(p)), CachedFileNameWithFormat(IntToString(q));
    if a == b {
      assert IntToString(p) == a[..|a| - 4] == b[..|b| - 4] == IntToString(q);
      IntToStringInjective(p, q);
    }
  }

  // ------------------------------------------------------------------
  // clearPdfCache

  /** The filter of `clearPdfCache`: a name ending in ".pdf" other than
      `exceptFileName` (every ".pdf" name when it is null). */
  predicate ClearedByPdfCache(name: string, exceptFileName: Option<string>) {
    EndsWith(name, ".pdf") && exceptFileName != Some(name)
  }

  /** The names `clearPdfCache` deletes from a listing. */
  function PdfCacheDoomed(es: seq<FileEntry>, exceptFileName: Option<string>): set<string> {
    set e | e in es && ClearedByPdfCache(e.name, exceptFileName) :: e.name
  }

  /** The cache directory after `clearPdfCache`. */
  function PdfCacheAfterClear(es: seq<FileEntry>, exceptFileName: Option<string>): seq<FileEntry> {
    Without(es, PdfCacheDoomed(es, exceptFileName))
  }

  /** Exactly the ".pdf" entries other than `exceptFileName` are gone, and every
      other entry is still there, in the same order. */
  lemma PdfCacheClearedExactly(es: seq<FileEntry>, exceptFileName: Option<string>)
    ensures forall e :: e in PdfCacheAfterClear(es, exceptFileName) <==>
              e in es && !ClearedByPdfCache(e.name, exceptFileName)
    ensures exceptFileName.Some? && HasEntry(es, exceptFileName.value) ==>
              HasEntry(PdfCacheAfterClear(es, exceptFileName), exceptFileName.value)
  {
    WithoutMembers(es, PdfCacheDoomed(es, exceptFileName));
    if exceptFileName.Some? && HasEntry(es, exceptFileName.value) {
      var i :| 0 <= i < |es| && es[i].name == exceptFileName.value;
      assert es[i] in PdfCacheAfterClear(es, exceptFileName);
      var r := PdfCacheAfterClear(es, exceptFileName);
      var j :| 0 <= j < |r| && r[j] == es[i];
    }
  }

  /** `listFiles { _, name -> name.endsWith(".pdf") && name != exceptFileName }`. */
  function ListPdfCache(es: seq<FileEntry>, exceptFileName: Option<string>): (r: seq<FileEntry>)
    ensures forall e :: e in r <==> e in es && ClearedByPdfCache(e.name, exceptFileName)
  {
    if es == [] then []
    else if ClearedByPdfCache(es[0].name, exceptFileName) then [es[0]] + ListPdfCache(es[1..], exceptFileName)
    else ListPdfCache(es[1..], exceptFileName)
  }

  /** Deleting the listed files is deleting the doomed names. */
  lemma ListedAreDoomed(es: seq<FileEntry>, exceptFileName: Option<string>)
    ensures Without(es, NamesOf(ListPdfCache(es, exceptFileName))) == PdfCacheAfterClear(es, exceptFileName)
  {
    var listed := ListPdfCache(es, exceptFileName);
    forall k | 0 <= k < |es|
      ensures es[k].name in NamesOf(listed) <==> es[k].name in PdfCacheDoomed(es, exceptFileName)
    {
      if es[k].name in NamesOf(listed) {
        var m :| 0 <= m < |listed| && listed[m].name == es[k].name;
        assert listed[m] in listed;
      }
    }
    WithoutSameOnNames(es, NamesOf(listed), PdfCacheDoomed(es, exceptFileName));
  }

  /** `clearPdfCache(exceptFileName)` on the application's cache directory: list
      the matching files, then delete them one by one. */
  method ClearPdfCache(cacheDir: Directory, exceptFileName: Option<string>)
    requires cacheDir.Valid()
    modifies cacheDir
    ensures cacheDir.Valid()
    ensures cacheDir.entries == PdfCacheAfterClear(old(cacheDir.entries), exceptFileName)
  {
    var listing := cacheDir.entries;
    var pdfFiles := ListPdfCache(listing, exceptFileName);
    WithoutAbsent(listing, {});
    var i := 0;
    while i < |pdfFiles|
      invariant 0 <= i <= |pdfFiles|
      invariant cacheDir.Valid()
      invariant cacheDir.entries == Without(listing, NamesOf(pdfFiles[..i]))
    {
      cacheDir.Delete(pdfFiles[i].name);
      DeleteNext(listing, pdfFiles, i);
      i := i + 1;
    }
    assert pdfFiles[..i] == pdfFiles;
    ListedAreDoomed(listing, exceptFileName);
  }

  /** Deleting the next listed file extends the deleted prefix by one. */
  lemma DeleteNext(listing: seq<FileEntry>, files: seq<FileEntry>, i: nat)
    requires i < |files|
    ensures Without(Without(listing, NamesOf(files[..i])), {files[i].name}) == Without(listing, NamesOf(files[..i + 1]))
  {
    WithoutTwice(listing, NamesOf(files[..i]), {files[i].name});
    NamesOfExtend(files, i);
  }

  // ------------------------------------------------------------------
  // copy and writeFile

  /** What an `InputStream` delivers: the chunks of successive `read` calls, then
      either the end of the stream (`read` returns -1) or an IOException. */
  datatype InputStream = InputStream(chunks: seq<Chunk>, failure: Option<Throwable>)

  /** The bytes of the chunks, in order. */
  function Concat(cs: seq<Chunk>): seq<byte> {
    if cs == [] then [] else Concat(cs[..|cs| - 1]) + cs[|cs| - 1]
  }

  /** `copy(inputStream, output)`: the bytes the output file holds afterwards,
      and the exception `copy` throws, if any. `openFailure` is what
      `FileOutputStream(output)` throws before anything is read: a
      NullPointerException for a null `output`, a FileNotFoundException for
      one that cannot be opened for writing. */
  method Copy(input: InputStream, openFailure: Option<Throwable>)
    returns (written: seq<byte>, thrown: Option<Throwable>)
    ensures openFailure.Some? ==> written == [] && thrown == openFailure
    ensures openFailure.None? ==> written == Concat(input.chunks) && thrown == input.failure
  {
    written := [];
    if openFailure.Some? {
      thrown := openFailure;
      return;
    }
    var i := 0;
    while i < |input.chunks|
      invariant 0 <= i <= |input.chunks|
      invariant written == Concat(input.chunks[..i])
    {
      assert input.chunks[..i + 1][..i] == input.chunks[..i];
      written := written + input.chunks[i];
      i := i + 1;
    }
    assert input.chunks[..i] == input.chunks;
    thrown := input.failure;
  }

  /** `writeFile(inputStream, file, totalLength, onProgress)`: the bytes the file
      holds afterwards, the arguments of the successive `onProgress` calls, and
      the exception thrown, if any. `openFailure` is what `FileOutputStream(file)`
      throws before anything is read. `totalLength` is unused, as in the
      source. */
  method WriteFile(input: InputStream, totalLength: int, openFailure: Option<Throwable>)
    returns (written: seq<byte>, progress: seq<int>, thrown: Option<Throwable>)
    ensures openFailure.Some? ==> written == [] && progress == [] && thrown == openFailure
    ensures openFailure.None? ==> written == Concat(input.chunks) && thrown == input.failure
    ensures openFailure.None? ==> |progress| == |input.chunks|
    ensures forall k :: 0 <= k < |progress| ==> progress[k] == |Concat(input.chunks[..k + 1])|
    ensures forall j, k :: 0 <= j <= k < |progress| ==> progress[j] <= progress[k]
    ensures |progress| > 0 ==> progress[|progress| - 1] == |written|
  {
    written, progress := [], [];
    if openFailure.Some? {
      thrown := openFailure;
      return;
    }
    var totalBytesRead := 0;
    var i := 0;
    while i < |input.chunks|
      invariant 0 <= i <= |input.chunks|
      invariant written == Concat(input.chunks[..i])
      invariant totalBytesRead == |written|
      invariant |progress| == i
      invariant forall k :: 0 <= k < i ==> progress[k] == |Concat(input.chunks[..k + 1])|
      invariant forall j, k :: 0 <= j <= k < i ==> progress[j] <= progress[k]
      invariant i > 0 ==> progress[i - 1] == totalBytesRead
    {
      assert input.chunks[..i + 1][..i] == input.chunks[..i];
      written := written + input.chunks[i];
      totalBytesRead := totalBytesRead + |input.chunks[i]|;
      progress := progress + [totalBytesRead];
      i := i + 1;
    }
    assert input.chunks[..i] == input.chunks;
    thrown := input.failure;
  }

  // ------------------------------------------------------------------
  // isValidPdf

  /** What the platform says of the `File` passed to `isValidPdf`: whether it
      exists, whether it can be opened for reading, and its bytes. */
  datatype PdfFile = PdfFile(present: bool, readable: bool, content: seq<byte>)

  /** Opening a `PdfRenderer` on the file: its page count, or an exception. */
  datatype RendererOutcome = Opened(pageCount: int) | RendererFails

  /** The bytes of "%PDF". */
  const PDF_SIGNATURE: seq<byte> := [0x25, 0x50, 0x44, 0x46]

  /** Size of the buffer `isValidPdf` reads. */
  const SCAN_SIZE: nat := 1024

  function Min(a: int, b: int): int {
    if a <= b then a else b
  }

  /** The 1024-byte buffer after one `read`: the file's first bytes, the rest zero. */
  function ReadBuffer(content: seq<byte>): (b: seq<byte>)
    ensures |b| == SCAN_SIZE
  {
    var n := Min(SCAN_SIZE, |content|);
    content[..n] + seq(SCAN_SIZE - n, _ => 0 as byte)
  }

  /** `String(buffer, Charsets.US_ASCII)`: bytes above 0x7F become U+FFFD. */
  function AsciiDecode(bs: seq<byte>): (s: string)
    ensures |s| == |bs|
    ensures forall i :: 0 <= i < |bs| ==> (bs[i] < 0x80 ==> s[i] as int == bs[i] as int) && (bs[i] >= 0x80 ==> s[i] == '\U{FFFD}')
  {
    seq(|bs|, i requires 0 <= i < |bs| => if bs[i] < 0x80 then (bs[i] as int) as char else '\U{FFFD}')
  }

  /** Searching the decoded buffer for "%PDF", as `isValidPdf` does, finds the
      signature exactly when its bytes occur among the first 1024 of the file. */
  lemma SignatureScan(content: seq<byte>)
    ensures Contains(AsciiDecode(ReadBuffer(content)), "%PDF") <==>
            Contains(content[..Min(SCAN_SIZE, |content|)], PDF_SIGNATURE)
  {
    if Contains(content[..Min(SCAN_SIZE, |content|)], PDF_SIGNATURE) {
      SignatureFound(content);
    }
    if Contains(AsciiDecode(ReadBuffer(content)), "%PDF") {
      SignatureOnlyInContent(content);
    }
  }

  /** The buffer agrees with the file on its first bytes and is zero after them. */
  lemma ReadBufferAt(content: seq<byte>, k: nat)
    requires k < SCAN_SIZE
    ensures k < |content| ==> ReadBuffer(content)[k] == content[k]
    ensures k >= |content| ==> ReadBuffer(content)[k] == 0
  {
  }

  lemma SignatureFound(content: seq<byte>)
    requires Contains(content[..Min(SCAN_SIZE, |content|)], PDF_SIGNATURE)
    ensures Contains(AsciiDecode(ReadBuffer(content)), "%PDF")
  {
    var p := content[..Min(SCAN_SIZE, |content|)];
    var d := AsciiDecode(ReadBuffer(content));
    var i :| 0 <= i <= |p| - 4 && OccursAt(p, PDF_SIGNATURE, i);
    forall k | 0 <= k < 4
      ensures d[i + k] == "%PDF"[k]
    {
      ReadBufferAt(content, i + k);
      assert p[i + k] == PDF_SIGNATURE[k];
    }
    assert d[i..i + 4] == "%PDF";
    assert OccursAt(d, "%PDF", i);
  }

  lemma SignatureOnlyInContent(content: seq<byte>)
    requires Contains(AsciiDecode(ReadBuffer(content)), "%PDF")
    ensures Contains(content[..Min(SCAN_SIZE, |content|)], PDF_SIGNATURE)
  {
    var p := content[..Min(SCAN_SIZE, |content|)];
    var b := ReadBuffer(content);
    var d := AsciiDecode(b);
    var i :| 0 <= i <= |d| - 4 && OccursAt(d, "%PDF", i);
    assert d[i + 3] == "%PDF"[3];
    ReadBufferAt(content, i + 3);
    assert i + 3 < |p|;
    forall k | 0 <= k < 4
      ensures p[i + k] == PDF_SIGNATURE[k]
    {
      assert d[i + k] == "%PDF"[k];
      ReadBufferAt(content, i + k);
    }
    assert p[i..i + 4] == PDF_SIGNATURE;
    assert OccursAt(p, PDF_SIGNATURE, i);
  }

  /** `isValidPdf(file)`: `file` is None for a null argument. The file must
      exist, hold at least 4 bytes, carry "%PDF" within its first 1024 bytes and
      open in the renderer with at least one page; an exception (the file cannot
      be read, the renderer rejects it) gives false. */
  function IsValidPdf(file: Option<PdfFile>, renderer: RendererOutcome): (valid: bool)
    ensures valid <==>
              && file.Some? && file.value.present && |file.value.content| >= 4 && file.value.readable
              && Contains(file.value.content[..Min(SCAN_SIZE, |file.value.content|)], PDF_SIGNATURE)
              && renderer.Opened? && renderer.pageCount > 0
  {
    if file.None? || !file.value.present || |file.value.content| < 4 then false
    else if !file.value.readable then false
    else
      var pdfIndex := IndexOf(AsciiDecode(ReadBuffer(file.value.content)), "%PDF");
      SignatureScan(file.value.content);
      if pdfIndex == -1 then false
      else
        match renderer
        case RendererFails => false
        case Opened(pageCount) => pageCount > 0
  }
}
