# Pdf-Viewer core, modelled in Dafny

Pdf-Viewer is an Android library that downloads, caches and shows PDF
documents, plus a small Python script that announces releases on Discord.
This project models the parts of it that are sequential logic and proves
properties of them:

- **the page indicator** (`PdfPageScrollListener`): a scroll listener that
  works out the scroll direction, picks the page to report from the visible
  and completely visible positions, reports a page only once, and asks for
  the pages around the middle of the visible range to be prefetched when
  scrolling stops;
- **prefetch count and bitmap pool** (`CommonUtils`): a threshold rule over
  free memory and page count, and a pool of at most ten reusable bitmaps;
- **the disk-cache strategies** (`CacheHelper`): MINIMIZE_CACHE keeps only
  the folder of the opened PDF; MAXIMIZE_PERFORMANCE touches it and evicts
  the least recently modified folder once the limit is reached;
- **file helpers** (`FileUtils`): cache file names from `String.hashCode`,
  clearing cached PDFs, copying a stream into a file with progress, and the
  `%PDF` validity check;
- **the downloader** (`PdfDownloader`): a cache hit short-circuits, otherwise
  up to three attempts are made, each reported to the listener;
- **error messages** (`ViewerStrings.getMessageForError`): the ordered rule
  that turns an exception into the error dialog's text;
- **toolbar title behaviour** (`ToolbarTitleBehavior`): four layout entries
  and the decoding of the XML attribute;
- **the release notifier** (`discord_webhook.py`): the message template, the
  JSON payload and the single POST.

Modules: `Wrappers` (Option, Result); `Jvm` (Kotlin `Int` wrap-around,
division truncating toward zero, UTF-16 code units,
`String.hashCode`, `Int.toString`, string search, exceptions); `JavaIo` (a
directory as the ordered list of its children, with delete, touch and
store); then one module per source file. Everything that changes state in
the source is a class with `modifies` clauses: the scroll listener, the
bitmap pool and its bitmaps, directories, and the downloader. The loops of
`clearPdfCache`, `clearAllPreviousCache`, `copy`, `writeFile`, `getBitmap`
and the retry loop of `download` are `while` loops proved against
specification functions. Those functions carry the lemmas.

The network, the clock, free memory, the renderer's page count, the
platform's file checks and the HTTP client are parameters: the network is a
function from the attempt number to what the attempt meets, and the clock
is a number `now`.

Where a comment and the code differ, the model follows the code. The
comment at discord_webhook.py:23 says that `raise_for_status` raises when the
request fails, but it raises only for status codes 400 to 599.
`DiscordWebhook.IsHttpError` models exactly that range.

## Model

| member | source | states |
|---|---|---|
| Jvm.Wrap | pdfViewer/src/main/java/com/rajat/pdfviewer/util/FileUtils.kt:67-69 | the result is the 32-bit value congruent to the input modulo 2^32, and equals the input when it fits |
| Jvm.Half | pdfViewer/src/main/java/com/rajat/pdfviewer/PdfPageScrollListener.kt:67 | Kotlin `Int` division by 2 truncates toward zero: the remainder is 0 or 1 for a non-negative number and 0 or -1 for a negative one |
| Jvm.HashCode | pdfViewer/src/main/java/com/rajat/pdfviewer/util/FileUtils.kt:67-69 | the loop `h = 31*h + c` over the UTF-16 units, wrapped at each step, equals the wrapped polynomial sum Σ s[i]·31^(n−1−i) |
| Jvm.HashLoopComputesPolySum | pdfViewer/src/main/java/com/rajat/pdfviewer/util/FileUtils.kt:67-69 | wrapping at every step of the hash loop gives the same value as wrapping once at the end |
| Jvm.DecimalRoundTrip | pdfViewer/src/main/java/com/rajat/pdfviewer/util/FileUtils.kt:67-69 | reading back the decimal text of a natural number gives the number, and the text is a non-empty run of digits |
| Jvm.IntToStringInjective | pdfViewer/src/main/java/com/rajat/pdfviewer/util/FileUtils.kt:67-69 | distinct integers have distinct decimal texts |
| Jvm.IntToString | pdfViewer/src/main/java/com/rajat/pdfviewer/util/FileUtils.kt:68 | the text is non-empty and starts with a minus sign exactly when the number is negative |
| Jvm.IndexOf | pdfViewer/src/main/java/com/rajat/pdfviewer/util/FileUtils.kt:107 | -1 exactly when the pattern does not occur; otherwise the first position at which it occurs |
| FileUtils.CachedFileName | pdfViewer/src/main/java/com/rajat/pdfviewer/util/FileUtils.kt:67-69 | the name ends in ".pdf" and what precedes it is the decimal text of the wrapped Java hash of the URL |
| FileUtils.CachedFileNameCollision | pdfViewer/src/main/java/com/rajat/pdfviewer/util/FileUtils.kt:67-69 | two URLs share a cache name exactly when their hash codes are equal |
| FileUtils.CachedFileNameWithFormat | pdfViewer/src/main/java/com/rajat/pdfviewer/util/FileUtils.kt:133 | the result is the name followed by the format, which defaults to ".jpg" |
| FileUtils.PageFileNamesDistinct | pdfViewer/src/main/java/com/rajat/pdfviewer/util/FileUtils.kt:133 | page files named by page number with the default format are equal exactly when the page numbers are |
| FileUtils.PdfCacheClearedExactly | pdfViewer/src/main/java/com/rajat/pdfviewer/util/FileUtils.kt:71-75 | after clearing, an entry is present exactly when it was present and is not a ".pdf" other than the excepted name; the excepted file survives |
| FileUtils.ListPdfCache | pdfViewer/src/main/java/com/rajat/pdfviewer/util/FileUtils.kt:72-73 | the listing holds exactly the entries whose name ends in ".pdf" and differs from the excepted name |
| FileUtils.ListedAreDoomed | pdfViewer/src/main/java/com/rajat/pdfviewer/util/FileUtils.kt:71-75 | deleting the listed files one by one leaves the cleared directory |
| FileUtils.ClearPdfCache | pdfViewer/src/main/java/com/rajat/pdfviewer/util/FileUtils.kt:71-75 | the delete loop leaves the directory holding exactly the entries the filter spares, in their order |
| FileUtils.Copy | pdfViewer/src/main/java/com/rajat/pdfviewer/util/FileUtils.kt:29-44 | when the output stream cannot be opened (null or unwritable `output`), nothing is written and that exception is thrown; otherwise the output holds the chunks read, concatenated in order, and a read failure is rethrown |
| FileUtils.WriteFile | pdfViewer/src/main/java/com/rajat/pdfviewer/util/FileUtils.kt:77-89 | when the file cannot be opened, nothing is written or reported and that exception is thrown; otherwise the file holds the chunks concatenated; one progress call per chunk with the running total; the totals never decrease and the last is the file's length; a read failure is rethrown |
| FileUtils.ReadBuffer | pdfViewer/src/main/java/com/rajat/pdfviewer/util/FileUtils.kt:98-104 | the buffer after one read holds 1024 bytes |
| FileUtils.AsciiDecode | pdfViewer/src/main/java/com/rajat/pdfviewer/util/FileUtils.kt:106 | one character per byte: the ASCII character below 0x80 and U+FFFD above |
| FileUtils.SignatureScan | pdfViewer/src/main/java/com/rajat/pdfviewer/util/FileUtils.kt:98-111 | searching the ASCII-decoded buffer for "%PDF" succeeds exactly when those four bytes occur among the file's first 1024 bytes |
| FileUtils.IsValidPdf | pdfViewer/src/main/java/com/rajat/pdfviewer/util/FileUtils.kt:91-131 | valid exactly when the file is given, exists, holds at least 4 bytes, can be read, carries "%PDF" in its first 1024 bytes, and the renderer opens it with more than 0 pages |
| JavaIo.NamesOf | pdfViewer/src/main/java/com/rajat/pdfviewer/util/CacheHelper.kt:34-42 | a name is in the set exactly when some child carries it |
| JavaIo.WithoutMembers | pdfViewer/src/main/java/com/rajat/pdfviewer/util/CacheHelper.kt:37-42 | an entry survives deletion exactly when it was there and its name is not deleted |
| JavaIo.WithoutKeepsDistinct | pdfViewer/src/main/java/com/rajat/pdfviewer/util/CacheHelper.kt:37-42 | deleting children from a directory keeps the names of the others distinct |
| JavaIo.WithoutTwice | pdfViewer/src/main/java/com/rajat/pdfviewer/util/CacheHelper.kt:37-42 | deleting names one after the other is deleting them all at once |
| JavaIo.Touched | pdfViewer/src/main/java/com/rajat/pdfviewer/util/CacheHelper.kt:64-66 | the child of that name gets the new time; every other child is unchanged |
| JavaIo.Directory.Delete | pdfViewer/src/main/java/com/rajat/pdfviewer/util/CacheHelper.kt:40 | the child of that name is gone and the rest keep their order |
| JavaIo.Directory.SetLastModified | pdfViewer/src/main/java/com/rajat/pdfviewer/util/CacheHelper.kt:65 | the directory becomes the touched listing and keeps distinct names |
| JavaIo.Directory.Store | pdfViewer/src/main/java/com/rajat/pdfviewer/PdfDownloader.kt:108-109 | the renamed file replaces any child of its name and is listed last |
| CacheHelper.KeepOnlyKeepsNamed | pdfViewer/src/main/java/com/rajat/pdfviewer/util/CacheHelper.kt:33-43 | MINIMIZE_CACHE leaves exactly the children named like the kept file, so at most one child |
| CacheHelper.KeepOnly | pdfViewer/src/main/java/com/rajat/pdfviewer/util/CacheHelper.kt:33-43 | reference for MINIMIZE_CACHE: the listing without every child whose name differs from the kept one, in order |
| CacheHelper.DistinctNamesCount | pdfViewer/src/main/java/com/rajat/pdfviewer/util/CacheHelper.kt:34 | a listing with distinct names has as many names as children |
| CacheHelper.KeptIsKeepOnly | pdfViewer/src/main/java/com/rajat/pdfviewer/util/CacheHelper.kt:37-42 | once the loop has visited a prefix of the listing, exactly the visited names other than the kept one are deleted; after the whole listing, only the kept name is left |
| CacheHelper.ClearAllPreviousCache | pdfViewer/src/main/java/com/rajat/pdfviewer/util/CacheHelper.kt:33-43 | with no parent listing nothing happens; otherwise the delete loop leaves only the children named like the kept file |
| CacheHelper.Folders | pdfViewer/src/main/java/com/rajat/pdfviewer/util/CacheHelper.kt:52-53 | the filtered list holds exactly the directories of the listing |
| CacheHelper.OldestIndex | pdfViewer/src/main/java/com/rajat/pdfviewer/util/CacheHelper.kt:56 | `minByOrNull`: the first position whose modification time is minimal |
| CacheHelper.Victim | pdfViewer/src/main/java/com/rajat/pdfviewer/util/CacheHelper.kt:52-60 | a folder is chosen exactly when there are at least max(limit, 1) folders, and it is a directory with minimal modification time |
| CacheHelper.AfterEnforce | pdfViewer/src/main/java/com/rajat/pdfviewer/util/CacheHelper.kt:47-61 | reference for `enforceCacheLimit`: the listing without the victim folder, or unchanged when there is none |
| CacheHelper.EnforceLimitEvictsAtMostOneFolder | pdfViewer/src/main/java/com/rajat/pdfviewer/util/CacheHelper.kt:52-60 | files are never deleted; below the limit nothing changes; at or above it exactly one child goes |
| CacheHelper.NonPositiveLimitActsAsOne | pdfViewer/src/main/java/com/rajat/pdfviewer/util/CacheHelper.kt:55 | a limit of zero or less behaves exactly like a limit of one |
| CacheHelper.TouchedCarriesTime | pdfViewer/src/main/java/com/rajat/pdfviewer/util/CacheHelper.kt:64-66 | after touching, the opened folder carries the time `now` |
| CacheHelper.OpenedFolderSurvives | pdfViewer/src/main/java/com/rajat/pdfviewer/util/CacheHelper.kt:25-28 | because the opened folder is touched before the limit is enforced, it is not evicted while an older folder exists |
| CacheHelper.LoneFolderEvicted | pdfViewer/src/main/java/com/rajat/pdfviewer/util/CacheHelper.kt:25-28 | when the opened folder is the only folder and the limit is at most one, that folder is evicted |
| CacheHelper.UpdateCacheAccessTime | pdfViewer/src/main/java/com/rajat/pdfviewer/util/CacheHelper.kt:64-66 | the opened folder gets modification time `now`; the rest is unchanged |
| CacheHelper.EnforceCacheLimit | pdfViewer/src/main/java/com/rajat/pdfviewer/util/CacheHelper.kt:47-61 | with no parent listing nothing happens; otherwise the directory becomes the listing without the victim |
| CacheHelper.HandleCacheStrategy | pdfViewer/src/main/java/com/rajat/pdfviewer/util/CacheHelper.kt:10-30 | MINIMIZE_CACHE keeps only the new file's entry; MAXIMIZE_PERFORMANCE touches the folder, then enforces the limit |
| CacheHelper.AfterStrategy | pdfViewer/src/main/java/com/rajat/pdfviewer/util/CacheHelper.kt:10-30 | reference for `handleCacheStrategy`: KeepOnly for MINIMIZE_CACHE; touching the opened folder, then AfterEnforce, for MAXIMIZE_PERFORMANCE |
| CommonUtils.CalculateDynamicPrefetchCount | pdfViewer/src/main/java/com/rajat/pdfviewer/util/CommonUtils.kt:22-30 | the count is one of 3, 5 and 10; it is 10 exactly when memory exceeds 1 GiB and there are fewer than 100 pages, and 5 exactly when that fails but memory exceeds 512 MiB and there are fewer than 200 pages |
| CommonUtils.PrefetchCountMonotone | pdfViewer/src/main/java/com/rajat/pdfviewer/util/CommonUtils.kt:25-29 | more memory or fewer pages never lowers the count |
| CommonUtils.FirstMatch | pdfViewer/src/main/java/com/rajat/pdfviewer/util/CommonUtils.kt:35-42 | the first position of a live bitmap of the exact size, or the pool's length |
| CommonUtils.Bitmap.constructor | pdfViewer/src/main/java/com/rajat/pdfviewer/util/CommonUtils.kt:44 | a new bitmap of the given size, not recycled |
| CommonUtils.Bitmap.Recycle | pdfViewer/src/main/java/com/rajat/pdfviewer/util/CommonUtils.kt:54 | the bitmap is marked recycled |
| CommonUtils.BitmapPool.constructor | pdfViewer/src/main/java/com/rajat/pdfviewer/util/CommonUtils.kt:31-32 | the pool starts empty |
| CommonUtils.BitmapPool.GetBitmap | pdfViewer/src/main/java/com/rajat/pdfviewer/util/CommonUtils.kt:33-45 | the first matching bitmap is removed and returned, the rest keep their order; without one, the pool is unchanged and a fresh bitmap of the size is returned; the pool stays within 10 |
| CommonUtils.BitmapPool.RecycleBitmap | pdfViewer/src/main/java/com/rajat/pdfviewer/util/CommonUtils.kt:46-57 | a recycled bitmap is ignored; a live one is appended while the pool holds fewer than 10, and recycled otherwise; the pool stays within 10 |
| PageScroll.Direction | pdfViewer/src/main/java/com/rajat/pdfviewer/PdfPageScrollListener.kt:28-33 | the direction has the sign of `dy`, and is the previous one when `dy` is 0 |
| PageScroll.DirectionIdempotent | pdfViewer/src/main/java/com/rajat/pdfviewer/PdfPageScrollListener.kt:28-33 | the same scroll again keeps the direction |
| PageScroll.FirstPositioned | pdfViewer/src/main/java/com/rajat/pdfviewer/PdfPageScrollListener.kt:35-43 | the first candidate that is not NO_POSITION; NO_POSITION exactly when every candidate is |
| PageScroll.PageToShow | pdfViewer/src/main/java/com/rajat/pdfviewer/PdfPageScrollListener.kt:35-43 | the page chosen is the first real position among the candidates for the direction, in order of preference |
| PageScroll.RepeatedScrollReportsNothing | pdfViewer/src/main/java/com/rajat/pdfviewer/PdfPageScrollListener.kt:45-56 | handling the very same scroll twice reports at most once |
| PageScroll.Midpoint | pdfViewer/src/main/java/com/rajat/pdfviewer/PdfPageScrollListener.kt:65-68 | without overflow, the midpoint of an ordered range lies within it |
| PageScroll.PdfPageScrollListener.constructor | pdfViewer/src/main/java/com/rajat/pdfviewer/PdfPageScrollListener.kt:15-16 | no page shown yet (NO_POSITION) and direction 0 |
| PageScroll.PdfPageScrollListener.OnScrolled | pdfViewer/src/main/java/com/rajat/pdfviewer/PdfPageScrollListener.kt:21-57 | the direction is recorded; a page is reported, with label number page + 1 and the page count, exactly when it is a real position other than the last shown, which it then becomes; otherwise nothing changes; repeating the scroll would report nothing |
| PageScroll.PdfPageScrollListener.OnScrollStateChanged | pdfViewer/src/main/java/com/rajat/pdfviewer/PdfPageScrollListener.kt:59-72 | a prefetch is asked for exactly when the state is idle and the layout manager is linear, at `(first + last) / 2` |
| PdfDownloader.AttemptOutcome | pdfViewer/src/main/java/com/rajat/pdfviewer/PdfDownloader.kt:76-128 | an attempt succeeds exactly when the stream ends normally and the bytes written equal the reported length, keeping those bytes; a refused attempt and a failing read fail with their own IOException; a length mismatch fails with "Incomplete download" |
| PdfDownloader.ProgressEvents | pdfViewer/src/main/java/com/rajat/pdfviewer/PdfDownloader.kt:97-103 | one progress call per chunk, with the running total and the reported length |
| PdfDownloader.AttemptEvents | pdfViewer/src/main/java/com/rajat/pdfviewer/PdfDownloader.kt:76-119 | reference for one attempt: `onDownloadStart`, the progress calls, then `onDownloadSuccess` with the cache path or `onError` with the caught IOException |
| PdfDownloader.Run | pdfViewer/src/main/java/com/rajat/pdfviewer/PdfDownloader.kt:71-133 | reference for the retry loop: the attempts from the given number on, stopping after the first success, and the final error after the third failure; `Download` reports exactly these calls |
| PdfDownloader.AfterDownload | pdfViewer/src/main/java/com/rajat/pdfviewer/PdfDownloader.kt:107-117 | reference for the cache directory after `download`: unchanged when no attempt succeeds, otherwise the first successful attempt's bytes stored under the cache name |
| PdfDownloader.AttemptCounts | pdfViewer/src/main/java/com/rajat/pdfviewer/PdfDownloader.kt:77-119 | an attempt starts with one `onDownloadStart` and reports success once exactly when it succeeds |
| PdfDownloader.StartsCountAttempts | pdfViewer/src/main/java/com/rajat/pdfviewer/PdfDownloader.kt:72-77 | the `onDownloadStart` calls count the attempts made |
| PdfDownloader.AttemptsUsedBounds | pdfViewer/src/main/java/com/rajat/pdfviewer/PdfDownloader.kt:72-128 | between one and the remaining number of attempts; all but the last made failed; the last succeeded exactly when a file is stored; fewer attempts only after a success |
| PdfDownloader.RunAttempts | pdfViewer/src/main/java/com/rajat/pdfviewer/PdfDownloader.kt:39-77 | a download makes 1 to 3 attempts, each opened by `onDownloadStart`, and stops early only after a success |
| PdfDownloader.RunOutcome | pdfViewer/src/main/java/com/rajat/pdfviewer/PdfDownloader.kt:107-127 | the events begin with a start, report success once when a file is stored and never otherwise, and end with the success or with the final error |
| PdfDownloader.RunSuccesses | pdfViewer/src/main/java/com/rajat/pdfviewer/PdfDownloader.kt:72-127 | from any attempt on, success is reported once when a later attempt stores a file and never otherwise |
| PdfDownloader.RunLast | pdfViewer/src/main/java/com/rajat/pdfviewer/PdfDownloader.kt:72-127 | from any attempt on, the last event is the success when a file is stored and the final error otherwise |
| PdfDownloader.SuccessExcludesFinalError | pdfViewer/src/main/java/com/rajat/pdfviewer/PdfDownloader.kt:121-127 | a download ends with success exactly when it reported one, and with "Failed to download after 3 attempts" exactly when it reported none |
| PdfDownloader.UnknownLengthNeverStores | pdfViewer/src/main/java/com/rajat/pdfviewer/PdfDownloader.kt:83-107 | a server that never reports a length (-1) never yields a stored file |
| PdfDownloader.DownloadedFileIsCached | pdfViewer/src/main/java/com/rajat/pdfviewer/PdfDownloader.kt:107-109 | after a successful download the cache file exists, so the next request is a cache hit |
| PdfDownloader.ClearingSparesCurrent | pdfViewer/src/main/java/com/rajat/pdfviewer/PdfDownloader.kt:47-58 | clearing the cache for the current name keeps the current file |
| PdfDownloader.GetCachedFileName | pdfViewer/src/main/java/com/rajat/pdfviewer/PdfDownloader.kt:43-45 | the same name as the FileUtils rule, ending in ".pdf" |
| PdfDownloader.RunAttempt | pdfViewer/src/main/java/com/rajat/pdfviewer/PdfDownloader.kt:76-115 | one attempt's outcome and progress calls are those of the specification functions |
| PdfDownloader.Downloader.constructor | pdfViewer/src/main/java/com/rajat/pdfviewer/PdfDownloader.kt:32 | no file downloaded yet |
| PdfDownloader.Downloader.ClearPdfCache | pdfViewer/src/main/java/com/rajat/pdfviewer/PdfDownloader.kt:47-51 | the same deletion as FileUtils' `clearPdfCache` |
| PdfDownloader.Downloader.CheckAndDownload | pdfViewer/src/main/java/com/rajat/pdfviewer/PdfDownloader.kt:53-69 | the cache is cleared first when the name is new; a cached file is reported as success with no attempt; otherwise the download's events and stored file; afterwards the last file is the cache name |
| PdfDownloader.Downloader.Download | pdfViewer/src/main/java/com/rajat/pdfviewer/PdfDownloader.kt:71-133 | the retry loop reports exactly the specified events and stores the first successful attempt's bytes under the cache name |
| ViewerStrings.FirstRule | pdfViewer/src/main/java/com/rajat/pdfviewer/util/ViewerStrings.kt:95-102 | the first rule whose pattern occurs wins; no answer exactly when no pattern occurs |
| ViewerStrings.Classify | pdfViewer/src/main/java/com/rajat/pdfviewer/util/ViewerStrings.kt:90-105 | the three exception types get their branches; any other error is classified by its message alone |
| ViewerStrings.GetMessageForError | pdfViewer/src/main/java/com/rajat/pdfviewer/util/ViewerStrings.kt:90-105 | UnknownHostException gives `errorNoInternet`, SocketTimeoutException and FileNotFoundException their fixed texts; any other error gets the text of its message branch; the default text is "An unexpected error occurred: " and the message ("null" when missing) |
| ViewerStrings.MessageRuleTexts | pdfViewer/src/main/java/com/rajat/pdfviewer/util/ViewerStrings.kt:95-102 | for an error not recognised by type, the non-PDF, corrupted, incomplete and retries branches each give their fixed text |
| ViewerStrings.ErrorMessage.Text | pdfViewer/src/main/java/com/rajat/pdfviewer/util/ViewerStrings.kt:90-105 | the text of each branch: `errorNoInternet` from the configured texts, the six fixed texts, and the default prefix followed by the message |
| ViewerStrings.FirstRuleUnrolled | pdfViewer/src/main/java/com/rajat/pdfviewer/util/ViewerStrings.kt:95-102 | the rule table answers as the chain of four substring checks in source order |
| ViewerStrings.TypeBeatsMessage | pdfViewer/src/main/java/com/rajat/pdfviewer/util/ViewerStrings.kt:91-102 | for a recognised exception type the message does not matter |
| ViewerStrings.DefaultExactlyWhenNoRuleMatches | pdfViewer/src/main/java/com/rajat/pdfviewer/util/ViewerStrings.kt:95-103 | the default answers exactly when the message is missing or contains none of the patterns |
| ViewerStrings.IncompleteDownloadText | pdfViewer/src/main/java/com/rajat/pdfviewer/util/ViewerStrings.kt:99-100 | the downloader's "Incomplete download" error gets the incomplete-download text |
| ViewerStrings.FinalErrorText | pdfViewer/src/main/java/com/rajat/pdfviewer/util/ViewerStrings.kt:95-103 | the downloader's final error never gets the default text, and gets the retries text unless the URL contains an earlier pattern |
| ToolbarTitle.ToolbarTitleBehavior.Ordinal | pdfViewer/src/main/java/com/rajat/pdfviewer/util/ToolbarTitleBehavior.kt:5-13 | an entry's ordinal is its position in declaration order |
| ToolbarTitle.FromXmlValue | pdfViewer/src/main/java/com/rajat/pdfviewer/util/ToolbarTitleBehavior.kt:17-25 | 0 to 3 give the entries in declaration order; every other value gives MULTI_LINE_WRAP |
| ToolbarTitle.FromXmlValueInvertsOrdinal | pdfViewer/src/main/java/com/rajat/pdfviewer/util/ToolbarTitleBehavior.kt:17-25 | decoding an entry's ordinal gives the entry back, so distinct entries have distinct ordinals |
| ToolbarTitle.EntrySettings | pdfViewer/src/main/java/com/rajat/pdfviewer/util/ToolbarTitleBehavior.kt:5-13 | single-line exactly when at most one line; MULTI_LINE_ELLIPSIS allows 2; MULTI_LINE_WRAP allows `Int.MAX_VALUE` lines and is the only entry without ellipsizing; only SINGLE_LINE_SCROLLABLE uses a marquee |
| ToolbarTitle.ToolbarTitleBehavior.IsSingleLine | pdfViewer/src/main/java/com/rajat/pdfviewer/util/ToolbarTitleBehavior.kt:5-13 | the `isSingleLine` field: true for the two single-line entries |
| ToolbarTitle.ToolbarTitleBehavior.MaxLines | pdfViewer/src/main/java/com/rajat/pdfviewer/util/ToolbarTitleBehavior.kt:5-13 | the `maxLines` field: 1, 1, 2 and `Int.MAX_VALUE` |
| ToolbarTitle.ToolbarTitleBehavior.Ellipsize | pdfViewer/src/main/java/com/rajat/pdfviewer/util/ToolbarTitleBehavior.kt:5-13 | the `ellipsize` field: END, MARQUEE, END and null |
| DiscordWebhook.RenderContent | discord_webhook.py:14 | the message is the greeting, the tag, "** is out 🚀 \n", the body, " \n[View Release](", the url and ")", each at its place |
| DiscordWebhook.RenderThenParse | discord_webhook.py:14 | the three values are inserted verbatim and can be read back from the message |
| DiscordWebhook.RenderInjective | discord_webhook.py:14 | messages from tags and bodies of the same lengths are equal exactly when all three values are |
| DiscordWebhook.Payload | discord_webhook.py:17-19 | the payload has exactly the key "content", holding the message |
| DiscordWebhook.Content | discord_webhook.py:8-14 | the template filled with the text of RELEASE_TAG, RELEASE_BODY and RELEASE_URL, "None" for a missing one |
| DiscordWebhook.IsHttpError | discord_webhook.py:23 | the statuses `raise_for_status` rejects: 400 to 599 |
| DiscordWebhook.Main | discord_webhook.py:7-23 | without DISCORD_WEBHOOK_URL nothing is sent and `main` raises; otherwise one POST to that URL with the payload, and `main` raises exactly when the transport fails or the status is 400 to 599 |
| DiscordWebhook.MissingVariablesRenderNone | discord_webhook.py:8-14 | a missing tag, body or release URL is rendered as the text "None" at its place in the message |
| DiscordWebhook.ExampleOutcomes | discord_webhook.py:8-23 | a missing webhook URL raises; status 204 returns normally; 404, 500 and a transport failure raise |

## Left out

- Logging (`Log.d`, `Log.e`) is not modelled; it has no effect on the state.
- `synchronized(pool)` and the coroutine dispatching of the downloader are modelled as sequential code.
- `RETRY_DELAY` and the `delay` between attempts are left out, because time passing is not modelled.
- The request headers are left out; they only change what the server answers, and the network parameter already covers that.
- The temporary file of an attempt is not a directory entry: a failed attempt deletes it, and a successful one renames it. The model stores the bytes under the cache name directly. A failing `renameTo` is not modelled.
- The `PdfDownloader` constructor launching `checkAndDownload` is left out: the caller calls `CheckAndDownload` itself.
- A non-IOException inside `download` would escape the loop. It is not modelled, because the attempt datatype only produces IOExceptions.
- PdfDownloader.Download: the final error does not record the last IOException as its cause.
- The read loops consume the chunks the stream delivers. The 8192- and 1024-byte buffer sizes and short reads only decide where chunks end.
- FileUtils.ClearPdfCache, PdfDownloader.Downloader.ClearPdfCache: the model always has a listing of the cache directory. When `listFiles` returns null (an I/O error), the source deletes nothing; the model does not cover that case.
- FileUtils.Copy, FileUtils.WriteFile: an `outputStream.write` that throws partway through is not modelled; only opening the output stream and reading can fail.
- FileUtils.WriteFile: the running total is an unbounded integer; Kotlin's `Long` overflow (beyond 8 EiB) is not modelled.
- FileUtils.ReadBuffer: one `read` is taken to fill the buffer up to the file's length, as a local file read does; a short first read is not modelled.
- Jvm.Utf16: characters are Unicode scalar values, so `hashCode` over unpaired surrogates is not modelled.
- `deleteRecursively` and `delete` both remove the child; a `delete` that fails on a non-empty directory is not modelled.
- CacheHelper.UpdateCacheAccessTime: the model has no directory to touch when the parent cannot be listed, so it skips the touch. On a read or permission error the folder can still exist, and there the source does touch it.
- `getAvailableMemory`, `estimatePdfComplexity` and the page count are parameters of the prefetch rule.
- The `PdfRenderer` and `ParcelFileDescriptor` in `isValidPdf` become a parameter saying whether the renderer opened the file and with how many pages. The file's existence and readability become fields of a parameter.
- `Bitmap.createBitmap` throwing for a size that is not positive is modelled as `None`. Running out of memory is not modelled.
- The layout manager in `onScrolled` is taken to be a `LinearLayoutManager`; its answers are the `Positions` parameter. `updatePage`, the label text and the visibility of the indicator become the returned report. `hideRunnable` and `postDelayed` are UI timing and are left out.
- `schedulePrefetch` becomes the returned prefetch page.
- Floating-point download percentages are not modelled.
- `ViewerStrings.from` is not modelled: it loads the texts from Android resources and theme attributes.
- `fileFromAsset`, `uriToFile`, `createPdfDocumentUri` and the other FileUtils helpers that wrap Android content resolvers are not part of this model.
- DiscordWebhook.RenderContent: no rendered message is stated as one literal example. The ensures fix every fixed segment, every value position and the total length, which together determine the message.
- DiscordWebhook.Main: for a webhook URL that is set, every failure of `requests.post` (a URL without a scheme or host, DNS, refused connection, timeout) is left to the HTTP client parameter as a transport error; the model does not parse the URL itself.
- The HTTP client, the environment, the clock and the network are parameters; nothing here performs I/O.

## Consequences of the code as written

The following are proved:

- the downloader never stores a file from a server that reports no content
  length (`PdfDownloader.UnknownLengthNeverStores`);
- MAXIMIZE_PERFORMANCE evicts the folder it has just opened when it is the
  only folder and the limit is at most one (`CacheHelper.LoneFolderEvicted`);
- the final download error gets a different text when the URL contains one
  of the earlier patterns (`ViewerStrings.FinalErrorText`).

They follow from the code as written and are not claimed to be mistakes.
