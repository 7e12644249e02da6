# mcp-pinterest in Dafny

A model of the core of mcp-pinterest, with proofs about it. mcp-pinterest is an MCP
server that searches Pinterest for images, reports what it finds, and can download
them into a per-keyword directory.

The model covers six parts:

- **file-name template engine** (`FilenameTemplate`): `validateTemplate`, the
  `extractVariables` loop, `sanitizeFileName`, and `generateFileName` with the mutable
  `variables` object it writes the timestamp back into.
- **scraper** (`ImageUrl`, `Scraper`): the thumbnail-to-original URL rewrite, the
  request-interception decision, the dedup-and-limit pass, the `autoScroll` timer,
  the cancellation and cleanup flow of `search`, and the simple `downloadImage`.
- **downloader** (`PinDownload`): `downloadImage` and the `batchDownload` loop.
- **two tool handlers** (`McpServer`, `JsValues`): how the object arguments are read
  and defaulted, the thumbnail-fix loop, the keyword directory name, and the
  content items of both replies.
- **launcher** (`Cli`): the `--key [value]` loop and the port fallback.
- **host** (`Host`): the environment as small classes with explicit state: the abort
  signal, the HTTP client and the file system.

Shared string helpers are in `JsStrings`: the JavaScript `\s` set, ASCII case folding
and decimal printing.

How the abort signal is modelled:

- Each read of `signal.aborted` is a poll.
- Poll `k` sees the signal aborted exactly when `k >= abortAt`.
- So an abort can arrive between any two reads, and once seen it stays seen.

How the browser is modelled:

- The browser, the page and `page.evaluate` are an oracle record (`Scraper.Env`).
- It fixes which steps reject, what the extraction returns, and what `browser.close()`
  rejects with.

Facts about the code that a reader might not expect:

- `transformImageUrl` is not idempotent when a URL holds two size segments, because each
  call rewrites only the leftmost one (`ImageUrl.TransformNotIdempotent`).
  `ImageUrl.TransformIdempotentIff` states exactly when it is idempotent.
- `autoScroll` with a maximum of zero or less still scrolls once, because the timer
  scrolls before it compares the total (`Scraper.TicksFor` is at least one).
- `batchDownload` never retries. The handler passes `maxRetries` as a third argument,
  but `batchDownload` declares only two parameters.
- A `limit` text such as `"0x10"` passes the handler's `isNaN(parseInt(...))` test as
  16. The value it assigns comes from `parseInt(..., 10)`, which reads 0, so the default
  limit applies (`McpServer.HexLimitIsZero`).
- The download reply labels the download at position `i` with the title of search result
  `i`, so a failed download shifts the titles of the later ones (see Findings).

## Model

| member | source | states |
|---|---|---|
| FilenameTemplate.ExtractVariables | src/filename-template.ts:51-62 | the `exec` loop returns the names of the `{name}` matches, left to right, and equals the reference scan that tries every position; each name is non-empty, brace-free and occurs braced in the template |
| FilenameTemplate.MatchAtCharacterisation | src/filename-template.ts:52 | the pattern matches at a position exactly when a `{` there is followed by a non-empty brace-free run and a `}` |
| FilenameTemplate.ExecFindsEveryMatch | src/filename-template.ts:52-59 | resuming each search after the previous match (the `g` flag's `lastIndex`) finds every match position, because no match starts inside another |
| FilenameTemplate.ExecNamesAreBraced | src/filename-template.ts:57-58 | every captured name is non-empty, brace-free and appears as `{name}` in the template |
| FilenameTemplate.ScanSkipsNonMatches | src/filename-template.ts:52 | positions without a match contribute nothing to the scan |
| FilenameTemplate.FirstUnsupported | src/filename-template.ts:34-41 | finds the first name whose lower-cased form is not in the list; every earlier one is in it, and there is none exactly when all are |
| FilenameTemplate.ValidateTemplateAccepts | src/filename-template.ts:18-44 | a template is valid exactly when it is non-empty, its `{` and `}` counts agree, and each placeholder is `timestamp` or `index` up to case |
| FilenameTemplate.ValidateTemplateErrors | src/filename-template.ts:18-44 | the empty-template error happens exactly for `""`; the brace error exactly for non-empty templates with unequal counts; an unsupported-variable error names the first failing placeholder |
| FilenameTemplate.ValidateByNames | src/filename-template.ts:31-43 | once the first two checks pass, the verdict depends only on the placeholder names |
| FilenameTemplate.LowerNameInSupportedList | src/filename-template.ts:8-35 | a lower-cased name is in the mixed-case list exactly when it is `timestamp` or `index` up to case |
| FilenameTemplate.LowerAsciiEqualsLowerWord | src/filename-template.ts:35 | lower-casing gives a lower-case word exactly when the name equals it up to case |
| FilenameTemplate.DefaultPlaceholders | src/filename-template.ts:11 | the default template's placeholders are `imageId` and `fileExtension` |
| FilenameTemplate.DefaultBraceCounts | src/filename-template.ts:11-26 | the default template has two `{` and two `}` |
| FilenameTemplate.DefaultTemplateRejected | src/filename-template.ts:8-44 | the engine's own default template is rejected, naming `imageId` as unsupported |
| FilenameTemplate.ReversedBracesPass | src/filename-template.ts:24-28 | only the brace counts are compared, so `}{` is valid |
| FilenameTemplate.ValidateCaseInsensitiveAccepts | src/filename-template.ts:34-41 | the corrected validation accepts exactly the non-empty, count-balanced templates whose placeholders are all listed names up to case |
| FilenameTemplate.LowerNameInLowerList | src/filename-template.ts:8-35 | a lower-cased name is in the lower-cased list exactly when it is a listed name up to case |
| FilenameTemplate.DefaultTemplateAcceptedCaseInsensitive | src/filename-template.ts:11 | the corrected validation accepts the default template |
| FilenameTemplate.ReplaceIllegal | src/filename-template.ts:72 | each of `/ \ : * ? " < > \|` becomes `_`; every other character is kept in place |
| FilenameTemplate.CollapseWhitespace | src/filename-template.ts:73 | no whitespace is left, every character is `_` or comes from the input, and whitespace-free input is unchanged |
| FilenameTemplate.WhitespaceRunAtStart | src/filename-template.ts:73 | a leading whitespace run, however long, becomes one `_` and the rest is collapsed on its own |
| FilenameTemplate.WhitespaceRunBecomesUnderscore | src/filename-template.ts:73 | for whitespace-free `a`, a non-empty whitespace run `w` and a tail `b` that does not start with whitespace, `a + w + b` becomes `a + "_"` followed by the collapsed `b` |
| FilenameTemplate.CollapseUnderscores | src/filename-template.ts:74 | no `__` is left, the first character is kept, nothing new appears, and input without `__` is unchanged |
| FilenameTemplate.UnderscoreRunAtStart | src/filename-template.ts:74 | a leading run of one or more `_` becomes one `_` and the rest is collapsed on its own |
| FilenameTemplate.UnderscoreRunBecomesOne | src/filename-template.ts:74 | for `a` without `__` not ending in `_`, a non-empty run `u` of `_` and a tail `b` not starting with `_`, `a + u + b` becomes `a + "_"` followed by the collapsed `b` |
| FilenameTemplate.SanitizeFileName | src/filename-template.ts:69-76 | the result has no illegal character, no whitespace and no `__` |
| FilenameTemplate.SanitizeCleanIsIdentity | src/filename-template.ts:69-76 | a name that is already clean is returned unchanged |
| FilenameTemplate.SanitizeIdempotent | src/filename-template.ts:69-76 | sanitising twice gives the same result as sanitising once |
| FilenameTemplate.Lookup | src/filename-template.ts:94-108 | a key is found exactly when some entry has it |
| FilenameTemplate.SetEntry | src/filename-template.ts:96 | property assignment: the key maps to the new value, other keys are unaffected, an existing key keeps its position, and a new key is appended |
| FilenameTemplate.SetEntryWellFormed | src/filename-template.ts:96 | assigning a word key that is not all digits keeps the keys distinct such words |
| FilenameTemplate.Variables.Set | src/filename-template.ts:96 | the object's entries become the assignment's result and stay well formed |
| FilenameTemplate.Pad2 | src/filename-template.ts:98-102 | `padStart(2,'0')` of a number below 100 gives two digits whose value is the number |
| FilenameTemplate.FourDigitYear | src/filename-template.ts:97 | a year from 1000 to 9999 prints as four digits |
| FilenameTemplate.Timestamp | src/filename-template.ts:96-103 | for a four-digit year the timestamp is 14 digits: the year's decimal digits, then the 1-based month, day, hours, minutes and seconds, two digits each |
| FilenameTemplate.WithTimestampWritesBack | src/filename-template.ts:94-104 | a timestamp is synthesised into `variables` exactly when the template contains `{timestamp}` and no truthy one is given; otherwise the entries are unchanged; other keys are never affected |
| FilenameTemplate.AddTimestamp | src/filename-template.ts:94-104 | the object's entries after the step are the timestamp rule applied to the old entries |
| FilenameTemplate.ExpandPlain | src/filename-template.ts:111 | a replacement text without `$` is inserted literally |
| FilenameTemplate.FindIgnoreCase | src/filename-template.ts:110 | the leftmost case-insensitive occurrence at or after a position, or none exists |
| FilenameTemplate.ReplaceAbsent | src/filename-template.ts:111 | without an occurrence, `replace` changes nothing |
| FilenameTemplate.ReplaceFirstAt | src/filename-template.ts:110-111 | only the first case-insensitive occurrence is replaced; the text before and after it is kept |
| FilenameTemplate.ReplacePlaceholders | src/filename-template.ts:107-112 | the loop yields each entry's placeholder replaced once, in entry order |
| FilenameTemplate.GenerateFileName | src/filename-template.ts:84-115 | the file name is the sanitised result of replacing each entry's placeholder in order, taken after the timestamp rule has updated `variables`, which the caller sees too |
| FilenameTemplate.ApplyTwoEntries | src/filename-template.ts:107-112 | two placeholders separated by `{`-free text are each replaced by their own value |
| FilenameTemplate.DefaultTemplateApplied | src/filename-template.ts:107-112 | the default template with an id and an extension expands to `pinterest_<id>.<ext>` |
| FilenameTemplate.CleanFileName | src/filename-template.ts:69-76 | `pinterest_<id>.<ext>` built from word-like parts passes sanitising unchanged |
| FilenameTemplate.DefaultTemplateFileName | src/filename-template.ts:84-115 | the default template with word-like `imageId` and `fileExtension` gives exactly `pinterest_<id>.<ext>` |
| ImageUrl.PatternIsSegment | pinterest-scraper.js:482-483 | each literal thumbnail marker of the legacy list is an instance of the `/\d+x\d*/` segment |
| ImageUrl.LegacyRewriteUnchanged | pinterest-scraper.js:486-492 | the legacy marker loop changes nothing on a URL that no longer has a segment |
| ImageUrl.LegacyLoopIsDead | pinterest-scraper.js:481-492 | after the regex rewrite, the legacy literal loop never changes the URL |
| ImageUrl.TransformSpec | pinterest-scraper.js:478-495 | a falsy URL is returned as it is; any other has its leftmost size segment replaced by `/originals/` |
| ImageUrl.ReplaceSegmentShape | pinterest-scraper.js:481 | the rewrite keeps the text before the first segment and the text after it |
| ImageUrl.SegmentGivesFirst | pinterest-scraper.js:481 | a URL with a segment has a leftmost one |
| ImageUrl.ReplaceChangesIff | pinterest-scraper.js:481 | the rewrite changes a URL exactly when it has a segment |
| ImageUrl.NoSegmentBeforeOriginals | pinterest-scraper.js:481 | no segment can start before the inserted `/originals/` |
| ImageUrl.SegmentsAfterOriginals | pinterest-scraper.js:481 | the segments of the result are those of the untouched tail |
| ImageUrl.RewrittenIsClean | pinterest-scraper.js:481 | a URL with exactly one segment has none after the rewrite |
| ImageUrl.RewrittenSegmentIff | pinterest-scraper.js:481 | the rewritten URL has a segment exactly when the text after the first segment has one |
| ImageUrl.TransformIdempotentIff | pinterest-scraper.js:478-495 | transforming twice equals transforming once exactly when the URL is falsy or the text after its first segment has no segment |
| ImageUrl.TransformNotIdempotent | pinterest-scraper.js:478-495 | `/1x/2x/` needs two transforms to settle |
| Scraper.HandleRequest | pinterest-scraper.js:172-185 | a request is aborted exactly when the signal is aborted or its type is image, font or media |
| Scraper.HandleRequestCases | pinterest-scraper.js:172-185 | after an abort every request is aborted; before, exactly the other types continue |
| Scraper.WithSource | pinterest-scraper.js:314-318 | the kept record has a non-empty source; the other fields are kept, and a given source is kept too |
| Scraper.Take | pinterest-scraper.js:309 | at most `limit` elements, a prefix, and none for a limit of zero or less |
| Scraper.FirstOccurrencesUrls | pinterest-scraper.js:302-322 | the URLs kept are exactly the URLs of the usable items seen |
| Scraper.FirstOccurrencesDistinct | pinterest-scraper.js:302-322 | no URL is kept twice, and every kept record has a URL and a source |
| Scraper.FirstOccurrencesFromInput | pinterest-scraper.js:302-322 | each kept record is a usable input item, with source filled in, and no earlier usable item has its URL |
| Scraper.FirstOccurrencesPrefix | pinterest-scraper.js:302-322 | more input only appends to the kept list |
| Scraper.DedupAndLimit | pinterest-scraper.js:302-322 | the loop, with its length check before each item, yields the first `limit` first occurrences |
| Scraper.DedupProperties | pinterest-scraper.js:302-322 | the pass keeps at most `limit` records (none when `limit <= 0`), with distinct URLs, each a first occurrence in the input |
| Scraper.ScrollDistance | pinterest-scraper.js:233 | the distance is the larger of `limit * 300` and 1000 |
| Scraper.TicksFor | pinterest-scraper.js:366-380 | the timer runs at least once, and for a positive maximum it stops on the first tick whose running total reaches it |
| Scraper.ScrollTicks | pinterest-scraper.js:366-380 | the timer loop runs that many ticks and ends with a total of 100 per tick, at least the maximum |
| Scraper.Page.ScrollBy | pinterest-scraper.js:365-387 | the page is scrolled by the running total; its listeners are untouched |
| Scraper.AutoScroll | pinterest-scraper.js:359-407 | an abort seen on entry gives the cancel error without scrolling; any observed abort gives an error; without one it ends as the evaluation does; on success the page is scrolled by the ticks' total; any error is the cancel error after an observed abort, or the evaluation's error |
| Scraper.Checkpoint | pinterest-scraper.js:124-128 | one poll; it raises exactly when the signal is aborted at that poll; it then closes a non-null browser once and raises the close error or the cancel error, or raises the `TypeError` for a null browser |
| Scraper.ScrollAndExtract | pinterest-scraper.js:230-322 | an observed abort always raises; without one the block returns the dedup of the extraction; any raise follows an observed abort and carries a cancellation message |
| Scraper.PageSteps | pinterest-scraper.js:131-322 | a page exists exactly when `newPage` resolves; a failed step closes the browser and returns `[]`; results are always empty or the dedup of the extraction; an abort first observed during the steps raises, and an abort seen before stays seen |
| Scraper.TryBlock | pinterest-scraper.js:83-322 | an abort seen first throws the cancel error with no browser; any observed abort raises; without one the outcome is the reference outcome; a browser exists exactly when the launch resolves to one |
| Scraper.Search | pinterest-scraper.js:72-351 | as for the `try` block, and in addition: an observed abort makes `search` reject; the `catch` rethrows only cancellation, anything else resolves as `[]`; `finally` removes the page's listeners and closes the browser |
| Scraper.NoAbortThrowsIff | pinterest-scraper.js:323-331 | without an abort, `search` rejects exactly when a close after a failed step rejects with the cancel text; a failed launch resolves as `[]` |
| Scraper.SearchResultsShape | pinterest-scraper.js:302-322 | what `search` resolves with holds at most `limit` records, with distinct URLs, each with URL and source |
| Scraper.DownloadUrl | pinterest-scraper.js:433 | the URL requested is the original-size form of the given one |
| Scraper.DownloadImage | pinterest-scraper.js:416-471 | it succeeds exactly when the URL and path are given, no abort is seen, and the original-size URL answers ok with a body that writes; only then is the file written; the directory set never changes; at most that one URL is requested |
| PinDownload.FirstIndexFrom | src/pinterest-download.js:25 | the first separator at or after a position, or the end |
| PinDownload.LastIndexBefore | src/pinterest-download.js:24-29 | the last separator before a position, or -1 |
| PinDownload.FileExtension | src/pinterest-download.js:29 | the extension is non-empty and has no `.` and no `?` |
| PinDownload.AfterLastOf | src/pinterest-download.js:24-29 | `split(sep).pop()` of `a + sep + b` is `b` when `b` has no separator |
| PinDownload.BeforeFirstOf | src/pinterest-download.js:25-29 | `split(sep)[0]` of `a + sep + b` is `a` when `a` has no separator |
| PinDownload.AfterLastWhole | src/pinterest-download.js:24-29 | with no separator the last part is the whole text |
| PinDownload.BeforeFirstWhole | src/pinterest-download.js:25-29 | with no separator the first part is the whole text |
| PinDownload.UrlNameParts | src/pinterest-download.js:21-30 | for `base/stem.ext?query`, the id is `stem` and the extension is `ext` |
| PinDownload.NoDotExtension | src/pinterest-download.js:29 | a URL with neither `.` nor `?` is its own extension |
| PinDownload.EmptyExtensionIsJpg | src/pinterest-download.js:29 | an empty extension falls back to `jpg` |
| PinDownload.DownloadImage | src/pinterest-download.js:13-52 | makes a missing directory first and rejects with its error if that fails; otherwise the result is the reference download, the body is written only on success, and the one request is made when there is a URL |
| PinDownload.DownloadedName | src/pinterest-download.js:21-44 | a success names its file `pinterest_<id>.<ext>` in the directory and keeps a given id |
| PinDownload.DownloadedUrl | src/pinterest-download.js:39-44 | a success echoes the entry's `image_url` |
| PinDownload.WithUrlCount | src/pinterest-download.js:78 | at most one per entry |
| PinDownload.DownloadEntry | src/pinterest-download.js:77-89 | one entry with a URL is downloaded and lands in exactly its own list; any other entry is skipped |
| PinDownload.DownloadTurn | src/pinterest-download.js:76-90 | one turn extends both lists, both counts, the files and the requests by exactly that entry's share |
| PinDownload.DownloadAll | src/pinterest-download.js:76-90 | the loop yields the reference lists in input order, counts equal to their lengths, the reference files and one request per entry with a URL |
| PinDownload.BatchDownload | src/pinterest-download.js:60-92 | a directory that cannot be made rejects the batch with its error; otherwise it resolves with the reference report |
| PinDownload.DownloadedStep | src/pinterest-download.js:79-81 | each entry appends its own downloads to the list |
| PinDownload.FailedStep | src/pinterest-download.js:83-88 | each entry appends its own failure to the list |
| PinDownload.BatchCounts | src/pinterest-download.js:76-90 | downloaded plus failed is the number of entries with a URL |
| PinDownload.ReportShape | src/pinterest-download.js:66-92 | `success` is true, `total` is the input length, and the counts are the list lengths and add up to the entries with a URL |
| PinDownload.EmptyBatch | src/pinterest-download.js:66-73 | an empty batch reports nothing |
| PinDownload.DownloadedShare | src/pinterest-download.js:79-81 | a successful entry adds itself to `downloaded` and nothing to `failed` |
| PinDownload.FailedShare | src/pinterest-download.js:83-88 | a failing entry adds its URL and message to `failed` and nothing to `downloaded` |
| PinDownload.EveryDownloadListed | src/pinterest-download.js:76-90 | a failure does not stop the batch: every entry that downloads is listed |
| PinDownload.EveryFailureListed | src/pinterest-download.js:83-88 | every entry that fails is listed with its URL and message |
| PinDownload.DownloadedFilesExist | src/pinterest-download.js:37-80 | every listed download's path holds a file afterwards |
| PinDownload.FilesGrow | src/pinterest-download.js:37 | the batch only adds or overwrites files |
| PinDownload.DownloadedOfTwo | src/pinterest-download.js:76-82 | the list for two entries is the first entry's share followed by the second's |
| PinDownload.DownloadsComeFromResults | src/pinterest-download.js:76-82 | every listed download is the download of some entry with that entry's URL |
| JsValues.SingletonArrayString | pinterest-mcp-server.ts:269 | `String([e])` is `String(e)`, or empty for `undefined` and `null` |
| JsValues.ArrayConcatString | pinterest-mcp-server.ts:269 | `String(xs.concat(ys))` of two non-empty arrays is `String(xs) + "," + String(ys)` |
| JsValues.RadixDigitsEnd | pinterest-mcp-server.ts:275-276 | the end of the digit run that `parseInt` reads |
| JsValues.NatNumeral | pinterest-mcp-server.ts:275-276 | reading back the decimal digits of a natural number gives the number |
| JsValues.RunEnd | pinterest-mcp-server.ts:275-276 | a run of digits is read to its end |
| JsValues.ParseDecimalTail | pinterest-mcp-server.ts:275-276 | a trailing run of decimal digits is read as a whole, with or without radix detection |
| JsValues.ParsePrinted | pinterest-mcp-server.ts:275-276 | `parseInt(String(n))` and `parseInt(String(n), 10)` both give `n` |
| JsValues.HexPrefixAuto | pinterest-mcp-server.ts:275 | the test's `parseInt` without a radix reads `0x…` in base 16 |
| JsValues.HexPrefixDecimal | pinterest-mcp-server.ts:276 | the assignment's `parseInt(…, 10)` reads `0x…` as 0 |
| McpServer.ReadObjectArgs | pinterest-mcp-server.ts:260-291 | the object branch: keyword, limit and headless each come from the plain property, else the backticked one, else stay at the initial value; `String` of an array value joins its elements with `,` |
| McpServer.NormaliseArgs | pinterest-mcp-server.ts:248-367 | keyword is non-empty and limit at least 1; an empty keyword becomes `landscape`; a NaN or non-positive limit becomes 10; headless is as read |
| McpServer.ObjectKeywordTrimmed | pinterest-mcp-server.ts:266-271 | a keyword read from an object has no whitespace at either end |
| McpServer.NumberOrNumeralLimit | pinterest-mcp-server.ts:275-276 | a limit given as the number `n` or as its text `String(n)` is read as `n` |
| McpServer.HexLimitIsZero | pinterest-mcp-server.ts:275-276 | a `0x…` limit text passes the test but is assigned 0 |
| McpServer.ArrayArgs | pinterest-mcp-server.ts:265-276 | an array `` `keyword` `` `[k]` gives the trimmed `k`, and an array `limit` `[n]` gives `n` |
| McpServer.UnreadableLimit | pinterest-mcp-server.ts:275-281 | an unreadable limit text gives way to the backticked limit, or to the default when that is absent |
| McpServer.MarkerIsSegment | pinterest-mcp-server.ts:389-398 | each literal thumbnail marker the loop checks is a size segment |
| McpServer.NeedsFix | pinterest-mcp-server.ts:390-403 | the marker loop and the regex test together flag a URL exactly when it has a size segment |
| McpServer.Unfixed | pinterest-mcp-server.ts:387-406 | a result with an empty URL or no segment is left as it is |
| McpServer.CheckResult | pinterest-mcp-server.ts:387-410 | one result needs fixing exactly when its URL is non-empty with a segment; the fixed result replaces the leftmost segment and nothing else |
| McpServer.FixThumbnails | pinterest-mcp-server.ts:386-412 | the loop fixes every result in place, each as the one-result fix says |
| McpServer.FixAt | pinterest-mcp-server.ts:386-412 | one turn fixes the result at its index and leaves the others as they are |
| McpServer.FixedAll | pinterest-mcp-server.ts:386-412 | every result fixed, in order |
| McpServer.FixIsTransform | pinterest-mcp-server.ts:408 | the server's fix of a non-empty URL is the scraper's `transformImageUrl` |
| McpServer.FixAfterTransform | pinterest-mcp-server.ts:408 | after the scraper's transform, the server's fix still changes the URL exactly when the original had a further size segment starting at or after the last `/` of the one replaced |
| McpServer.KeepDirChars | pinterest-mcp-server.ts:615 | only `[a-zA-Z0-9_]` and U+4E00 to U+9FA5 are kept, and a name made of them is unchanged |
| McpServer.CleanNameKept | pinterest-mcp-server.ts:615 | a name of kept characters without whitespace passes both replacements unchanged |
| McpServer.DirNameChars | pinterest-mcp-server.ts:615 | the directory name holds only kept characters, so no whitespace, separator or dot |
| McpServer.DirNameIdempotent | pinterest-mcp-server.ts:615 | deriving the name from a derived name changes nothing |
| McpServer.PushResult | pinterest-mcp-server.ts:423-450 | one `forEach` turn appends that result's items |
| McpServer.SearchContent | pinterest-mcp-server.ts:415-450 | the reply is the header, then for each result its title, link, page when shown, and a separator except after the last |
| McpServer.ResultItemsLength | pinterest-mcp-server.ts:424-449 | a result pushes two items, one more when its page is shown, and one more unless it is last |
| McpServer.ResultsItemsCount | pinterest-mcp-server.ts:423-450 | the item count over the first results is two each, plus shown pages, plus separators |
| McpServer.SearchContentCount | pinterest-mcp-server.ts:415-450 | for N results the reply has 1 + 2N + shown pages + max(N-1, 0) items |
| McpServer.TitleFor | pinterest-mcp-server.ts:671 | corrected: the title of a result that has the download's URL, `No title` when none has |
| McpServer.AsPins | pinterest-mcp-server.ts:653 | the results as the batch gets them, one per result |
| McpServer.IndexTitleMislabels | pinterest-mcp-server.ts:668-672 | as written: when the first result's download fails and the second's succeeds, the one download is labelled with the failed result's title; the corrected rule labels it with its own |
| McpServer.DownloadedRecord | src/pinterest-download.js:79-80 | a successful result adds its own download with its URL |
| McpServer.DownloadTitleMatches | pinterest-mcp-server.ts:668-672 | corrected: every download is labelled with the title of a result whose URL it downloaded |
| McpServer.PushDownloaded | pinterest-mcp-server.ts:668-691 | one turn appends that download's title (that of the result at the same index, as written), link, location and separator |
| McpServer.PushFailed | pinterest-mcp-server.ts:700-718 | one turn appends that failure's URL, error and separator |
| McpServer.PushAllDownloaded | pinterest-mcp-server.ts:668-691 | the `forEach` appends the items of every download in order, titled by index as written |
| McpServer.PushAllFailed | pinterest-mcp-server.ts:694-719 | the heading, then the items of every failure in order |
| McpServer.DownloadContent | pinterest-mcp-server.ts:656-720 | the reply is the two header lines, the download items titled by index as written, and the failure section exactly when a failure was counted |
| McpServer.DownloadedItemsLength | pinterest-mcp-server.ts:669-690 | a download pushes three items, and one more unless it is last |
| McpServer.FailedItemsLength | pinterest-mcp-server.ts:701-717 | a failure pushes two items, and one more unless it is last |
| McpServer.DownloadedItemsCount | pinterest-mcp-server.ts:668-691 | the item count over the first downloads |
| McpServer.FailedItemsCount | pinterest-mcp-server.ts:700-718 | the item count over the first failures |
| McpServer.DownloadReplyCount | pinterest-mcp-server.ts:656-720 | for D downloads and F failures the reply has 2 + 3D + max(D-1, 0) items, plus 1 + 2F + (F-1) when F > 0, with either title rule |
| Cli.ParseOptions | bin/cli.js:12-19 | the loop's map is the reference map, built as if every argument were looked at; stepping over a consumed value never loses a key |
| Cli.KeysFromFlags | bin/cli.js:13-14 | a key is set exactly when some `--` argument names it |
| Cli.LastOccurrenceWins | bin/cli.js:16 | the last occurrence of a key decides its value |
| Cli.ValuesAreNoFlags | bin/cli.js:15 | a value is never empty and never starts with `--` |
| Cli.PortPrecedence | bin/cli.js:22 | a parsed `--port` always decides the port; otherwise a non-empty `PORT`; 3000 exactly when neither |
| Cli.BarePortFlag | bin/cli.js:15-22 | a bare trailing `--port` makes the port `true` |
| Host.Signal.Aborted | pinterest-scraper.js:85 | each read is one poll and sees the abort from poll `abortAt` on |
| Host.Network.Get | src/pinterest-download.js:34 | the answer for the URL, which is logged as requested |
| Host.FileSystem.WriteFile | src/pinterest-download.js:37 | writes the file unless the path refuses, then reports the error |
| Host.FileSystem.MakeDir | src/pinterest-download.js:17 | adds the directory unless the path refuses, then reports the error |

## Left out

- Puppeteer, the DOM and the in-page extraction script are not modelled. Launch, page creation, navigation, interception set-up, `evaluate` and `close` are an oracle (`Scraper.Env`) that fixes which step rejects and what the extraction returns.
- `getChromePath`, the launch options and the search URL are not modelled: they only configure the browser.
- Timers are not modelled. `autoScroll`'s `setInterval` is a loop that counts ticks, and the wait times of `search` are left out.
- The clock is an input: `generateFileName` takes the current UTC date as a parameter.
- The MCP SDK, the stdio transport, tool listing, the `try`/`catch` wrappers of both handlers and every `console` call are left out; the handlers start from their arguments.
- The string-argument branch of both handlers is left out: the backtick substitution, `JSON.parse`, the quote repair and the regular-expression recovery. Its result arrives as `StringArgs` with already-recovered values, and the final defaults are then applied as in the code.
- JavaScript numbers are integers or `NaN`; fractions and `Infinity` are not modelled (`JsValues.Number`).
- `in` is a key lookup in the argument map; inherited properties are not modelled.
- `path.join` is `/` concatenation of a plain directory and a plain name, without normalisation of `..` or duplicate separators.
- The server's own `existsSync`/`mkdirSync` step before the batch, and its error reply, are left out. The batch's own directory step is modelled; the search call that produces `validResults` is an input.
- `maxRetries` is passed to `batchDownload`, which ignores it, so no retry is modelled.
- The scraper's `downloadImage` works with `fetch`; an abort that arrives during the request is part of the answer oracle.
- The environment-variable writes of `bin/cli.js`, the server import and its log lines are left out; the port is reported as where it comes from (`Cli.PortSetting`).
- src/index.ts and the tests are not part of this model.
- Strings are sequences of Unicode code points, where JavaScript strings are sequences of UTF-16 code units. So a lone surrogate cannot be written, and `.length`, indices and `slice` positions differ from JavaScript for characters outside the Basic Multilingual Plane. `\s` is the JavaScript whitespace set, and case folding covers ASCII only, which is enough for the variable names involved.
- FilenameTemplate.WellFormed: keys made only of digits are not modelled. `Object.entries` lists such integer-like keys first, in numeric order, and the entry sequence keeps insertion order only.
- `encodeURIComponent(keyword)` and the search URL are not modelled, so its `URIError` on a lone surrogate (pinterest-scraper.js:91) is out of reach too, since strings cannot hold one.
- After an abort seen at the end of scrolling, `autoScroll` evaluates `window.scrollCancelled()` in the page (pinterest-scraper.js:389-391), which rejects the pending in-page promise. The model does not run that call or its possible rejection; it raises the cancel error straight away.
- JsValues.JsValue: functions and other non-array objects are one `Object` value that converts to `[object Object]`; a custom `toString` and cyclic arrays are not modelled.

## Findings

| source | as written | input that shows it | evidently intended | confidence | as-written member | corrected member |
|---|---|---|---|---|---|---|
| src/filename-template.ts:35 | each placeholder is lower-cased and looked up in the mixed-case list `['imageId', 'fileExtension', 'timestamp', 'index']` | the default template `pinterest_{imageId}.{fileExtension}`: `imageid` is not in the list | a case-insensitive match against the listed names, which accepts the default template | high, not executed | FilenameTemplate.DefaultTemplateRejected | FilenameTemplate.ValidateCaseInsensitiveAccepts |
| pinterest-mcp-server.ts:671 | the download at position `i` of `downloaded` is labelled with `validResults[i].title` | `[a, b]` with distinct URLs and titles, where `a`'s download fails and `b`'s succeeds: the one download, which is `b`'s, is labelled with `a`'s title | label each download with the title of the result whose URL it downloaded | medium, not executed | McpServer.IndexTitleMislabels | McpServer.DownloadTitleMatches |

The reply methods (`McpServer.PushDownloaded`, `McpServer.PushAllDownloaded`, `McpServer.DownloadContent`) model the code as written: `McpServer.DownloadReply` with `corrected` false titles each download by index (`McpServer.IndexTitle`). With `corrected` true the same reply takes the title by URL (`McpServer.TitleFor`), and `McpServer.DownloadTitleMatches` proves that this title belongs to a result with the download's URL.
