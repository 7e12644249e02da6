/**
 * The stand-alone download helpers: `downloadImage`, which names the file
 * `pinterest_<id>.<extension>` and rethrows every failure, and
 * `batchDownload`, which downloads the entries that carry an image URL one
 * after the other and tallies successes and failures.
 */
module PinDownload {
  import opened JsStrings
  import opened Host

  /** A search result as `downloadImage` reads it; `""` is a falsy id and `None` a missing `image_url`. */
  datatype PinResult = NullResult | Pin(id: string, imageUrl: Option<string>)

  /** The index of the first `sep` of `s` at or after `i`, or `|s|` when there is none. */
  function FirstIndexFrom(s: string, sep: char, i: nat): (r: nat)
    requires i <= |s|
    ensures i <= r <= |s|
    ensures r < |s| ==> s[r] == sep
    ensures forall k :: i <= k < r ==> s[k] != sep
    decreases |s| - i
  {
    if i == |s| || s[i] == sep then i else FirstIndexFrom(s, sep, i + 1)
  }

  /** The index of the last `sep` of `s` before `j`, or `-1` when there is none. */
  function LastIndexBefore(s: string, sep: char, j: nat): (r: int)
    requires j <= |s|
    ensures -1 <= r < j
    ensures r >= 0 ==> s[r] == sep
    ensures forall k :: r < k < j ==> s[k] != sep
    decreases j
  {
    if j == 0 then -1 else if s[j - 1] == sep then j - 1 else LastIndexBefore(s, sep, j - 1)
  }

  /** The text after the last `sep` of `s`, all of `s` when there is none (`s.split(sep).pop()`). */
  function AfterLast(s: string, sep: char): string {
    s[LastIndexBefore(s, sep, |s|) + 1..]
  }

  /** The text before the first `sep` of `s`, all of `s` when there is none (`s.split(sep)[0]`). */
  function BeforeFirst(s: string, sep: char): string {
    s[..FirstIndexFrom(s, sep, 0)]
  }

  /** The id used in the file name: the given one, else the last path segment of the URL up to its first `.`. */
  function ImageId(id: string, url: string): string {
    if id != "" then id else BeforeFirst(AfterLast(url, '/'), '.')
  }

  /** After the last `.`, up to the first `?`, or `jpg` when that is empty. */
  function FileExtension(url: string): (ext: string)
    ensures ext != [] && '.' !in ext && '?' !in ext
  {
    var e := BeforeFirst(AfterLast(url, '.'), '?');
    if e == "" then "jpg" else e
  }

  function FileName(id: string, ext: string): string {
    "pinterest_" + id + "." + ext
  }

  /** `path.join(dir, name)` for a plain directory and a plain file name. */
  function JoinPath(dir: string, name: string): string {
    if dir == "" then name
    else if dir[|dir| - 1] == '/' then dir + name
    else dir + "/" + name
  }

  /** What `downloadImage` resolves with, or the message it rejects with. */
  datatype Download = Downloaded(id: string, path: string, url: string) | DownloadFailed(message: string)

  const UndefinedSplitError: string := "Cannot read properties of undefined (reading 'split')"
  const NullIdError: string := "Cannot read properties of null (reading 'id')"
  const BodyReadError: string := "aborted"

  /** The message axios rejects with for a response outside 2xx. */
  function StatusError(status: int): string {
    "Request failed with status code " + IntToString(status)
  }

  /** Reference: the result of `downloadImage` once the directory exists. */
  function ExpectedDownload(result: PinResult, dir: string, answer: string -> FetchResult, failing: set<string>): Download {
    match result
    case NullResult => DownloadFailed(NullIdError)
    case Pin(id, None) => DownloadFailed(UndefinedSplitError)
    case Pin(id, Some(url)) =>
      var imageId := ImageId(id, url);
      var path := JoinPath(dir, FileName(imageId, FileExtension(url)));
      var response := answer(url);
      if response.NetworkError? then DownloadFailed(response.message)
      else if !IsOk(response) then DownloadFailed(StatusError(response.status))
      else if response.body.None? then DownloadFailed(BodyReadError)
      else if path in failing then DownloadFailed(WriteError(path))
      else Downloaded(imageId, path, url)
  }

  /** The files after a successful `downloadImage`: the body written at the path; otherwise unchanged. */
  function FilesAfterDownload(files: map<string, Bytes>, result: PinResult, dir: string, answer: string -> FetchResult, failing: set<string>): map<string, Bytes> {
    var d := ExpectedDownload(result, dir, answer, failing);
    if d.Downloaded? then files[d.path := answer(d.url).body.value] else files
  }

  /** The request `downloadImage` makes, if it gets that far. */
  function RequestOf(result: PinResult): seq<string> {
    if result.Pin? && result.imageUrl.Some? then [result.imageUrl.value] else []
  }

  /**
   * `downloadImage(pinterestResult, downloadDir)`: creates the directory when
   * it is missing, builds the file name, fetches the URL as it is, writes the
   * body, and rethrows whatever failed.
   */
  method DownloadImage(result: PinResult, dir: string, net: Network, fs: FileSystem) returns (d: Download)
    modifies net, fs
    ensures old(fs.Exists(dir)) ==> d == ExpectedDownload(result, dir, net.answer, fs.failing)
    ensures !old(fs.Exists(dir)) && dir in fs.failing ==>
      d == DownloadFailed(MkdirError(dir)) && fs.files == old(fs.files) && fs.dirs == old(fs.dirs) && net.requested == old(net.requested)
    ensures !old(fs.Exists(dir)) && dir !in fs.failing ==>
      d == ExpectedDownload(result, dir, net.answer, fs.failing) && fs.dirs == old(fs.dirs) + {dir}
    ensures old(fs.Exists(dir)) ==> fs.dirs == old(fs.dirs)
    ensures d.Downloaded? ==> fs.files == old(fs.files)[d.path := net.answer(d.url).body.value]
    ensures d.DownloadFailed? ==> fs.files == old(fs.files)
    ensures old(fs.Exists(dir)) || dir !in fs.failing ==> net.requested == old(net.requested) + RequestOf(result)
  {
    if !fs.Exists(dir) {
      var err := fs.MakeDir(dir);
      if err.Some? {
        return DownloadFailed(err.value);
      }
    }
    if result.NullResult? {
      return DownloadFailed(NullIdError);
    }
    if result.imageUrl.None? {
      return DownloadFailed(UndefinedSplitError);
    }
    var url := result.imageUrl.value;
    var imageId := ImageId(result.id, url);
    var outputPath := JoinPath(dir, FileName(imageId, FileExtension(url)));
    var response := net.Get(url);
    if response.NetworkError? {
      return DownloadFailed(response.message);
    }
    if !IsOk(response) {
      return DownloadFailed(StatusError(response.status));
    }
    if response.body.None? {
      return DownloadFailed(BodyReadError);
    }
    var err := fs.WriteFile(outputPath, response.body.value);
    if err.Some? {
      return DownloadFailed(err.value);
    }
    return Downloaded(imageId, outputPath, url);
  }

  /** A failed entry of the batch report. */
  datatype Failure = Failure(url: string, error: string)

  /** What `batchDownload` resolves with, or the directory error it rejects with. */
  datatype BatchOutcome =
    | BatchRejected(message: string)
    | Report(success: bool, total: nat, downloadedCount: nat, failedCount: nat,
             downloaded: seq<Download>, failed: seq<Failure>)

  /** `result && result.image_url` */
  predicate HasImageUrl(r: PinResult) {
    r.Pin? && r.imageUrl.Some? && r.imageUrl.value != ""
  }

  /** Reference: the `downloaded` list for the entries `rs`, in order. */
  function DownloadedOf(rs: seq<PinResult>, dir: string, answer: string -> FetchResult, failing: set<string>): (ds: seq<Download>)
    decreases |rs|
  {
    if rs == [] then []
    else
      DownloadedOf(rs[..|rs| - 1], dir, answer, failing) + DownloadedBy(rs[|rs| - 1], dir, answer, failing)
  }

  /** Reference: the `failed` list for the entries `rs`, in order. */
  function FailedOf(rs: seq<PinResult>, dir: string, answer: string -> FetchResult, failing: set<string>): seq<Failure>
    decreases |rs|
  {
    if rs == [] then []
    else
      FailedOf(rs[..|rs| - 1], dir, answer, failing) + FailedBy(rs[|rs| - 1], dir, answer, failing)
  }

  /** Reference: the files after the downloads of the entries `rs`, in order. */
  function FilesAfterBatch(files: map<string, Bytes>, rs: seq<PinResult>, dir: string, answer: string -> FetchResult, failing: set<string>): map<string, Bytes>
    decreases |rs|
  {
    if rs == [] then files
    else
      var prev := FilesAfterBatch(files, rs[..|rs| - 1], dir, answer, failing);
      var last := rs[|rs| - 1];
      if HasImageUrl(last) then FilesAfterDownload(prev, last, dir, answer, failing) else prev
  }

  /** The URLs requested for the entries `rs`, in order. */
  function RequestsOf(rs: seq<PinResult>): seq<string>
    decreases |rs|
  {
    if rs == [] then []
    else RequestsOf(rs[..|rs| - 1]) + (if HasImageUrl(rs[|rs| - 1]) then [rs[|rs| - 1].imageUrl.value] else [])
  }

  /** The number of entries with an image URL. */
  function WithUrlCount(rs: seq<PinResult>): (n: nat)
    ensures n <= |rs|
    decreases |rs|
  {
    if rs == [] then 0
    else WithUrlCount(rs[..|rs| - 1]) + (if HasImageUrl(rs[|rs| - 1]) then 1 else 0)
  }

  /** The report `batchDownload` builds once the directory exists. */
  function ExpectedReport(rs: seq<PinResult>, dir: string, answer: string -> FetchResult, failing: set<string>): BatchOutcome {
    var ds := DownloadedOf(rs, dir, answer, failing);
    var fs := FailedOf(rs, dir, answer, failing);
    Report(true, |rs|, |ds|, |fs|, ds, fs)
  }

  /** What one entry adds to the `downloaded` list. */
  function DownloadedBy(r: PinResult, dir: string, answer: string -> FetchResult, failing: set<string>): seq<Download> {
    var d := ExpectedDownload(r, dir, answer, failing);
    if HasImageUrl(r) && d.Downloaded? then [d] else []
  }

  /** What one entry adds to the `failed` list. */
  function FailedBy(r: PinResult, dir: string, answer: string -> FetchResult, failing: set<string>): seq<Failure> {
    var d := ExpectedDownload(r, dir, answer, failing);
    if HasImageUrl(r) && d.DownloadFailed? then [Failure(r.imageUrl.value, d.message)] else []
  }

  lemma DownloadedStep(rs: seq<PinResult>, i: nat, dir: string, answer: string -> FetchResult, failing: set<string>)
    requires i < |rs|
    ensures DownloadedOf(rs[..i + 1], dir, answer, failing) == DownloadedOf(rs[..i], dir, answer, failing) + DownloadedBy(rs[i], dir, answer, failing)
  {
    assert rs[..i + 1][..i] == rs[..i];
  }

  lemma FailedStep(rs: seq<PinResult>, i: nat, dir: string, answer: string -> FetchResult, failing: set<string>)
    requires i < |rs|
    ensures FailedOf(rs[..i + 1], dir, answer, failing) == FailedOf(rs[..i], dir, answer, failing) + FailedBy(rs[i], dir, answer, failing)
  {
    assert rs[..i + 1][..i] == rs[..i];
  }

  lemma FilesStep(rs: seq<PinResult>, i: nat, dir: string, answer: string -> FetchResult, failing: set<string>, files: map<string, Bytes>)
    requires i < |rs|
    ensures FilesAfterBatch(files, rs[..i + 1], dir, answer, failing) ==
      (if HasImageUrl(rs[i]) then FilesAfterDownload(FilesAfterBatch(files, rs[..i], dir, answer, failing), rs[i], dir, answer, failing)
       else FilesAfterBatch(files, rs[..i], dir, answer, failing))
  {
    assert rs[..i + 1][..i] == rs[..i];
  }

  lemma RequestsStep(rs: seq<PinResult>, i: nat)
    requires i < |rs|
    ensures RequestsOf(rs[..i + 1]) == RequestsOf(rs[..i]) + (if HasImageUrl(rs[i]) then [rs[i].imageUrl.value] else [])
  {
    assert rs[..i + 1][..i] == rs[..i];
  }

  /** The `try` block of the loop: an entry with an image URL is downloaded, any other is skipped. */
  method DownloadEntry(result: PinResult, dir: string, net: Network, fs: FileSystem) returns (d: Option<Download>)
    requires fs.Exists(dir)
    modifies net, fs
    ensures d.Some? <==> HasImageUrl(result)
    ensures DownloadedBy(result, dir, net.answer, fs.failing) == (if d.Some? && d.value.Downloaded? then [d.value] else [])
    ensures FailedBy(result, dir, net.answer, fs.failing) ==
      (if d.Some? && d.value.DownloadFailed? then [Failure(result.imageUrl.value, d.value.message)] else [])
    ensures fs.files == if d.Some? then FilesAfterDownload(old(fs.files), result, dir, net.answer, fs.failing) else old(fs.files)
    ensures net.requested == old(net.requested) + (if d.Some? then [result.imageUrl.value] else [])
    ensures fs.dirs == old(fs.dirs) && fs.Exists(dir)
  {
    if result.Pin? && result.imageUrl.Some? && result.imageUrl.value != "" {
      var r := DownloadImage(result, dir, net, fs);
      d := Some(r);
    } else {
      d := None;
    }
  }

  /** One turn of the loop of `batchDownload`: entry `i` extends the lists, the counts, the files and the requests by its own share. */
  method DownloadTurn(results: seq<PinResult>, i: nat, dir: string, net: Network, fs: FileSystem,
                      ghost files0: map<string, Bytes>, ghost requested0: seq<string>,
                      downloaded: seq<Download>, failed: seq<Failure>, downloadedCount: nat, failedCount: nat)
      returns (downloaded': seq<Download>, failed': seq<Failure>, downloadedCount': nat, failedCount': nat)
    requires i < |results| && fs.Exists(dir)
    requires downloaded == DownloadedOf(results[..i], dir, net.answer, fs.failing)
    requires failed == FailedOf(results[..i], dir, net.answer, fs.failing)
    requires downloadedCount == |downloaded| && failedCount == |failed|
    requires fs.files == FilesAfterBatch(files0, results[..i], dir, net.answer, fs.failing)
    requires net.requested == requested0 + RequestsOf(results[..i])
    modifies net, fs
    ensures downloaded' == DownloadedOf(results[..i + 1], dir, net.answer, fs.failing)
    ensures failed' == FailedOf(results[..i + 1], dir, net.answer, fs.failing)
    ensures downloadedCount' == |downloaded'| && failedCount' == |failed'|
    ensures fs.files == FilesAfterBatch(files0, results[..i + 1], dir, net.answer, fs.failing)
    ensures net.requested == requested0 + RequestsOf(results[..i + 1])
    ensures fs.dirs == old(fs.dirs) && fs.Exists(dir)
  {
    DownloadedStep(results, i, dir, net.answer, fs.failing);
    FailedStep(results, i, dir, net.answer, fs.failing);
    FilesStep(results, i, dir, net.answer, fs.failing, files0);
    RequestsStep(results, i);
    var d := DownloadEntry(results[i], dir, net, fs);
    downloaded', failed', downloadedCount', failedCount' := downloaded, failed, downloadedCount, failedCount;
    if d.Some? {
      if d.value.Downloaded? {
        downloaded' := downloaded + [d.value];
        downloadedCount' := downloadedCount + 1;
      } else {
        failed' := failed + [Failure(results[i].imageUrl.value, d.value.message)];
        failedCount' := failedCount + 1;
      }
    }
  }

  /** The loop of `batchDownload`, over a directory that exists. */
  method DownloadAll(results: seq<PinResult>, dir: string, net: Network, fs: FileSystem)
      returns (downloaded: seq<Download>, failed: seq<Failure>, downloadedCount: nat, failedCount: nat)
    requires fs.Exists(dir)
    modifies net, fs
    ensures downloaded == DownloadedOf(results, dir, net.answer, fs.failing)
    ensures failed == FailedOf(results, dir, net.answer, fs.failing)
    ensures downloadedCount == |downloaded| && failedCount == |failed|
    ensures fs.files == FilesAfterBatch(old(fs.files), results, dir, net.answer, fs.failing)
    ensures net.requested == old(net.requested) + RequestsOf(results)
    ensures fs.dirs == old(fs.dirs)
  {
    downloaded, failed := [], [];
    downloadedCount, failedCount := 0, 0;
    ghost var files0, requested0 := fs.files, net.requested;
    var i := 0;
    while i < |results|
      invariant 0 <= i <= |results|
      invariant fs.dirs == old(fs.dirs) && fs.Exists(dir)
      invariant downloaded == DownloadedOf(results[..i], dir, net.answer, fs.failing)
      invariant failed == FailedOf(results[..i], dir, net.answer, fs.failing)
      invariant downloadedCount == |downloaded| && failedCount == |failed|
      invariant fs.files == FilesAfterBatch(files0, results[..i], dir, net.answer, fs.failing)
      invariant net.requested == requested0 + RequestsOf(results[..i])
    {
      downloaded, failed, downloadedCount, failedCount :=
        DownloadTurn(results, i, dir, net, fs, files0, requested0, downloaded, failed, downloadedCount, failedCount);
      i := i + 1;
    }
    assert results[..|results|] == results;
  }

  /**
   * `batchDownload(results, downloadDir)`: creates the directory when it is
   * missing (a failure rejects the whole batch), then downloads every entry
   * that has an image URL, one at a time, recording each success and failure.
   */
  method BatchDownload(results: seq<PinResult>, dir: string, net: Network, fs: FileSystem) returns (report: BatchOutcome)
    modifies net, fs
    ensures !old(fs.Exists(dir)) && dir in fs.failing ==>
      report == BatchRejected(MkdirError(dir)) && fs.files == old(fs.files) && fs.dirs == old(fs.dirs) && net.requested == old(net.requested)
    ensures old(fs.Exists(dir)) || dir !in fs.failing ==>
      && report == ExpectedReport(results, dir, net.answer, fs.failing)
      && fs.files == FilesAfterBatch(old(fs.files), results, dir, net.answer, fs.failing)
      && net.requested == old(net.requested) + RequestsOf(results)
      && fs.dirs == (if old(fs.Exists(dir)) then old(fs.dirs) else old(fs.dirs) + {dir})
  {
    if !fs.Exists(dir) {
      var err := fs.MakeDir(dir);
      if err.Some? {
        return BatchRejected(err.value);
      }
    }
    var downloaded, failed, downloadedCount, failedCount := DownloadAll(results, dir, net, fs);
    report := Report(true, |results|, downloadedCount, failedCount, downloaded, failed);
  }

  // ---------------------------------------------------------------------
  // File names

  /** The last `sep`-separated part of `a + [sep] + b` is `b` when `b` has no `sep`. */
  lemma AfterLastOf(a: string, sep: char, b: string)
    requires sep !in b
    ensures AfterLast(a + [sep] + b, sep) == b
  {
    var s := a + [sep] + b;
    var r := LastIndexBefore(s, sep, |s|);
    assert s[|a|] == sep;
    assert forall k :: |a| < k < |s| ==> s[k] == b[k - |a| - 1];
    assert r == |a|;
    assert s[|a| + 1..] == b;
  }

  /** The first `sep`-separated part of `a + [sep] + b` is `a` when `a` has no `sep`. */
  lemma BeforeFirstOf(a: string, sep: char, b: string)
    requires sep !in a
    ensures BeforeFirst(a + [sep] + b, sep) == a
  {
    var s := a + [sep] + b;
    assert s[|a|] == sep;
    assert forall k :: 0 <= k < |a| ==> s[k] == a[k];
    assert FirstIndexFrom(s, sep, 0) == |a|;
    assert s[..|a|] == a;
  }

  /** Without a separator, the last part is the whole text. */
  lemma AfterLastWhole(s: string, sep: char)
    requires sep !in s
    ensures AfterLast(s, sep) == s
  {
    assert LastIndexBefore(s, sep, |s|) == -1;
  }

  /** Without a separator, the first part is the whole text. */
  lemma BeforeFirstWhole(s: string, sep: char)
    requires sep !in s
    ensures BeforeFirst(s, sep) == s
  {
    assert FirstIndexFrom(s, sep, 0) == |s|;
  }

  /**
   * For `<base>/<stem>.<ext>?<query>` (no `/` or `.` in the stem, none of
   * `/`, `.`, `?` in the extension, no `.` or `/` in the query), the id falls
   * back to the stem and the extension is `ext`.
   */
  lemma UrlNameParts(base: string, stem: string, ext: string, query: string)
    requires '/' !in stem && '.' !in stem && ext != []
    requires '/' !in ext && '.' !in ext && '?' !in ext
    requires '/' !in query && '.' !in query
    ensures var url := base + "/" + stem + "." + ext + "?" + query;
      ImageId("", url) == stem && FileExtension(url) == ext
  {
    var url := base + "/" + stem + "." + ext + "?" + query;
    var last := stem + "." + ext + "?" + query;
    assert url == base + ['/'] + last;
    assert '/' !in last;
    AfterLastOf(base, '/', last);
    assert last == stem + ['.'] + (ext + "?" + query);
    BeforeFirstOf(stem, '.', ext + "?" + query);
    var afterDot := ext + "?" + query;
    assert url == (base + "/" + stem) + ['.'] + afterDot;
    assert '.' !in afterDot;
    AfterLastOf(base + "/" + stem, '.', afterDot);
    assert afterDot == ext + ['?'] + query;
    BeforeFirstOf(ext, '?', query);
  }

  /** A non-empty URL with neither `.` nor `?` is its own extension: both splits keep the whole text. */
  lemma NoDotExtension(url: string)
    requires '.' !in url && '?' !in url && url != []
    ensures FileExtension(url) == url
  {
    AfterLastWhole(url, '.');
    BeforeFirstWhole(url, '?');
  }

  /** A URL ending in `.` (or `.?…`) falls back to `jpg`. */
  lemma EmptyExtensionIsJpg(base: string, query: string)
    requires '.' !in query
    ensures FileExtension(base + "." + "?" + query) == "jpg"
  {
    var url := base + "." + "?" + query;
    assert url == base + ['.'] + ("?" + query);
    AfterLastOf(base, '.', "?" + query);
    assert "?" + query == [] + ['?'] + query;
    BeforeFirstOf([], '?', query);
  }

  /** A successful download names its file `pinterest_<id>.<ext>` in the directory, and keeps a given id. */
  lemma DownloadedName(r: PinResult, dir: string, answer: string -> FetchResult, failing: set<string>)
    ensures var d := ExpectedDownload(r, dir, answer, failing);
      d.Downloaded? ==>
        && r.Pin? && r.imageUrl == Some(d.url)
        && d.path == JoinPath(dir, "pinterest_" + d.id + "." + FileExtension(d.url))
        && (r.id != "" ==> d.id == r.id)
        && IsOk(answer(d.url)) && answer(d.url).body.Some? && d.path !in failing
  {
  }

  // ---------------------------------------------------------------------
  // Batch report

  /** Every entry with an image URL lands in exactly one of the two lists. */
  lemma {:induction false} BatchCounts(rs: seq<PinResult>, dir: string, answer: string -> FetchResult, failing: set<string>)
    ensures |DownloadedOf(rs, dir, answer, failing)| + |FailedOf(rs, dir, answer, failing)| == WithUrlCount(rs)
    decreases |rs|
  {
    if rs != [] {
      BatchCounts(rs[..|rs| - 1], dir, answer, failing);
    }
  }

  /** The report: `success` is always true, `total` is the input length, and the counts add up to the entries with a URL. */
  lemma ReportShape(rs: seq<PinResult>, dir: string, answer: string -> FetchResult, failing: set<string>)
    ensures var r := ExpectedReport(rs, dir, answer, failing);
      && r.Report? && r.success && r.total == |rs|
      && r.downloadedCount == |r.downloaded| && r.failedCount == |r.failed|
      && r.downloadedCount + r.failedCount == WithUrlCount(rs) <= r.total
  {
    BatchCounts(rs, dir, answer, failing);
  }

  /** An empty batch reports nothing downloaded and nothing failed. */
  lemma EmptyBatch(dir: string, answer: string -> FetchResult, failing: set<string>)
    ensures ExpectedReport([], dir, answer, failing) == Report(true, 0, 0, 0, [], [])
  {
  }

  /** A downloaded entry adds itself to `downloaded` and nothing to `failed`. */
  lemma DownloadedShare(r: PinResult, dir: string, answer: string -> FetchResult, failing: set<string>)
    requires HasImageUrl(r) && ExpectedDownload(r, dir, answer, failing).Downloaded?
    ensures DownloadedBy(r, dir, answer, failing) == [ExpectedDownload(r, dir, answer, failing)]
    ensures FailedBy(r, dir, answer, failing) == []
  {
  }

  /** A failed entry adds its URL and message to `failed` and nothing to `downloaded`. */
  lemma FailedShare(r: PinResult, dir: string, answer: string -> FetchResult, failing: set<string>)
    requires HasImageUrl(r) && ExpectedDownload(r, dir, answer, failing).DownloadFailed?
    ensures DownloadedBy(r, dir, answer, failing) == []
    ensures FailedBy(r, dir, answer, failing) == [Failure(r.imageUrl.value, ExpectedDownload(r, dir, answer, failing).message)]
  {
  }

  /** A failure does not stop the batch: every entry that downloads is listed, whatever happened to the others. */
  lemma {:induction false} EveryDownloadListed(rs: seq<PinResult>, i: nat, dir: string, answer: string -> FetchResult, failing: set<string>)
    requires i < |rs| && HasImageUrl(rs[i]) && ExpectedDownload(rs[i], dir, answer, failing).Downloaded?
    ensures ExpectedDownload(rs[i], dir, answer, failing) in DownloadedOf(rs, dir, answer, failing)
    decreases |rs|
  {
    var init := rs[..|rs| - 1];
    if i == |rs| - 1 {
      DownloadedShare(rs[i], dir, answer, failing);
    } else {
      assert init[i] == rs[i];
      EveryDownloadListed(init, i, dir, answer, failing);
    }
  }

  /** Every entry that fails is listed with its URL and message, whatever happened to the others. */
  lemma {:induction false} EveryFailureListed(rs: seq<PinResult>, i: nat, dir: string, answer: string -> FetchResult, failing: set<string>)
    requires i < |rs| && HasImageUrl(rs[i]) && ExpectedDownload(rs[i], dir, answer, failing).DownloadFailed?
    ensures Failure(rs[i].imageUrl.value, ExpectedDownload(rs[i], dir, answer, failing).message) in FailedOf(rs, dir, answer, failing)
    decreases |rs|
  {
    var init := rs[..|rs| - 1];
    if i == |rs| - 1 {
      FailedShare(rs[i], dir, answer, failing);
    } else {
      assert init[i] == rs[i];
      EveryFailureListed(init, i, dir, answer, failing);
    }
  }

  /** Every downloaded entry's path holds a file after the batch. */
  lemma {:induction false} DownloadedFilesExist(files: map<string, Bytes>, rs: seq<PinResult>, dir: string, answer: string -> FetchResult, failing: set<string>)
    ensures forall d :: d in DownloadedOf(rs, dir, answer, failing) ==> d.Downloaded? && d.path in FilesAfterBatch(files, rs, dir, answer, failing)
    decreases |rs|
  {
    if rs != [] {
      var init := rs[..|rs| - 1];
      DownloadedFilesExist(files, init, dir, answer, failing);
      FilesGrow(files, init, dir, answer, failing);
    }
  }

  /** The batch only adds or overwrites files. */
  lemma {:induction false} FilesGrow(files: map<string, Bytes>, rs: seq<PinResult>, dir: string, answer: string -> FetchResult, failing: set<string>)
    ensures files.Keys <= FilesAfterBatch(files, rs, dir, answer, failing).Keys
    decreases |rs|
  {
    if rs != [] {
      FilesGrow(files, rs[..|rs| - 1], dir, answer, failing);
    }
  }

  /** The `downloaded` list of two entries: that of the first, then that of the second. */
  lemma DownloadedOfTwo(rs: seq<PinResult>, dir: string, answer: string -> FetchResult, failing: set<string>)
    requires |rs| == 2
    ensures DownloadedOf(rs, dir, answer, failing) == DownloadedBy(rs[0], dir, answer, failing) + DownloadedBy(rs[1], dir, answer, failing)
  {
    DownloadedStep(rs, 0, dir, answer, failing);
    DownloadedStep(rs, 1, dir, answer, failing);
    assert rs[..2] == rs;
    assert rs[..0] == [];
  }

  /** A download brings back the URL it was asked for. */
  lemma DownloadedUrl(r: PinResult, dir: string, answer: string -> FetchResult, failing: set<string>)
    requires ExpectedDownload(r, dir, answer, failing).Downloaded?
    ensures r.Pin? && r.imageUrl == Some(ExpectedDownload(r, dir, answer, failing).url)
  {
  }

  /** Every entry of the `downloaded` list is the download of one of the results, with that result's image URL. */
  lemma {:induction false} DownloadsComeFromResults(rs: seq<PinResult>, dir: string, answer: string -> FetchResult, failing: set<string>, d: Download)
    requires d in DownloadedOf(rs, dir, answer, failing)
    ensures d.Downloaded?
    ensures exists k :: 0 <= k < |rs| && HasImageUrl(rs[k]) && rs[k].imageUrl.value == d.url && d == ExpectedDownload(rs[k], dir, answer, failing)
    decreases |rs|
  {
    var init := rs[..|rs| - 1];
    if d in DownloadedOf(init, dir, answer, failing) {
      DownloadsComeFromResults(init, dir, answer, failing, d);
      var k :| 0 <= k < |init| && HasImageUrl(init[k]) && init[k].imageUrl.value == d.url &&
        d == ExpectedDownload(init[k], dir, answer, failing);
      assert init[k] == rs[k];
    } else {
      var last := rs[|rs| - 1];
      assert d in DownloadedBy(last, dir, answer, failing);
      DownloadedUrl(last, dir, answer, failing);
    }
  }
}
