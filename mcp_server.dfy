/**
 * The MCP tool handlers `pinterest_search` and `pinterest_search_and_download`,
 * reduced to what they compute: the normalisation of the tool arguments with
 * their defaults, the in-place fix of thumbnail URLs, the directory name
 * derived from the keyword, and the text items of the reply.
 */
module McpServer {
  import opened JsStrings
  import opened JsValues
  import opened ImageUrl
  import opened Scraper
  import PinDownload
  import Host
  import FilenameTemplate

  // ---------------------------------------------------------------------
  // Argument normalisation

  const DefaultSearchLimit: int := 10
  const DefaultSearchKeyword: string := "landscape"
  const DefaultHeadless: bool := true

  /**
   * What the string-argument branch recovers from the text (by `JSON.parse`,
   * the quote fix-up or the regular expressions): each value that branch
   * assigns, already trimmed or parsed.
   */
  datatype Recovered = Recovered(keyword: Option<string>, limit: Option<Number>, headless: Option<bool>)

  /** The `args` of a tool call: an object with its properties, a string, or anything else. */
  datatype Args =
    | ObjectArgs(fields: map<string, JsValue>)
    | StringArgs(text: string, recovered: Recovered)
    | OtherArgs

  datatype SearchParams = SearchParams(keyword: string, limit: int, headless: bool)

  /** The keyword the arguments carry: the trimmed string `keyword`, else the trimmed `String` of `` `keyword` ``. */
  function KeywordArg(args: Args): string {
    match args
    case ObjectArgs(f) =>
      if "keyword" in f && f["keyword"].Str? then Trim(f["keyword"].s)
      else if "`keyword`" in f then Trim(ToString(f["`keyword`"]))
      else ""
    case StringArgs(text, found) => if text != "" && found.keyword.Some? then found.keyword.value else ""
    case OtherArgs => ""
  }

  /**
   * The limit the arguments carry: a number `limit` as it is, or `parseInt`
   * of a `limit` that `parseInt` can read at all; else `` `limit` `` read the
   * same way without that test; else the default.
   */
  function LimitArg(args: Args): Number {
    match args
    case ObjectArgs(f) =>
      if "limit" in f && (f["limit"].Num? || ParseInt(ToString(f["limit"]), true).Finite?) then
        (if f["limit"].Num? then f["limit"].n else ParseInt(ToString(f["limit"]), false))
      else if "`limit`" in f then
        (var v := f["`limit`"]; if v.Num? then v.n else ParseInt(ToString(v), false))
      else Finite(DefaultSearchLimit)
    case StringArgs(text, found) => if text != "" && found.limit.Some? then found.limit.value else Finite(DefaultSearchLimit)
    case OtherArgs => Finite(DefaultSearchLimit)
  }

  /** The headless flag the arguments carry: a boolean `headless`, else `Boolean` of `` `headless` ``, else `true`. */
  function HeadlessArg(args: Args): bool {
    match args
    case ObjectArgs(f) =>
      if "headless" in f && f["headless"].Bool? then f["headless"].b
      else if "`headless`" in f then Truthy(f["`headless`"])
      else DefaultHeadless
    case StringArgs(text, found) => if text != "" && found.headless.Some? then found.headless.value else DefaultHeadless
    case OtherArgs => DefaultHeadless
  }

  /** The object branch: each of the three properties, when present, overwrites its local. */
  method ReadObjectArgs(f: map<string, JsValue>) returns (keyword: string, limit: Number, headless: bool)
    ensures keyword == KeywordArg(ObjectArgs(f))
    ensures limit == LimitArg(ObjectArgs(f))
    ensures headless == HeadlessArg(ObjectArgs(f))
  {
    keyword, limit, headless := "", Finite(DefaultSearchLimit), DefaultHeadless;
    if "keyword" in f && f["keyword"].Str? {
      keyword := Trim(f["keyword"].s);
    } else if "`keyword`" in f {
      keyword := Trim(ToString(f["`keyword`"]));
    }
    if "limit" in f && (f["limit"].Num? || ParseInt(ToString(f["limit"]), true).Finite?) {
      limit := if f["limit"].Num? then f["limit"].n else ParseInt(ToString(f["limit"]), false);
    } else if "`limit`" in f {
      var limitValue := f["`limit`"];
      limit := if limitValue.Num? then limitValue.n else ParseInt(ToString(limitValue), false);
    }
    if "headless" in f && f["headless"].Bool? {
      headless := f["headless"].b;
    } else if "`headless`" in f {
      headless := Truthy(f["`headless`"]);
    }
  }

  /**
   * The normalisation at the start of both handlers: the locals start at
   * `''`, 10 and `true`, each argument present overwrites its local, and
   * finally an empty keyword becomes `landscape` and a `NaN` or non-positive
   * limit becomes 10.
   */
  method NormaliseArgs(args: Args) returns (p: SearchParams)
    ensures p.keyword != "" && p.limit >= 1
    ensures p.keyword == if KeywordArg(args) == "" then DefaultSearchKeyword else KeywordArg(args)
    ensures p.limit == if LimitArg(args).Finite? && LimitArg(args).value > 0 then LimitArg(args).value else DefaultSearchLimit
    ensures p.headless == HeadlessArg(args)
  {
    var keyword := "";
    var limit := Finite(DefaultSearchLimit);
    var headless := DefaultHeadless;
    match args {
      case ObjectArgs(f) =>
        keyword, limit, headless := ReadObjectArgs(f);
      case StringArgs(text, found) =>
        if text != "" {
          if found.keyword.Some? {
            keyword := found.keyword.value;
          }
          if found.limit.Some? {
            limit := found.limit.value;
          }
          if found.headless.Some? {
            headless := found.headless.value;
          }
        }
      case OtherArgs =>
    }
    if keyword == "" {
      keyword := DefaultSearchKeyword;
    }
    var n := DefaultSearchLimit;
    if limit.Finite? && limit.value > 0 {
      n := limit.value;
    }
    p := SearchParams(keyword, n, headless);
  }

  /** A keyword taken from an object argument has no whitespace at either end. */
  lemma ObjectKeywordTrimmed(f: map<string, JsValue>)
    ensures var k := KeywordArg(ObjectArgs(f));
      k != [] ==> !IsWhitespace(k[0]) && !IsWhitespace(k[|k| - 1])
  {
  }

  /** A `limit` given as the number `n` or as its decimal text `String(n)` is read as `n` either way. */
  lemma NumberOrNumeralLimit(f: map<string, JsValue>, n: int)
    requires "limit" in f && (f["limit"] == Num(Finite(n)) || f["limit"] == Str(IntToString(n)))
    ensures LimitArg(ObjectArgs(f)) == Finite(n)
  {
    if f["limit"].Str? {
      ParsePrinted(n, true);
      ParsePrinted(n, false);
    }
  }

  /**
   * A hexadecimal `limit` text such as `0x10` passes the `parseInt` test, but
   * is then read in base 10 as 0, so the search falls back to the default limit.
   */
  lemma HexLimitIsZero(f: map<string, JsValue>, s: string)
    requires "limit" in f && f["limit"] == Str(s)
    requires |s| > 2 && s[0] == '0' && s[1] == 'x'
    requires forall k :: 2 <= k < |s| ==> DigitValue(s[k]) < 16
    ensures LimitArg(ObjectArgs(f)) == Finite(0)
  {
    HexPrefixAuto(s);
    HexPrefixDecimal(s);
  }

  /** A `limit` text `parseInt` cannot read gives way to `` `limit` ``, or to the default when that is absent too. */
  lemma UnreadableLimit(f: map<string, JsValue>, s: string)
    requires "limit" in f && f["limit"] == Str(s) && ParseInt(s, true).NaN?
    ensures "`limit`" !in f ==> LimitArg(ObjectArgs(f)) == Finite(DefaultSearchLimit)
    ensures "`limit`" in f && f["`limit`"].Num? ==> LimitArg(ObjectArgs(f)) == f["`limit`"].n
  {
  }

  /**
   * Array values go through `String` like any other: `` {"`keyword`": [k], "limit": [n]} ``
   * asks for `k` with limit `n` (say `cats` and 20), since `String([k])` is `k` and `String([n])` is `String(n)`.
   */
  lemma ArrayArgs(f: map<string, JsValue>, k: string, n: int)
    requires "keyword" !in f && "`keyword`" in f && f["`keyword`"] == JsValue.Array([Str(k)])
    requires "limit" in f && f["limit"] == JsValue.Array([Num(Finite(n))])
    ensures KeywordArg(ObjectArgs(f)) == Trim(k)
    ensures LimitArg(ObjectArgs(f)) == Finite(n)
  {
    SingletonArrayString(Str(k));
    SingletonArrayString(Num(Finite(n)));
    ParsePrinted(n, true);
    ParsePrinted(n, false);
  }

  // ---------------------------------------------------------------------
  // Thumbnail fix

  /** A literal thumbnail marker occurring in `url` is a size segment of it. */
  lemma MarkerIsSegment(url: string, n: nat)
    requires n < |ThumbnailPatterns| && Contains(url, ThumbnailPatterns[n])
    ensures HasSegment(url)
  {
    var i: nat :| i <= |url| && OccursAt(url, ThumbnailPatterns[n], i);
    PatternIsSegment(url, n, i);
    SegmentGivesFirst(url, i);
  }

  /**
   * `needsFix`: one of the literal markers occurs (the loop stops at the
   * first), or else the generic pattern matches. Either way it is exactly
   * whether the URL has a size segment.
   */
  method NeedsFix(url: string) returns (needsFix: bool)
    ensures needsFix <==> HasSegment(url)
  {
    needsFix := false;
    var n := 0;
    while n < |ThumbnailPatterns|
      invariant 0 <= n <= |ThumbnailPatterns|
      invariant needsFix ==> HasSegment(url)
    {
      if Contains(url, ThumbnailPatterns[n]) {
        MarkerIsSegment(url, n);
        needsFix := true;
        break;
      }
      n := n + 1;
    }
    if !needsFix && HasSegment(url) {
      needsFix := true;
    }
  }

  /** A result after the fix: its URL with the leftmost size segment replaced, every other field as it was. */
  function Fixed(r: Record): Record {
    r.(imageUrl := ReplaceSegment(r.imageUrl))
  }

  /** A result whose URL has no size segment, the empty URL included, is its own fix. */
  lemma Unfixed(r: Record)
    requires r.imageUrl == "" || !HasSegment(r.imageUrl)
    ensures Fixed(r) == r
  {
    ReplaceChangesIff(r.imageUrl);
  }

  /** The body of the loop for one result: whether it needs fixing, and the fixed result. */
  method CheckResult(r: Record) returns (needsFix: bool, fixed: Record)
    ensures needsFix <==> r.imageUrl != "" && HasSegment(r.imageUrl)
    ensures fixed == Fixed(r)
    ensures !needsFix ==> fixed == r
  {
    needsFix := false;
    if r.imageUrl != "" {
      needsFix := NeedsFix(r.imageUrl);
    }
    fixed := Fixed(r);
    if !needsFix {
      Unfixed(r);
    }
  }

  /**
   * The loop over the search results: each result with a truthy `image_url`
   * that needs fixing gets its leftmost size segment replaced by
   * `/originals/`, in place; every other field and every other result is
   * left alone.
   */
  method FixThumbnails(results: array<Record>)
    modifies results
    ensures forall k :: 0 <= k < results.Length ==> results[k] == Fixed(old(results[k]))
  {
    ghost var before := results[..];
    ghost var target := FixedAll(before);
    var i := 0;
    while i < results.Length
      invariant 0 <= i <= results.Length
      invariant forall k :: 0 <= k < i ==> results[k] == target[k]
      invariant forall k :: i <= k < results.Length ==> results[k] == before[k]
    {
      FixAt(results, i, before, target);
      i := i + 1;
    }
  }

  /** One turn of the loop: the result at `i` is fixed, the others stay as they are. */
  method FixAt(results: array<Record>, i: nat, ghost before: seq<Record>, ghost target: seq<Record>)
    requires i < results.Length == |before| && target == FixedAll(before)
    requires forall k :: 0 <= k < i ==> results[k] == target[k]
    requires forall k :: i <= k < results.Length ==> results[k] == before[k]
    modifies results
    ensures forall k :: 0 <= k <= i ==> results[k] == target[k]
    ensures forall k :: i < k < results.Length ==> results[k] == before[k]
  {
    var needsFix, fixed := CheckResult(results[i]);
    if needsFix {
      results[i] := fixed;
    }
  }

  /** Every result fixed, for the proof of the loop. */
  ghost function FixedAll(rs: seq<Record>): (ts: seq<Record>)
    ensures |ts| == |rs| && forall k :: 0 <= k < |rs| ==> ts[k] == Fixed(rs[k])
  {
    seq(|rs|, k requires 0 <= k < |rs| => Fixed(rs[k]))
  }

  /** The fix does to a URL what the scraper's `transformImageUrl` does. */
  lemma FixIsTransform(url: string)
    requires url != ""
    ensures TransformImageUrl(Present(url)) == Present(ReplaceSegment(url))
  {
    TransformSpec(Present(url));
  }

  /**
   * On a URL the scraper has already transformed, the fix changes something
   * exactly when the original URL had a further size segment from the last
   * `/` of the replaced one on.
   */
  lemma FixAfterTransform(u: MaybeUrl)
    requires !Falsy(u) && HasSegment(u.text)
    ensures var t := TransformImageUrl(u).text;
      ReplaceSegment(t) != t <==>
        exists q :: SegmentEnd(u.text, FirstSegment(u.text, 0).value) - 1 <= q <= |u.text| && SegmentAt(u.text, q)
  {
    TransformSpec(u);
    var t := ReplaceSegment(u.text);
    ReplaceChangesIff(t);
    RewrittenSegmentIff(u.text);
  }

  // ---------------------------------------------------------------------
  // Keyword directory

  /** A character the directory name keeps: `[a-zA-Z0-9_]` or U+4E00 to U+9FA5. */
  predicate DirChar(c: char) {
    IsWordChar(c) || ('\U{4E00}' <= c <= '\U{9FA5}')
  }

  /** `t.replace(/[^a-zA-Z0-9_一-龥]/g, '')`: the kept characters, in order. */
  function KeepDirChars(t: string): (r: string)
    ensures forall i :: 0 <= i < |r| ==> DirChar(r[i])
    ensures (forall i :: 0 <= i < |t| ==> DirChar(t[i])) ==> r == t
    decreases |t|
  {
    if t == [] then []
    else if DirChar(t[0]) then [t[0]] + KeepDirChars(t[1..])
    else KeepDirChars(t[1..])
  }

  /** The last component of `keywordDir`: whitespace runs become `_` as in file names, then only kept characters stay. */
  function KeywordDirName(keyword: string): string {
    KeepDirChars(FilenameTemplate.CollapseWhitespace(keyword))
  }

  /** `path.join(downloadDir, name)`; an empty name leaves the directory itself. */
  function KeywordDir(downloadDir: string, keyword: string): string {
    var name := KeywordDirName(keyword);
    if name == "" then downloadDir else PinDownload.JoinPath(downloadDir, name)
  }

  /** The name holds only kept characters, hence no whitespace, path separator or dot. */
  lemma DirNameChars(keyword: string)
    ensures forall i :: 0 <= i < |KeywordDirName(keyword)| ==>
      var c := KeywordDirName(keyword)[i];
      DirChar(c) && !IsWhitespace(c) && c != '/' && c != '\\' && c != '.'
  {
  }

  /** Deriving the name from a name changes nothing. */
  lemma DirNameIdempotent(keyword: string)
    ensures KeywordDirName(KeywordDirName(keyword)) == KeywordDirName(keyword)
  {
    var n := KeywordDirName(keyword);
    DirCharsNoWhitespace(n);
    CleanNameKept(n);
  }

  /** Kept characters are no whitespace. */
  lemma DirCharsNoWhitespace(n: string)
    requires forall i :: 0 <= i < |n| ==> DirChar(n[i])
    ensures FilenameTemplate.NoWhitespace(n)
  {
  }

  /** A name of kept characters and no whitespace comes out of both replacements as it went in. */
  lemma CleanNameKept(n: string)
    requires FilenameTemplate.NoWhitespace(n) && forall i :: 0 <= i < |n| ==> DirChar(n[i])
    ensures KeywordDirName(n) == n
  {
    var c := FilenameTemplate.CollapseWhitespace(n);
    assert c == n;
  }

  // ---------------------------------------------------------------------
  // Reply of `pinterest_search`

  function TitleText(r: Record): string {
    if r.title != "" then r.title else "No title"
  }

  function LinkText(r: Record): string {
    if r.imageUrl != "" then r.imageUrl else "No link"
  }

  /** `result.link && result.link !== result.image_url` */
  predicate ShowsPage(r: Record) {
    r.link != "" && r.link != r.imageUrl
  }

  function SearchHeader(n: nat, keyword: string): string {
    "Found " + NatToString(n) + " images related to \"" + keyword + "\" on Pinterest"
  }

  /** The items pushed for the result at `index`: title, link, the page when shown, and a separator unless it is the last. */
  function ResultItems(rs: seq<Record>, index: nat): seq<string>
    requires index < |rs|
  {
    var r := rs[index];
    ["Image " + NatToString(index + 1) + ": " + TitleText(r), "Link: " + LinkText(r)]
    + (if ShowsPage(r) then ["Original page: " + r.link] else [])
    + (if index < |rs| - 1 then ["---"] else [])
  }

  /** The items pushed for the first `n` results. */
  function ResultsItems(rs: seq<Record>, n: nat): seq<string>
    requires n <= |rs|
    decreases n
  {
    if n == 0 then [] else ResultsItems(rs, n - 1) + ResultItems(rs, n - 1)
  }

  /** One turn of the `forEach`: the pushes for the result at `index`. */
  method PushResult(items: seq<string>, rs: seq<Record>, index: nat) returns (items': seq<string>)
    requires index < |rs|
    ensures items' == items + ResultItems(rs, index)
  {
    var result := rs[index];
    items' := items + ["Image " + NatToString(index + 1) + ": " + TitleText(result)];
    items' := items' + ["Link: " + LinkText(result)];
    if result.link != "" && result.link != result.imageUrl {
      items' := items' + ["Original page: " + result.link];
    }
    if index < |rs| - 1 {
      items' := items' + ["---"];
    }
  }

  /** `contentItems` of `pinterest_search`: the header, then the `forEach` over the results. */
  method SearchContent(keyword: string, rs: seq<Record>) returns (items: seq<string>)
    ensures items == [SearchHeader(|rs|, keyword)] + ResultsItems(rs, |rs|)
  {
    items := [SearchHeader(|rs|, keyword)];
    var index := 0;
    while index < |rs|
      invariant 0 <= index <= |rs|
      invariant items == [SearchHeader(|rs|, keyword)] + ResultsItems(rs, index)
    {
      items := PushResult(items, rs, index);
      index := index + 1;
    }
  }

  lemma ResultItemsLength(rs: seq<Record>, index: nat)
    requires index < |rs|
    ensures |ResultItems(rs, index)| == 2 + (if ShowsPage(rs[index]) then 1 else 0) + (if index < |rs| - 1 then 1 else 0)
  {
  }

  /** The number of results whose page link is shown. */
  function PageLinks(rs: seq<Record>): nat
    decreases |rs|
  {
    if rs == [] then 0 else PageLinks(rs[..|rs| - 1]) + (if ShowsPage(rs[|rs| - 1]) then 1 else 0)
  }

  /** The first `n` results push two items each, one per shown page, and a separator each except the very last result. */
  lemma {:induction false} ResultsItemsCount(rs: seq<Record>, n: nat)
    requires n <= |rs|
    ensures |ResultsItems(rs, n)| == 2 * n + PageLinks(rs[..n]) + (if n == |rs| && n > 0 then n - 1 else n)
    decreases n
  {
    if n > 0 {
      ResultsItemsCount(rs, n - 1);
      ResultItemsLength(rs, n - 1);
      assert rs[..n][..n - 1] == rs[..n - 1];
    }
  }

  /** For N results: one header, two items each, one per shown page, and N - 1 separators. */
  lemma SearchContentCount(keyword: string, rs: seq<Record>)
    ensures |[SearchHeader(|rs|, keyword)] + ResultsItems(rs, |rs|)| ==
      1 + 2 * |rs| + PageLinks(rs) + (if |rs| > 0 then |rs| - 1 else 0)
  {
    ResultsItemsCount(rs, |rs|);
    assert rs[..|rs|] == rs;
  }

  // ---------------------------------------------------------------------
  // Reply of `pinterest_search_and_download`

  /** The search result a scraped record becomes for `batchDownload`: no `id`, its `image_url`. */
  function AsPin(r: Record): PinDownload.PinResult {
    PinDownload.Pin("", Some(r.imageUrl))
  }

  function DownloadHeader(n: nat, keyword: string): string {
    "搜索并下载了 " + NatToString(n) + " 张与\"" + keyword + "\"相关的图片"
  }

  function CountsLine(downloaded: nat, failed: nat): string {
    "成功: " + NatToString(downloaded) + ", 失败: " + NatToString(failed)
  }

  /** `validResults[index]?.title || 'No title'`: the title of the result at the same index as the download. */
  function IndexTitle(validResults: seq<Record>, index: nat): string {
    if index < |validResults| then TitleText(validResults[index]) else "No title"
  }

  /** The title of the first result whose `image_url` is `url`, `No title` when there is none. */
  function TitleFor(validResults: seq<Record>, url: string): (t: string)
    ensures (exists k :: 0 <= k < |validResults| && validResults[k].imageUrl == url) ==>
      exists k :: 0 <= k < |validResults| && validResults[k].imageUrl == url && t == TitleText(validResults[k])
    decreases |validResults|
  {
    if validResults == [] then "No title"
    else if validResults[0].imageUrl == url then TitleText(validResults[0])
    else
      var t := TitleFor(validResults[1..], url);
      assert forall k :: 1 <= k < |validResults| ==> validResults[1..][k - 1] == validResults[k];
      t
  }

  /** The results as `batchDownload` receives them. */
  function AsPins(rs: seq<Record>): (ps: seq<PinDownload.PinResult>)
    ensures |ps| == |rs| && forall k :: 0 <= k < |rs| ==> ps[k] == AsPin(rs[k])
  {
    seq(|rs|, k requires 0 <= k < |rs| => AsPin(rs[k]))
  }

  /**
   * The title shown for the `index`-th download. As written
   * (`corrected == false`) it is that of the `index`-th search result; the
   * corrected rule takes the first result whose `image_url` is the
   * download's URL.
   */
  function DownloadTitle(validResults: seq<Record>, ds: seq<PinDownload.Download>, index: nat, corrected: bool): string
    requires index < |ds| && ds[index].Downloaded?
  {
    if corrected then TitleFor(validResults, ds[index].url) else IndexTitle(validResults, index)
  }

  /**
   * As written, the title shown for a download is that of the result at the
   * same index, even when an earlier result's download failed: with results
   * `a` (download fails) and `b` (downloaded), the one download is `b`'s but
   * is labelled with `a`'s title; the corrected rule labels it with `b`'s.
   */
  lemma IndexTitleMislabels(a: Record, b: Record, dir: string, answer: string -> Host.FetchResult, failing: set<string>)
    requires a.imageUrl != "" && b.imageUrl != "" && a.imageUrl != b.imageUrl && TitleText(a) != TitleText(b)
    requires PinDownload.ExpectedDownload(AsPin(a), dir, answer, failing).DownloadFailed?
    requires PinDownload.ExpectedDownload(AsPin(b), dir, answer, failing).Downloaded?
    ensures var ds := PinDownload.DownloadedOf(AsPins([a, b]), dir, answer, failing);
      |ds| == 1 && ds[0].Downloaded? && ds[0].url == b.imageUrl &&
      DownloadTitle([a, b], ds, 0, false) == TitleText(a) && DownloadTitle([a, b], ds, 0, true) == TitleText(b)
  {
    var ps := AsPins([a, b]);
    assert ps[0] == AsPin(a) && ps[1] == AsPin(b);
    PinDownload.DownloadedOfTwo(ps, dir, answer, failing);
    PinDownload.FailedShare(AsPin(a), dir, answer, failing);
    DownloadedRecord(b, dir, answer, failing);
    assert [a, b][1..] == [b];
  }

  /** A result whose download succeeds adds that download, with its URL, to `downloaded`. */
  lemma DownloadedRecord(b: Record, dir: string, answer: string -> Host.FetchResult, failing: set<string>)
    requires b.imageUrl != "" && PinDownload.ExpectedDownload(AsPin(b), dir, answer, failing).Downloaded?
    ensures var d := PinDownload.ExpectedDownload(AsPin(b), dir, answer, failing);
      PinDownload.DownloadedBy(AsPin(b), dir, answer, failing) == [d] && d.url == b.imageUrl
  {
    PinDownload.DownloadedShare(AsPin(b), dir, answer, failing);
    PinDownload.DownloadedUrl(AsPin(b), dir, answer, failing);
  }

  /** Corrected: each download is labelled with the title of a result that has its URL. */
  lemma DownloadTitleMatches(validResults: seq<Record>, dir: string, answer: string -> Host.FetchResult, failing: set<string>, j: nat)
    requires j < |PinDownload.DownloadedOf(AsPins(validResults), dir, answer, failing)|
    ensures var ds := PinDownload.DownloadedOf(AsPins(validResults), dir, answer, failing);
      ds[j].Downloaded? &&
      (exists k :: 0 <= k < |validResults| && validResults[k].imageUrl == ds[j].url && DownloadTitle(validResults, ds, j, true) == TitleText(validResults[k]))
  {
    var ps := AsPins(validResults);
    var ds := PinDownload.DownloadedOf(ps, dir, answer, failing);
    var d := ds[j];
    PinDownload.DownloadsComeFromResults(ps, dir, answer, failing, d);
    var k :| 0 <= k < |ps| && PinDownload.HasImageUrl(ps[k]) && ps[k].imageUrl.value == d.url;
    assert validResults[k].imageUrl == d.url;
  }

  /** The items for the download at `index`: title, link, location, and a separator unless it is the last. */
  function DownloadedItems(validResults: seq<Record>, ds: seq<PinDownload.Download>, index: nat, corrected: bool): seq<string>
    requires index < |ds| && ds[index].Downloaded?
  {
    var d := ds[index];
    ["图片 " + NatToString(index + 1) + ": " + DownloadTitle(validResults, ds, index, corrected), "链接: " + d.url, "保存位置: " + d.path]
    + (if index < |ds| - 1 then ["---"] else [])
  }

  function DownloadedItemsUpTo(validResults: seq<Record>, ds: seq<PinDownload.Download>, n: nat, corrected: bool): seq<string>
    requires n <= |ds| && forall k :: 0 <= k < |ds| ==> ds[k].Downloaded?
    decreases n
  {
    if n == 0 then [] else DownloadedItemsUpTo(validResults, ds, n - 1, corrected) + DownloadedItems(validResults, ds, n - 1, corrected)
  }

  /** The items for the failure at `index`: its URL, its error, and a separator unless it is the last. */
  function FailedItems(fs: seq<PinDownload.Failure>, index: nat): seq<string>
    requires index < |fs|
  {
    ["失败 " + NatToString(index + 1) + ": " + fs[index].url, "错误: " + fs[index].error]
    + (if index < |fs| - 1 then ["---"] else [])
  }

  function FailedItemsUpTo(fs: seq<PinDownload.Failure>, n: nat): seq<string>
    requires n <= |fs|
    decreases n
  {
    if n == 0 then [] else FailedItemsUpTo(fs, n - 1) + FailedItems(fs, n - 1)
  }

  const FailedHeading: string := "--- 下载失败的图片 ---"

  /**
   * The whole reply of `pinterest_search_and_download` for a batch report,
   * with titles by index as written or by URL when `corrected`.
   */
  function DownloadReply(keyword: string, validResults: seq<Record>, report: PinDownload.BatchOutcome, corrected: bool): seq<string>
    requires report.Report? && forall k :: 0 <= k < |report.downloaded| ==> report.downloaded[k].Downloaded?
  {
    [DownloadHeader(|validResults|, keyword), CountsLine(report.downloadedCount, report.failedCount)]
    + DownloadedItemsUpTo(validResults, report.downloaded, |report.downloaded|, corrected)
    + (if report.failedCount > 0 then [FailedHeading] + FailedItemsUpTo(report.failed, |report.failed|) else [])
  }

  /** One turn of the `forEach` over the downloads. */
  method PushDownloaded(items: seq<string>, validResults: seq<Record>, ds: seq<PinDownload.Download>, index: nat) returns (items': seq<string>)
    requires index < |ds| && ds[index].Downloaded?
    ensures items' == items + DownloadedItems(validResults, ds, index, false)
  {
    var result := ds[index];
    var title := if index < |validResults| && validResults[index].title != "" then validResults[index].title else "No title";
    items' := items + ["图片 " + NatToString(index + 1) + ": " + title];
    items' := items' + ["链接: " + result.url];
    items' := items' + ["保存位置: " + result.path];
    if index < |ds| - 1 {
      items' := items' + ["---"];
    }
  }

  /** One turn of the `forEach` over the failures. */
  method PushFailed(items: seq<string>, fs: seq<PinDownload.Failure>, index: nat) returns (items': seq<string>)
    requires index < |fs|
    ensures items' == items + FailedItems(fs, index)
  {
    items' := items + ["失败 " + NatToString(index + 1) + ": " + fs[index].url];
    items' := items' + ["错误: " + fs[index].error];
    if index < |fs| - 1 {
      items' := items' + ["---"];
    }
  }

  /**
   * `contentItems` of `pinterest_search_and_download`: two header lines,
   * three items per download, and, when something failed, a heading and
   * two items per failure, with separators between entries.
   */
  method DownloadContent(keyword: string, validResults: seq<Record>, report: PinDownload.BatchOutcome) returns (items: seq<string>)
    requires report.Report? && forall k :: 0 <= k < |report.downloaded| ==> report.downloaded[k].Downloaded?
    ensures items == DownloadReply(keyword, validResults, report, false)
  {
    var ds, fs := report.downloaded, report.failed;
    items := [DownloadHeader(|validResults|, keyword), CountsLine(report.downloadedCount, report.failedCount)];
    items := PushAllDownloaded(items, validResults, ds);
    if report.failedCount > 0 {
      items := PushAllFailed(items, fs);
    }
  }

  /** The `forEach` over the downloads. */
  method PushAllDownloaded(items: seq<string>, validResults: seq<Record>, ds: seq<PinDownload.Download>) returns (items': seq<string>)
    requires forall k :: 0 <= k < |ds| ==> ds[k].Downloaded?
    ensures items' == items + DownloadedItemsUpTo(validResults, ds, |ds|, false)
  {
    items' := items;
    var index := 0;
    while index < |ds|
      invariant 0 <= index <= |ds|
      invariant items' == items + DownloadedItemsUpTo(validResults, ds, index, false)
    {
      items' := PushDownloaded(items', validResults, ds, index);
      index := index + 1;
    }
  }

  /** The heading and the `forEach` over the failures. */
  method PushAllFailed(items: seq<string>, fs: seq<PinDownload.Failure>) returns (items': seq<string>)
    ensures items' == items + [FailedHeading] + FailedItemsUpTo(fs, |fs|)
  {
    items' := items + [FailedHeading];
    var index := 0;
    while index < |fs|
      invariant 0 <= index <= |fs|
      invariant items' == items + [FailedHeading] + FailedItemsUpTo(fs, index)
    {
      items' := PushFailed(items', fs, index);
      index := index + 1;
    }
  }

  lemma DownloadedItemsLength(validResults: seq<Record>, ds: seq<PinDownload.Download>, index: nat, corrected: bool)
    requires index < |ds| && ds[index].Downloaded?
    ensures |DownloadedItems(validResults, ds, index, corrected)| == 3 + (if index < |ds| - 1 then 1 else 0)
  {
  }

  lemma FailedItemsLength(fs: seq<PinDownload.Failure>, index: nat)
    requires index < |fs|
    ensures |FailedItems(fs, index)| == 2 + (if index < |fs| - 1 then 1 else 0)
  {
  }

  lemma {:induction false} DownloadedItemsCount(validResults: seq<Record>, ds: seq<PinDownload.Download>, n: nat, corrected: bool)
    requires n <= |ds| && forall k :: 0 <= k < |ds| ==> ds[k].Downloaded?
    ensures |DownloadedItemsUpTo(validResults, ds, n, corrected)| == 3 * n + (if n == |ds| && n > 0 then n - 1 else n)
    decreases n
  {
    if n > 0 {
      DownloadedItemsCount(validResults, ds, n - 1, corrected);
      DownloadedItemsLength(validResults, ds, n - 1, corrected);
    }
  }

  lemma {:induction false} FailedItemsCount(fs: seq<PinDownload.Failure>, n: nat)
    requires n <= |fs|
    ensures |FailedItemsUpTo(fs, n)| == 2 * n + (if n == |fs| && n > 0 then n - 1 else n)
    decreases n
  {
    if n > 0 {
      FailedItemsCount(fs, n - 1);
      FailedItemsLength(fs, n - 1);
    }
  }

  /** For D downloads and F failures: 2 + 4D - 1 items for the downloads, and 1 + 3F - 1 more when F > 0. */
  lemma DownloadReplyCount(keyword: string, validResults: seq<Record>, report: PinDownload.BatchOutcome, corrected: bool)
    requires report.Report? && forall k :: 0 <= k < |report.downloaded| ==> report.downloaded[k].Downloaded?
    requires report.failedCount == |report.failed|
    ensures var d, f := |report.downloaded|, |report.failed|;
      |DownloadReply(keyword, validResults, report, corrected)| ==
        2 + 3 * d + (if d > 0 then d - 1 else 0) + (if f > 0 then 1 + 2 * f + f - 1 else 0)
  {
    DownloadedItemsCount(validResults, report.downloaded, |report.downloaded|, corrected);
    FailedItemsCount(report.failed, |report.failed|);
  }
}
