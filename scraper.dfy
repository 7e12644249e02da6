/**
 * The scraper's own logic around the browser: the request-interception
 * decision, the dedup-and-limit pass over the extracted records, the
 * `autoScroll` counter, the `search` control flow with its cancellation
 * checkpoints and `finally`, and the simple boolean `downloadImage`.
 * Puppeteer, the page, `fetch` and the file system are oracles.
 */
module Scraper {
  import opened JsStrings
  import opened ImageUrl
  import opened Host

  const CancelMessage: string := "操作被取消"
  const DefaultSource: string := "pinterest"

  // ---------------------------------------------------------------------
  // Request interception

  datatype RequestAction = AbortRequest | ContinueRequest

  predicate IsBlockedType(resourceType: string) {
    resourceType == "image" || resourceType == "font" || resourceType == "media"
  }

  /** The request handler installed on the page; `aborted` is `signal && signal.aborted` at the time of the request. */
  function HandleRequest(aborted: bool, resourceType: string): (a: RequestAction)
    ensures a == AbortRequest <==> aborted || IsBlockedType(resourceType)
    ensures aborted ==> a == AbortRequest
  {
    if aborted then AbortRequest
    else if IsBlockedType(resourceType) then AbortRequest
    else ContinueRequest
  }

  /** Once the signal is aborted every request is aborted, whatever its type; before that, only images, fonts and media are. */
  lemma HandleRequestCases(resourceType: string)
    ensures HandleRequest(true, resourceType) == AbortRequest
    ensures HandleRequest(false, resourceType) == ContinueRequest <==> !IsBlockedType(resourceType)
    ensures HandleRequest(false, "document") == ContinueRequest && HandleRequest(false, "image") == AbortRequest
  {
  }

  // ---------------------------------------------------------------------
  // Dedup and limit

  /** A scraped record: the fields the pass reads, with `""` for a missing or falsy field. */
  datatype Record = Record(title: string, imageUrl: string, link: string, source: string)

  /** An element of the extracted array: an object, or anything else (`null`, a number, ...). */
  datatype Item = NotObject | Object(record: Record)

  /** What `page.evaluate` produced: an array, some other value, or a rejection (caught as `[]`). */
  datatype Extraction = Rejected | NotArray | Array(items: seq<Item>)

  /** `Array.isArray(results) ? results : []`, after the `.catch` that turns a rejection into `[]`. */
  function ValidResults(x: Extraction): seq<Item> {
    if x.Array? then x.items else []
  }

  predicate Usable(item: Item) {
    item.Object? && item.record.imageUrl != ""
  }

  /** `{...item, source: item.source || 'pinterest'}` */
  function WithSource(r: Record): (out: Record)
    ensures out.source != "" && out.imageUrl == r.imageUrl && out.title == r.title && out.link == r.link
    ensures r.source != "" ==> out == r
  {
    if r.source == "" then r.(source := DefaultSource) else r
  }

  /** The URLs of the usable items of `items`. */
  function UsableUrls(items: seq<Item>): set<string> {
    set i | 0 <= i < |items| && Usable(items[i]) :: items[i].record.imageUrl
  }

  /** Reference definition: every usable item whose URL did not occur in an earlier usable item, in input order. */
  function FirstOccurrences(items: seq<Item>): seq<Record>
    decreases |items|
  {
    if items == [] then []
    else
      var init := items[..|items| - 1];
      var last := items[|items| - 1];
      if Usable(last) && last.record.imageUrl !in UsableUrls(init)
      then FirstOccurrences(init) + [WithSource(last.record)]
      else FirstOccurrences(init)
  }

  /** The first `limit` elements, none for a limit of zero or less. */
  function Take<T>(xs: seq<T>, limit: int): (r: seq<T>)
    ensures limit <= 0 ==> r == []
    ensures 0 <= limit <= |xs| ==> r == xs[..limit]
    ensures limit >= |xs| ==> r == xs
  {
    if limit <= 0 then [] else if limit >= |xs| then xs else xs[..limit]
  }

  lemma UsableUrlsSnoc(items: seq<Item>, x: Item)
    ensures UsableUrls(items + [x]) == UsableUrls(items) + (if Usable(x) then {x.record.imageUrl} else {})
  {
    var s := items + [x];
    assert s[..|items|] == items && s[|items|] == x;
    forall u | u in UsableUrls(s) ensures u in UsableUrls(items) + (if Usable(x) then {x.record.imageUrl} else {}) {
      var i :| 0 <= i < |s| && Usable(s[i]) && s[i].record.imageUrl == u;
      if i < |items| {
        assert s[i] == items[i];
      }
    }
    forall u | u in UsableUrls(items) ensures u in UsableUrls(s) {
      var i :| 0 <= i < |items| && Usable(items[i]) && items[i].record.imageUrl == u;
      assert s[i] == items[i];
    }
  }

  /** The URLs the first-occurrence list has collected are exactly the usable URLs seen so far. */
  lemma {:induction false} FirstOccurrencesUrls(items: seq<Item>)
    ensures (set r | r in FirstOccurrences(items) :: r.imageUrl) == UsableUrls(items)
    decreases |items|
  {
    if items != [] {
      var init := items[..|items| - 1];
      var last := items[|items| - 1];
      assert items == init + [last];
      FirstOccurrencesUrls(init);
      UsableUrlsSnoc(init, last);
    } else {
      assert UsableUrls(items) == {};
    }
  }

  /** No URL appears twice in the first-occurrence list, and every kept record has a URL and a source. */
  lemma {:induction false} FirstOccurrencesDistinct(items: seq<Item>)
    ensures var r := FirstOccurrences(items);
      forall i, j :: 0 <= i < j < |r| ==> r[i].imageUrl != r[j].imageUrl
    ensures forall r :: r in FirstOccurrences(items) ==> r.imageUrl != "" && r.source != ""
    decreases |items|
  {
    if items != [] {
      var init := items[..|items| - 1];
      FirstOccurrencesDistinct(init);
      FirstOccurrencesUrls(init);
      var prev := FirstOccurrences(init);
      forall i | 0 <= i < |prev| ensures prev[i].imageUrl in UsableUrls(init) {
        assert prev[i] in prev;
      }
    }
  }

  /** Each kept record comes from an input object, with the first usable occurrence of its URL. */
  lemma {:induction false} FirstOccurrencesFromInput(items: seq<Item>)
    ensures forall r :: r in FirstOccurrences(items) ==>
      exists i :: 0 <= i < |items| && Usable(items[i]) && r == WithSource(items[i].record) &&
        forall j :: 0 <= j < i && Usable(items[j]) ==> items[j].record.imageUrl != r.imageUrl
    decreases |items|
  {
    if items != [] {
      var init := items[..|items| - 1];
      var last := items[|items| - 1];
      FirstOccurrencesFromInput(init);
      forall r | r in FirstOccurrences(items)
        ensures exists i :: 0 <= i < |items| && Usable(items[i]) && r == WithSource(items[i].record) &&
                           forall j :: 0 <= j < i && Usable(items[j]) ==> items[j].record.imageUrl != r.imageUrl
      {
        if r in FirstOccurrences(init) {
          var i :| 0 <= i < |init| && Usable(init[i]) && r == WithSource(init[i].record) &&
            forall j :: 0 <= j < i && Usable(init[j]) ==> init[j].record.imageUrl != r.imageUrl;
          assert items[i] == init[i];
          assert forall j :: 0 <= j < i ==> items[j] == init[j];
        } else {
          var n := |items| - 1;
          assert r == WithSource(last.record) && Usable(last) && last.record.imageUrl !in UsableUrls(init);
          forall j | 0 <= j < n && Usable(items[j]) ensures items[j].record.imageUrl != r.imageUrl {
            assert items[j] == init[j];
          }
        }
      }
    }
  }

  /** Growing the input only appends to the first-occurrence list. */
  lemma {:induction false} FirstOccurrencesPrefix(items: seq<Item>, n: nat)
    requires n <= |items|
    ensures FirstOccurrences(items[..n]) <= FirstOccurrences(items)
    decreases |items| - n
  {
    if n < |items| {
      var init := items[..|items| - 1];
      assert init[..n] == items[..n];
      FirstOccurrencesPrefix(init, n);
    } else {
      assert items[..n] == items;
    }
  }

  /** The dedup pass: `uniqueResults` and `urlSet`, with the length check before each item. */
  method DedupAndLimit(validResults: seq<Item>, limit: int) returns (uniqueResults: seq<Record>)
    ensures uniqueResults == Take(FirstOccurrences(validResults), limit)
  {
    uniqueResults := [];
    var urlSet: set<string> := {};
    var i := 0;
    while i < |validResults|
      invariant 0 <= i <= |validResults|
      invariant uniqueResults == FirstOccurrences(validResults[..i])
      invariant urlSet == UsableUrls(validResults[..i])
      invariant limit > 0 ==> |uniqueResults| <= limit
      invariant limit <= 0 ==> i == 0
    {
      if |uniqueResults| >= limit {
        FirstOccurrencesPrefix(validResults, i);
        assert limit > 0 ==> FirstOccurrences(validResults)[..limit] == uniqueResults;
        return;
      }
      var item := validResults[i];
      assert validResults[..i + 1] == validResults[..i] + [item];
      assert validResults[..i + 1][..i] == validResults[..i];
      UsableUrlsSnoc(validResults[..i], item);
      if item.Object? && item.record.imageUrl != "" && item.record.imageUrl !in urlSet {
        urlSet := urlSet + {item.record.imageUrl};
        uniqueResults := uniqueResults + [WithSource(item.record)];
      }
      i := i + 1;
    }
    assert validResults[..i] == validResults;
  }

  /** The pass keeps at most `limit` records (none for `limit <= 0`), with distinct URLs, each the first occurrence in the input. */
  lemma DedupProperties(validResults: seq<Item>, limit: int)
    ensures var r := Take(FirstOccurrences(validResults), limit);
      && (limit <= 0 ==> r == [])
      && |r| <= (if limit <= 0 then 0 else limit)
      && (forall i, j :: 0 <= i < j < |r| ==> r[i].imageUrl != r[j].imageUrl)
      && (forall x :: x in r ==> x.source != "" && x in FirstOccurrences(validResults))
  {
    FirstOccurrencesDistinct(validResults);
  }

  // ---------------------------------------------------------------------
  // autoScroll

  const ScrollStep: int := 100

  /** The distance `search` asks for: `Math.max(limit * 300, 1000)`. */
  function ScrollDistance(limit: int): (d: int)
    ensures d >= 1000 && d >= limit * 300
    ensures d == limit * 300 || d == 1000
  {
    if limit * 300 > 1000 then limit * 300 else 1000
  }

  /** The number of ticks until the running total reaches `maxDistance`: at least one. */
  function TicksFor(maxDistance: int): (n: nat)
    ensures n >= 1
    ensures maxDistance > 0 ==> (n - 1) * ScrollStep < maxDistance <= n * ScrollStep
    ensures maxDistance <= ScrollStep ==> n == 1
  {
    if maxDistance <= ScrollStep then 1 else (maxDistance + ScrollStep - 1) / ScrollStep
  }

  /** The in-page timer: scroll by 100, add 100 to the total, stop once the total reaches the maximum. */
  method ScrollTicks(maxDistance: int) returns (ticks: nat, totalHeight: int)
    ensures ticks == TicksFor(maxDistance)
    ensures totalHeight == ticks * ScrollStep && totalHeight >= maxDistance
  {
    totalHeight := 0;
    ticks := 0;
    var done := false;
    while !done
      invariant totalHeight == ticks * ScrollStep
      invariant done ==> ticks >= 1 && totalHeight >= maxDistance
      invariant !done ==> ticks == 0 || totalHeight < maxDistance
      invariant ticks <= 1 || (ticks - 1) * ScrollStep < maxDistance
      decreases if done then 0 else 1, (if maxDistance > totalHeight then maxDistance - totalHeight else 0)
    {
      totalHeight := totalHeight + ScrollStep;
      ticks := ticks + 1;
      if totalHeight >= maxDistance {
        done := true;
      }
    }
  }

  /** The in-page side of `autoScroll` and the listeners of a page. */
  class Page {
    var scrollTop: int
    var requestHandler: bool
    var listenersRemoved: bool

    constructor ()
      ensures scrollTop == 0 && !requestHandler && !listenersRemoved
    {
      scrollTop := 0;
      requestHandler := false;
      listenersRemoved := false;
    }

    /** `page.on('request', requestHandler)`; the handler's decision is `HandleRequest`. */
    method InstallRequestHandler()
      modifies this
      ensures requestHandler && scrollTop == old(scrollTop) && listenersRemoved == old(listenersRemoved)
    {
      requestHandler := true;
    }

    /** The `page.evaluate` timer loop: the page ends up scrolled by the running total. */
    method ScrollBy(maxDistance: int)
      modifies this
      ensures scrollTop == old(scrollTop) + TicksFor(maxDistance) * ScrollStep
      ensures requestHandler == old(requestHandler) && listenersRemoved == old(listenersRemoved)
    {
      var ticks, totalHeight := ScrollTicks(maxDistance);
      scrollTop := scrollTop + totalHeight;
    }

    /** `page.removeAllListeners()` */
    method RemoveAllListeners()
      modifies this
      ensures listenersRemoved && !requestHandler && scrollTop == old(scrollTop)
    {
      listenersRemoved := true;
      requestHandler := false;
    }
  }

  /** A launched browser; `closeError` is what `browser.close()` rejects with, if it does. */
  class Browser {
    const closeError: Option<string>
    var closeCalls: nat

    constructor (closeError: Option<string>)
      ensures this.closeError == closeError && closeCalls == 0
    {
      this.closeError := closeError;
      closeCalls := 0;
    }

    method Close() returns (err: Option<string>)
      modifies this
      ensures closeCalls == old(closeCalls) + 1 && err == closeError
    {
      closeCalls := closeCalls + 1;
      err := closeError;
    }
  }

  /**
   * `autoScroll`: a cancellation check, the in-page scroll (which rejects with
   * `evaluateError` when the page fails), a check after scrolling, the wait
   * whose length depends on the signal, and a final check.
   */
  method AutoScroll(page: Page, maxDistance: int, signal: Signal, evaluateError: Option<string>) returns (err: Option<string>)
    modifies page, signal
    ensures err.None? ==> !signal.Observed() && evaluateError.None?
    ensures err.None? ==> page.scrollTop == old(page.scrollTop) + TicksFor(maxDistance) * ScrollStep
    ensures err.Some? ==> (err.value == CancelMessage && signal.Observed()) || err == evaluateError
    ensures !signal.Observed() ==> err == evaluateError
    ensures signal.Observed() ==> err.Some?
    ensures AbortedBefore(signal, old(signal.polls)) ==> err == Some(CancelMessage) && page.scrollTop == old(page.scrollTop)
    ensures page.requestHandler == old(page.requestHandler) && page.listenersRemoved == old(page.listenersRemoved)
    ensures signal.polls > old(signal.polls)
  {
    var aborted := signal.Aborted();
    if aborted {
      return Some(CancelMessage);
    }
    if evaluateError.Some? {
      return evaluateError;
    }
    page.ScrollBy(maxDistance);
    aborted := signal.Aborted();
    if aborted {
      return Some(CancelMessage);
    }
    aborted := signal.Aborted();
    var waitTime := if aborted then 0 else 2000;
    aborted := signal.Aborted();
    if aborted {
      return Some(CancelMessage);
    }
    return None;
  }

  // ---------------------------------------------------------------------
  // search

  /** What `puppeteer.launch` does: reject, resolve to `null` (as a test double may), or resolve to a browser. */
  datatype Launch = LaunchRejects | LaunchResolvesNull | LaunchResolves

  /** How the browser and the page behave during one search. */
  datatype Env = Env(
    launch: Launch,
    closeError: Option<string>,
    newPageFails: bool,
    interceptionFails: bool,
    gotoFails: bool,
    scrollError: Option<string>,
    extraction: Extraction)

  /** The `TypeError` of `browser.close()` on a `null` browser. */
  const NullCloseError: string := "Cannot read properties of null (reading 'close')"

  /** How the `try` block of `search` ends: by `return`, or by throwing `message`. */
  datatype TryOutcome = Returned(records: seq<Record>) | Raised(message: string)

  /** How `search` ends: resolved with records, or rejected with `message`. */
  datatype Outcome = Results(records: seq<Record>) | Thrown(message: string)

  /** The messages of the errors a cancellation can raise: the cancel text, or the close error that replaces it. */
  predicate CancelError(m: string, env: Env) {
    m == CancelMessage || m == NullCloseError || env.closeError == Some(m)
  }

  /** `await browser.close(); return [];` on a failed page step. */
  function CloseAndReturn(closeError: Option<string>): TryOutcome {
    if closeError.Some? then Raised(closeError.value) else Returned([])
  }

  /** Reference: the `try` block's outcome when the signal is never seen aborted. */
  function NoAbortTry(env: Env, limit: int): TryOutcome {
    match env.launch
    case LaunchRejects => Returned([])
    case LaunchResolvesNull => Returned([])
    case LaunchResolves =>
      if env.newPageFails || env.gotoFails then CloseAndReturn(env.closeError)
      else Returned(Take(FirstOccurrences(ValidResults(env.extraction)), limit))
  }

  /** The `catch` clause when the signal is not aborted: only an error carrying the cancel text is rethrown. */
  function CatchNoAbort(t: TryOutcome): Outcome {
    match t
    case Returned(rs) => Results(rs)
    case Raised(m) => if m == CancelMessage then Thrown(m) else Results([])
  }

  /** Reference: the outcome of `search` when the signal is never seen aborted. */
  function NoAbortOutcome(env: Env, limit: int): Outcome {
    CatchNoAbort(NoAbortTry(env, limit))
  }

  /** The records `search` can resolve with: none, or the deduplicated prefix of the extraction. */
  predicate PossibleRecords(rs: seq<Record>, env: Env, limit: int) {
    rs == [] || rs == Take(FirstOccurrences(ValidResults(env.extraction)), limit)
  }

  /**
   * A cancellation checkpoint: `if (signal && signal.aborted) { await
   * browser.close(); throw new Error('操作被取消'); }`. A failing close, or a
   * `null` browser, replaces the cancel error with its own.
   */
  method Checkpoint(signal: Signal, browser: Browser?) returns (raised: Option<string>)
    modifies signal, browser
    ensures signal.polls == old(signal.polls) + 1
    ensures raised.None? <==> !(signal.present && old(signal.polls) >= signal.abortAt)
    ensures raised.Some? ==> signal.Observed()
    ensures raised.Some? && browser == null ==> raised.value == NullCloseError
    ensures raised.Some? && browser != null ==>
      raised.value == (if browser.closeError.Some? then browser.closeError.value else CancelMessage)
    ensures browser != null ==> browser.closeCalls == old(browser.closeCalls) + (if raised.Some? then 1 else 0)
  {
    var aborted := signal.Aborted();
    if !aborted {
      return None;
    }
    if browser == null {
      return Some(NullCloseError);
    }
    var err := browser.Close();
    if err.Some? {
      return err;
    }
    return Some(CancelMessage);
  }

  /** From the scroll step to the end of the `try` block: scroll, check, extract, check, dedup. */
  method ScrollAndExtract(limit: int, signal: Signal, env: Env, browser: Browser, page: Page) returns (t: TryOutcome)
    requires browser.closeError == env.closeError
    modifies signal, browser, page
    ensures !signal.Observed() ==> t == Returned(Take(FirstOccurrences(ValidResults(env.extraction)), limit))
    ensures t.Raised? ==> signal.Observed() && CancelError(t.message, env)
    ensures signal.Observed() ==> t.Raised?
    ensures t.Returned? ==> t.records == Take(FirstOccurrences(ValidResults(env.extraction)), limit)
    ensures browser.closeCalls >= old(browser.closeCalls)
    ensures page.requestHandler == old(page.requestHandler) && page.listenersRemoved == old(page.listenersRemoved)
    ensures signal.polls > old(signal.polls)
  {
    var scrollErr := AutoScroll(page, ScrollDistance(limit), signal, env.scrollError);
    if scrollErr.Some? {
      var raised := Checkpoint(signal, browser);
      if raised.Some? {
        return Raised(raised.value);
      }
    }
    var raised := Checkpoint(signal, browser);
    if raised.Some? {
      return Raised(raised.value);
    }
    var validResults := ValidResults(env.extraction);
    raised := Checkpoint(signal, browser);
    if raised.Some? {
      return Raised(raised.value);
    }
    var uniqueResults := DedupAndLimit(validResults, limit);
    return Returned(uniqueResults);
  }

  /** From `browser.newPage()` to the end of the `try` block. */
  method PageSteps(limit: int, signal: Signal, env: Env, browser: Browser) returns (t: TryOutcome, page: Page?)
    requires browser.closeError == env.closeError
    modifies signal, browser
    ensures !signal.Observed() ==>
      t == (if env.newPageFails || env.gotoFails then CloseAndReturn(env.closeError)
            else Returned(Take(FirstOccurrences(ValidResults(env.extraction)), limit)))
    ensures t.Raised? ==> (signal.Observed() && CancelError(t.message, env)) || env.closeError == Some(t.message)
    ensures t.Returned? ==> PossibleRecords(t.records, env, limit)
    ensures signal.Observed() && !old(signal.Observed()) ==> t.Raised?
    ensures old(signal.Observed()) ==> signal.Observed()
    ensures page == null <==> env.newPageFails
    ensures page != null ==> fresh(page) && !page.listenersRemoved
    ensures page != null && !env.interceptionFails && !signal.Observed() ==> page.requestHandler
    ensures browser.closeCalls >= old(browser.closeCalls)
    ensures signal.polls >= old(signal.polls)
  {
    if env.newPageFails {
      var err := browser.Close();
      return CloseAndReturn(err), null;
    }
    page := new Page();
    var raised := Checkpoint(signal, browser);
    if raised.Some? {
      return Raised(raised.value), page;
    }
    if !env.interceptionFails {
      page.InstallRequestHandler();
    }
    raised := Checkpoint(signal, browser);
    if raised.Some? {
      return Raised(raised.value), page;
    }
    if env.gotoFails {
      var err := browser.Close();
      return CloseAndReturn(err), page;
    }
    raised := Checkpoint(signal, browser);
    if raised.Some? {
      return Raised(raised.value), page;
    }
    raised := Checkpoint(signal, browser);
    if raised.Some? {
      return Raised(raised.value), page;
    }
    t := ScrollAndExtract(limit, signal, env, browser, page);
  }

  /** Whether the signal read at the start of `search` is aborted. */
  predicate AbortedBefore(signal: Signal, polls: nat)
    reads signal
  {
    signal.present && polls >= signal.abortAt
  }

  /** The `try` block of `search`. */
  method TryBlock(limit: int, signal: Signal, env: Env) returns (t: TryOutcome, browser: Browser?, page: Page?)
    modifies signal
    ensures AbortedBefore(signal, old(signal.polls)) ==> t == Raised(CancelMessage) && browser == null && page == null
    ensures !signal.Observed() ==> t == NoAbortTry(env, limit)
    ensures t.Raised? ==> (signal.Observed() && CancelError(t.message, env)) || env.closeError == Some(t.message)
    ensures t.Returned? ==> PossibleRecords(t.records, env, limit)
    ensures signal.Observed() ==> t.Raised?
    ensures browser != null ==> fresh(browser) && browser.closeError == env.closeError
    ensures browser != null <==> env.launch.LaunchResolves? && !AbortedBefore(signal, old(signal.polls))
    ensures page != null ==> fresh(page) && browser != null && !page.listenersRemoved
    ensures signal.polls > old(signal.polls)
  {
    var aborted := signal.Aborted();
    if aborted {
      return Raised(CancelMessage), null, null;
    }
    match env.launch {
      case LaunchRejects =>
        return Returned([]), null, null;
      case LaunchResolvesNull =>
        browser := null;
      case LaunchResolves =>
        browser := new Browser(env.closeError);
    }
    var raised := Checkpoint(signal, browser);
    if raised.Some? {
      return Raised(raised.value), browser, null;
    }
    if browser == null {
      return Returned([]), null, null;
    }
    t, page := PageSteps(limit, signal, env, browser);
  }

  /**
   * `search`: the `try` block, then the `catch` (which rethrows when the
   * signal is aborted or the error carries the cancel text, and resolves
   * with `[]` otherwise), then the `finally` (listeners removed, browser
   * closed, errors of both ignored).
   */
  method Search(limit: int, signal: Signal, env: Env) returns (outcome: Outcome, browser: Browser?, page: Page?)
    modifies signal
    ensures AbortedBefore(signal, old(signal.polls)) ==> outcome == Thrown(CancelMessage) && browser == null
    ensures !signal.Observed() ==> outcome == NoAbortOutcome(env, limit)
    ensures outcome.Thrown? ==> CancelError(outcome.message, env)
    ensures outcome.Thrown? ==> signal.Observed() || env.closeError == Some(CancelMessage)
    ensures outcome.Results? ==> PossibleRecords(outcome.records, env, limit)
    ensures signal.Observed() ==> outcome.Thrown?
    ensures browser != null <==> env.launch.LaunchResolves? && !AbortedBefore(signal, old(signal.polls))
    ensures browser != null ==> fresh(browser) && browser.closeCalls >= 1
    ensures page != null ==> fresh(page) && page.listenersRemoved && !page.requestHandler
  {
    var t;
    t, browser, page := TryBlock(limit, signal, env);
    match t {
      case Returned(rs) =>
        outcome := Results(rs);
      case Raised(m) =>
        var aborted := signal.Aborted();
        outcome := if aborted || m == CancelMessage then Thrown(m) else Results([]);
    }
    if page != null {
      page.RemoveAllListeners();
    }
    if browser != null {
      var ignored := browser.Close();
    }
  }

  /** Without an observed abort, `search` rejects only when a failed page step's close rejects with the cancel text. */
  lemma NoAbortThrowsIff(env: Env, limit: int)
    ensures NoAbortOutcome(env, limit).Thrown? <==>
      env.launch.LaunchResolves? && (env.newPageFails || env.gotoFails) && env.closeError == Some(CancelMessage)
    ensures env.launch.LaunchRejects? || env.launch.LaunchResolvesNull? ==> NoAbortOutcome(env, limit) == Results([])
  {
  }

  /** What `search` resolves with holds at most `limit` records, with distinct URLs, each with a source. */
  lemma SearchResultsShape(env: Env, limit: int, rs: seq<Record>)
    requires PossibleRecords(rs, env, limit)
    ensures |rs| <= (if limit <= 0 then 0 else limit)
    ensures forall i, j :: 0 <= i < j < |rs| ==> rs[i].imageUrl != rs[j].imageUrl
    ensures forall r :: r in rs ==> r.imageUrl != "" && r.source != ""
  {
    DedupProperties(ValidResults(env.extraction), limit);
    FirstOccurrencesDistinct(ValidResults(env.extraction));
  }

  // ---------------------------------------------------------------------
  // downloadImage (the scraper's own, resolving to a boolean)

  /** The URL the download asks for: the original-size form of a non-empty URL. */
  function DownloadUrl(imageUrl: MaybeUrl): (url: string)
    requires !Falsy(imageUrl)
    ensures TransformImageUrl(imageUrl) == Present(url)
  {
    TransformImageUrl(imageUrl).text
  }

  /**
   * `downloadImage(imageUrl, outputPath, signal)`: `false` for an empty URL or
   * path, for an abort seen before the request or after either await, for a
   * failed or non-2xx response and for a failed write; `true` once the body
   * is written to `outputPath`. It never rejects.
   */
  method DownloadImage(imageUrl: MaybeUrl, outputPath: string, signal: Signal, net: Network, fs: FileSystem) returns (ok: bool)
    modifies signal, net, fs
    ensures ok <==>
      && !Falsy(imageUrl) && outputPath != "" && !signal.Observed()
      && IsOk(net.answer(DownloadUrl(imageUrl))) && net.answer(DownloadUrl(imageUrl)).body.Some?
      && outputPath !in fs.failing
    ensures ok ==> fs.files == old(fs.files)[outputPath := net.answer(DownloadUrl(imageUrl)).body.value]
    ensures !ok ==> fs.files == old(fs.files)
    ensures fs.dirs == old(fs.dirs)
    ensures Falsy(imageUrl) || outputPath == "" || AbortedBefore(signal, old(signal.polls)) ==>
      net.requested == old(net.requested)
    ensures net.requested == old(net.requested) || net.requested == old(net.requested) + [DownloadUrl(imageUrl)]
  {
    if Falsy(imageUrl) || outputPath == "" {
      return false;
    }
    var aborted := signal.Aborted();
    if aborted {
      return false;
    }
    var url := DownloadUrl(imageUrl);
    var response := net.Get(url);
    if !IsOk(response) {
      aborted := signal.Aborted();
      return false;
    }
    aborted := signal.Aborted();
    if aborted {
      return false;
    }
    if response.body.None? {
      aborted := signal.Aborted();
      return false;
    }
    aborted := signal.Aborted();
    if aborted {
      return false;
    }
    var err := fs.WriteFile(outputPath, response.body.value);
    if err.Some? {
      aborted := signal.Aborted();
      return false;
    }
    return true;
  }
}
