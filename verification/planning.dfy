/** The command line's URL planning and the record limit of a run:
    numbered-template expansion, link-following pagination over an abstract
    site, the choice between them, the sequential page gathering, and the
    truncation of parsed records to the configured maximum. */
module Planning {
  import opened Base
  import opened JsonValues
  import opened Errors
  import opened Config

  /* ---------- the site ---------- */

  /** What the planner sees of the web. `fetch` gives a page's HTML, or
      `None` when the request fails; `nextHref` gives the `href` of the
      first node the selector finds in the HTML, `None` when there is no
      such node or attribute; `join` is `urljoin`. */
  datatype Site = Site(
    fetch: string -> Option<string>,
    nextHref: (string, Json) -> Option<string>,
    join: (string, string) -> string)

  /** The fetched page has HTML (`record.html` is truthy). */
  predicate HasHtml(site: Site, url: string) {
    site.fetch(url).Some? && |site.fetch(url).value| > 0
  }

  function Html(site: Site, url: string): string
    requires HasHtml(site, url)
  {
    site.fetch(url).value
  }

  /** The selector finds a node on the page with a non-empty `href`. */
  predicate HasNextHref(site: Site, selector: Json, url: string)
    requires HasHtml(site, url)
  {
    site.nextHref(Html(site, url), selector).Some? && |site.nextHref(Html(site, url), selector).value| > 0
  }

  /** The link to follow from a page: none without a (truthy) selector, a
      matching node or a non-empty `href`; otherwise the joined URL. */
  function NextLink(site: Site, selector: Json, url: string): (r: Option<string>)
    requires HasHtml(site, url)
    ensures r.Some? <==> Truthy(selector) && HasNextHref(site, selector, url)
    ensures r.Some? ==> r.value == site.join(url, site.nextHref(Html(site, url), selector).value)
  {
    if !Truthy(selector) then None
    else
      match site.nextHref(Html(site, url), selector)
      case None => None
      case Some(href) => if href == "" then None else Some(site.join(url, href))
  }

  predicate NoDups(s: seq<string>) {
    forall i, j | 0 <= i < j < |s| :: s[i] != s[j]
  }

  /* ---------- numbered templates ---------- */

  /** `pagination.start or 1`. */
  function FirstPage(p: PaginationConfig): int {
    if p.start == 0 then 1 else p.start
  }

  /** `pagination.end or start`. */
  function LastPage(p: PaginationConfig): int {
    if p.end == 0 then FirstPage(p) else p.end
  }

  /** `[template.format(i) for i in range(lo, hi + 1)]`. */
  function Expand(template: string, format: (string, int) -> string, lo: int, hi: int): (r: seq<string>)
    ensures |r| == if hi < lo then 0 else hi - lo + 1
    ensures forall k | 0 <= k < |r| :: r[k] == format(template, lo + k)
    decreases hi - lo
  {
    if hi < lo then [] else [format(template, lo)] + Expand(template, format, lo + 1, hi)
  }

  /** `_generate_format_urls`; `format` is `str.format` with one argument.
      A template that is not a text has no `format` method, which Python
      only finds out once the page range is non-empty. */
  function GenerateFormatUrls(p: PaginationConfig, format: (string, int) -> string): (r: Result<seq<string>, Error>)
    ensures !Truthy(p.urlTemplate) ==> r == Failure(TemplateRequired)
    ensures Truthy(p.urlTemplate) && !p.urlTemplate.Str? ==>
              (r.Success? <==> LastPage(p) < FirstPage(p))
              && (r.Failure? ==> r.error == Raised(AttributeError))
    ensures Truthy(p.urlTemplate) && p.urlTemplate.Str? ==> r.Success?
    ensures r.Success? ==> Truthy(p.urlTemplate)
    ensures r.Success? ==>
      && |r.value| == (if LastPage(p) < FirstPage(p) then 0 else LastPage(p) - FirstPage(p) + 1)
      && forall k | 0 <= k < |r.value| :: p.urlTemplate.Str? && r.value[k] == format(p.urlTemplate.s, FirstPage(p) + k)
  {
    if !Truthy(p.urlTemplate) then Failure(TemplateRequired)
    else if LastPage(p) < FirstPage(p) then Success([])
    else if !p.urlTemplate.Str? then Failure(Raised(AttributeError))
    else Success(Expand(p.urlTemplate.s, format, FirstPage(p), LastPage(p)))
  }

  /** A template that is not a text is only a problem when there is a page
      to format: with `start` 5 and `end` 2 the list is empty. */
  lemma NonTextTemplateEmptyRange(format: (string, int) -> string)
    ensures GenerateFormatUrls(PaginationConfig(Str("format"), Null, 20, Num(Decimals.FromInt(7)), 5, 2), format) == Success([])
    ensures GenerateFormatUrls(PaginationConfig(Str("format"), Null, 20, Num(Decimals.FromInt(7)), 2, 5), format)
            == Failure(Raised(AttributeError))
  {
  }

  /* ---------- link pagination ---------- */

  /** `pagination.max_pages or 1`. */
  function PageBudget(p: PaginationConfig): int {
    if p.maxPages == 0 then 1 else p.maxPages
  }

  /** The walk from `current` with the pages `visited` so far: the page is
      kept when it has HTML and the budget allows, then the next link is
      followed unless the run is dry, there is none, or it was seen. */
  function Walk(site: Site, selector: Json, dryRun: bool, budget: int, current: string, visited: seq<string>): (r: seq<string>)
    requires NoDups(visited) && current !in visited
    ensures visited <= r && NoDups(r)
    ensures |r| <= if |visited| < budget then budget else |visited|
    ensures dryRun ==> |r| <= |visited| + 1
    ensures |r| > |visited| ==> r[|visited|] == current
    ensures forall k | |visited| <= k < |r| :: HasHtml(site, r[k])
    ensures forall k | |visited| <= k < |r| - 1 :: HasHtml(site, r[k]) && NextLink(site, selector, r[k]) == Some(r[k + 1])
    decreases budget - |visited|
  {
    if current == "" || |visited| >= budget || !HasHtml(site, current) then visited
    else
      var urls := visited + [current];
      if dryRun then urls
      else
        match NextLink(site, selector, current)
        case None => urls
        case Some(next) =>
          if next in urls then urls
          else
            var r := Walk(site, selector, dryRun, budget, next, urls);
            assert r[|visited|] == urls[|visited|];
            r
  }

  /** The pages `_discover_link_pagination` returns for one start URL. */
  function LinkPages(site: Site, p: PaginationConfig, dryRun: bool, start: string): (r: seq<string>)
    ensures NoDups(r)
    ensures |r| <= if PageBudget(p) < 0 then 0 else PageBudget(p)
    ensures |r| > 0 ==> r[0] == start
    ensures dryRun ==> |r| <= 1
    ensures forall k | 0 <= k < |r| :: HasHtml(site, r[k])
  {
    Walk(site, p.nextSelector, dryRun, PageBudget(p), start, [])
  }

  /** Why a walk that kept the pages `r` ended: the budget is spent, the
      run is dry, or the last page's next link is missing, empty, already
      seen or has no HTML. */
  predicate StopsAfter(site: Site, selector: Json, dryRun: bool, budget: int, r: seq<string>)
    requires |r| > 0 && HasHtml(site, r[|r| - 1])
  {
    var last := r[|r| - 1];
    || |r| >= budget
    || dryRun
    || NextLink(site, selector, last).None?
    || NextLink(site, selector, last).value in r
    || NextLink(site, selector, last).value == ""
    || !HasHtml(site, NextLink(site, selector, last).value)
  }

  /** The walk stops only for a reason the loop names: the budget is
      spent, the run is dry, the page has no next link, or the next link
      is empty, already seen or has no HTML. */
  lemma {:induction false} WalkStopsForAReason(site: Site, selector: Json, dryRun: bool, budget: int, current: string, visited: seq<string>)
    requires NoDups(visited) && current !in visited
    ensures
      var r := Walk(site, selector, dryRun, budget, current, visited);
      |r| == |visited| ==> current == "" || |visited| >= budget || !HasHtml(site, current)
    ensures
      var r := Walk(site, selector, dryRun, budget, current, visited);
      |r| > |visited| ==> StopsAfter(site, selector, dryRun, budget, r)
    decreases budget - |visited|
  {
    if current == "" || |visited| >= budget || !HasHtml(site, current) {
    } else {
      var urls := visited + [current];
      var r := Walk(site, selector, dryRun, budget, current, visited);
      if dryRun {
        assert r == urls;
      } else {
        match NextLink(site, selector, current)
        case None =>
          assert r == urls;
        case Some(next) =>
          if next in urls {
            assert r == urls;
          } else {
            assert r == Walk(site, selector, dryRun, budget, next, urls);
            WalkStopsForAReason(site, selector, dryRun, budget, next, urls);
            if |r| == |urls| {
              assert r == urls && r[|r| - 1] == current;
            }
          }
      }
    }
  }

  /** `_discover_link_pagination`: the page walk from one start URL, with
      the HTML of every kept page cached under its URL. */
  method DiscoverLinkPagination(start: string, p: PaginationConfig, site: Site, dryRun: bool)
    returns (urls: seq<string>, cache: map<string, string>)
    ensures urls == LinkPages(site, p, dryRun, start)
    ensures forall u :: u in cache <==> u in urls
    ensures CacheAgrees(site, cache)
  {
    urls := [];
    cache := map[];
    var current := start;
    var pages := 0;
    var maxPages := PageBudget(p);
    while current != "" && pages < maxPages
      invariant pages == |urls| && NoDups(urls) && current !in urls
      invariant Walk(site, p.nextSelector, dryRun, maxPages, current, urls) == LinkPages(site, p, dryRun, start)
      invariant forall u :: u in cache <==> u in urls
      invariant CacheAgrees(site, cache)
      decreases maxPages - pages
    {
      var html := site.fetch(current);
      if html.None? || html.value == "" {
        break;
      }
      urls := urls + [current];
      cache := cache[current := html.value];
      pages := pages + 1;
      if dryRun {
        break;
      }
      if !Truthy(p.nextSelector) {
        break;
      }
      var href := site.nextHref(html.value, p.nextSelector);
      if href.None? || href.value == "" {
        break;
      }
      var next := site.join(current, href.value);
      if next in urls {
        break;
      }
      current := next;
    }
  }

  /* ---------- the plan ---------- */

  /** The URLs to fetch and the HTML already fetched for some of them. */
  datatype Plan = Plan(urls: seq<string>, cache: map<string, string>)

  /** The link walks of the start URLs, one after another. */
  function LinkUrls(site: Site, p: PaginationConfig, dryRun: bool, starts: seq<string>): seq<string> {
    if |starts| == 0 then []
    else LinkUrls(site, p, dryRun, starts[..|starts| - 1]) + LinkPages(site, p, dryRun, starts[|starts| - 1])
  }

  /** A cache that holds each page's own HTML. */
  predicate CacheAgrees(site: Site, cache: map<string, string>) {
    forall u | u in cache :: HasHtml(site, u) && cache[u] == Html(site, u)
  }

  /** `_build_url_plan`: the start URLs as given, a numbered template's
      expansion, or the link walks of all start URLs. */
  method BuildUrlPlan(startUrls: seq<string>, pagination: Option<PaginationConfig>, site: Site, dryRun: bool, format: (string, int) -> string)
    returns (r: Result<Plan, Error>)
    ensures pagination.None? || !Truthy(pagination.value.mode) ==> r == Success(Plan(startUrls, map[]))
    ensures pagination.Some? && pagination.value.mode == Str("format") ==>
      match GenerateFormatUrls(pagination.value, format)
      case Success(urls) => r == Success(Plan(urls, map[]))
      case Failure(e) => r == Failure(e)
    ensures pagination.Some? && pagination.value.mode == Str("link") ==>
      && r.Success?
      && r.value.urls == LinkUrls(site, pagination.value, dryRun, startUrls)
      && (forall u :: u in r.value.cache <==> u in r.value.urls)
      && CacheAgrees(site, r.value.cache)
    ensures pagination.Some? && Truthy(pagination.value.mode) && pagination.value.mode !in [Str("format"), Str("link")] ==>
      r == Failure(UnsupportedMode(pagination.value.mode))
  {
    if pagination.None? || !Truthy(pagination.value.mode) {
      return Success(Plan(startUrls, map[]));
    }
    var p := pagination.value;
    if p.mode == Str("format") {
      var urls :- GenerateFormatUrls(p, format);
      return Success(Plan(urls, map[]));
    }
    if p.mode == Str("link") {
      var allUrls: seq<string> := [];
      var htmlCache: map<string, string> := map[];
      for i := 0 to |startUrls|
        invariant allUrls == LinkUrls(site, p, dryRun, startUrls[..i])
        invariant forall u :: u in htmlCache <==> u in allUrls
        invariant CacheAgrees(site, htmlCache)
      {
        assert startUrls[..i + 1][..i] == startUrls[..i];
        var urls, cache := DiscoverLinkPagination(startUrls[i], p, site, dryRun);
        allUrls := allUrls + urls;
        htmlCache := htmlCache + cache;
      }
      assert startUrls[..|startUrls|] == startUrls;
      return Success(Plan(allUrls, htmlCache));
    }
    return Failure(UnsupportedMode(p.mode));
  }

  /** A link plan is the plans of its start URLs, one after another:
      planning `a + b` is planning `a`, then `b`. */
  lemma {:induction false} LinkUrlsAppend(site: Site, p: PaginationConfig, dryRun: bool, a: seq<string>, b: seq<string>)
    ensures LinkUrls(site, p, dryRun, a + b) == LinkUrls(site, p, dryRun, a) + LinkUrls(site, p, dryRun, b)
    decreases |b|
  {
    if |b| == 0 {
      assert a + b == a;
    } else {
      var n := |b| - 1;
      assert (a + b)[..|a + b| - 1] == a + b[..n] && (a + b)[|a + b| - 1] == b[n];
      LinkUrlsOfLast(site, p, dryRun, a + b);
      LinkUrlsOfLast(site, p, dryRun, b);
      LinkUrlsAppend(site, p, dryRun, a, b[..n]);
      ConcatAssoc(LinkUrls(site, p, dryRun, a), LinkUrls(site, p, dryRun, b[..n]), LinkPages(site, p, dryRun, b[n]));
    }
  }

  lemma LinkUrlsOfLast(site: Site, p: PaginationConfig, dryRun: bool, s: seq<string>)
    requires |s| > 0
    ensures LinkUrls(site, p, dryRun, s) == LinkUrls(site, p, dryRun, s[..|s| - 1]) + LinkPages(site, p, dryRun, s[|s| - 1])
  {
  }

  /* ---------- gathering pages ---------- */

  /** The HTML the sequential loop uses for a URL: the cached text when
      there is one (an empty cached text counts as none), else a fetch. */
  function PageHtml(site: Site, cache: map<string, string>, url: string): Option<string> {
    if url in cache then (if cache[url] == "" then None else Some(cache[url]))
    else site.fetch(url)
  }

  /** The sequential branch of `run`: each URL with HTML becomes a page, in
      order; a dry run stops after the first URL. */
  function GatherPages(site: Site, cache: map<string, string>, urls: seq<string>, dryRun: bool): (r: seq<(string, string)>)
    ensures |r| <= |urls|
    ensures dryRun ==> |r| <= 1
    ensures forall k | 0 <= k < |r| :: r[k].0 in urls && |r[k].1| > 0 && PageHtml(site, cache, r[k].0) == Some(r[k].1)
  {
    if |urls| == 0 then []
    else
      var html := PageHtml(site, cache, urls[0]);
      var page := if html.Some? && |html.value| > 0 then [(urls[0], html.value)] else [];
      if dryRun then page
      else
        var rest := GatherPages(site, cache, urls[1..], dryRun);
        assert forall k | 0 <= k < |rest| :: rest[k].0 in urls;
        page + rest
  }

  /** The loop finds usable HTML for the URL. */
  predicate HasPage(site: Site, cache: map<string, string>, url: string) {
    PageHtml(site, cache, url).Some? && |PageHtml(site, cache, url).value| > 0
  }

  /** The URLs the loop looks at: only the first in a dry run. */
  function Scope(urls: seq<string>, dryRun: bool): seq<string> {
    if dryRun && |urls| > 0 then urls[..1] else urls
  }

  /** `pages` is the URLs of `scope` at the increasing positions `idx`,
      each with its HTML, where a position is listed exactly when the loop
      finds usable HTML there. */
  predicate PagesAt(site: Site, cache: map<string, string>, scope: seq<string>, pages: seq<(string, string)>, idx: seq<nat>) {
    && |idx| == |pages|
    && (forall k | 0 <= k < |idx| ::
          idx[k] < |scope| && HasPage(site, cache, scope[idx[k]])
          && pages[k] == (scope[idx[k]], PageHtml(site, cache, scope[idx[k]]).value))
    && (forall k, k' | 0 <= k < k' < |idx| :: idx[k] < idx[k'])
    && (forall i | 0 <= i < |scope| :: HasPage(site, cache, scope[i]) <==> i in idx)
  }

  /** The gathered pages are exactly the URLs with usable HTML, in order,
      among all URLs, or among the first one in a dry run. */
  lemma {:induction false} GatheredPagesInOrder(site: Site, cache: map<string, string>, urls: seq<string>, dryRun: bool)
    returns (idx: seq<nat>)
    ensures PagesAt(site, cache, Scope(urls, dryRun), GatherPages(site, cache, urls, dryRun), idx)
  {
    if |urls| == 0 {
      idx := [];
    } else if dryRun {
      idx := if HasPage(site, cache, urls[0]) then [0] else [];
    } else {
      var rest := GatheredPagesInOrder(site, cache, urls[1..], false);
      var first: seq<nat> := if HasPage(site, cache, urls[0]) then [0] else [];
      idx := first + seq(|rest|, k requires 0 <= k < |rest| => rest[k] + 1);
      ShiftedPagesAt(site, cache, urls, rest, first, idx);
    }
  }

  /** The positions of the tail, shifted by one, after the first URL's. */
  lemma ShiftedPagesAt(site: Site, cache: map<string, string>, urls: seq<string>, rest: seq<nat>, first: seq<nat>, idx: seq<nat>)
    requires |urls| > 0
    requires PagesAt(site, cache, urls[1..], GatherPages(site, cache, urls[1..], false), rest)
    requires first == if HasPage(site, cache, urls[0]) then [0] else []
    requires idx == first + seq(|rest|, k requires 0 <= k < |rest| => rest[k] + 1)
    ensures PagesAt(site, cache, urls, GatherPages(site, cache, urls, false), idx)
  {
    var tail := GatherPages(site, cache, urls[1..], false);
    var page := if HasPage(site, cache, urls[0]) then [(urls[0], PageHtml(site, cache, urls[0]).value)] else [];
    assert GatherPages(site, cache, urls, false) == page + tail;
    ShiftedEntries(site, cache, urls, tail, page, rest, first, idx);
    ShiftedMembers(site, cache, urls, rest, first, idx);
  }

  lemma ShiftedEntries(site: Site, cache: map<string, string>, urls: seq<string>, tail: seq<(string, string)>,
                       page: seq<(string, string)>, rest: seq<nat>, first: seq<nat>, idx: seq<nat>)
    requires |urls| > 0 && |rest| == |tail|
    requires forall k | 0 <= k < |rest| ::
               rest[k] < |urls[1..]| && HasPage(site, cache, urls[1..][rest[k]])
               && tail[k] == (urls[1..][rest[k]], PageHtml(site, cache, urls[1..][rest[k]]).value)
    requires forall k, k' | 0 <= k < k' < |rest| :: rest[k] < rest[k']
    requires first == if HasPage(site, cache, urls[0]) then [0] else []
    requires page == if HasPage(site, cache, urls[0]) then [(urls[0], PageHtml(site, cache, urls[0]).value)] else []
    requires idx == first + seq(|rest|, k requires 0 <= k < |rest| => rest[k] + 1)
    ensures |idx| == |page + tail|
    ensures forall k | 0 <= k < |idx| ::
              idx[k] < |urls| && HasPage(site, cache, urls[idx[k]])
              && (page + tail)[k] == (urls[idx[k]], PageHtml(site, cache, urls[idx[k]]).value)
    ensures forall k, k' | 0 <= k < k' < |idx| :: idx[k] < idx[k']
  {
    var off := |first|;
    forall k | off <= k < |idx|
      ensures idx[k] < |urls| && HasPage(site, cache, urls[idx[k]])
              && (page + tail)[k] == (urls[idx[k]], PageHtml(site, cache, urls[idx[k]]).value)
    {
      assert idx[k] == rest[k - off] + 1 && (page + tail)[k] == tail[k - off];
      assert urls[idx[k]] == urls[1..][rest[k - off]];
    }
  }

  lemma ShiftedMembers(site: Site, cache: map<string, string>, urls: seq<string>, rest: seq<nat>, first: seq<nat>, idx: seq<nat>)
    requires |urls| > 0
    requires forall i | 0 <= i < |urls[1..]| :: HasPage(site, cache, urls[1..][i]) <==> i in rest
    requires first == if HasPage(site, cache, urls[0]) then [0] else []
    requires idx == first + seq(|rest|, k requires 0 <= k < |rest| => rest[k] + 1)
    ensures forall i | 0 <= i < |urls| :: HasPage(site, cache, urls[i]) <==> i in idx
  {
    var off := |first|;
    forall i | 0 <= i < |urls|
      ensures HasPage(site, cache, urls[i]) <==> i in idx
    {
      if i == 0 {
        assert forall k | off <= k < |idx| :: idx[k] == rest[k - off] + 1;
      } else {
        assert urls[i] == urls[1..][i - 1];
        if i - 1 in rest {
          var k :| 0 <= k < |rest| && rest[k] == i - 1;
          assert idx[off + k] == i;
        }
        if i in idx {
          var k :| 0 <= k < |idx| && idx[k] == i;
          assert k >= off && rest[k - off] == i - 1;
        }
      }
    }
  }

  /** A cache that holds each page's own HTML changes nothing about the
      pages gathered: it only saves fetches. */
  lemma {:induction false} CacheIsTransparent(site: Site, cache: map<string, string>, urls: seq<string>, dryRun: bool)
    requires CacheAgrees(site, cache)
    ensures GatherPages(site, cache, urls, dryRun) == GatherPages(site, map[], urls, dryRun)
  {
    if |urls| > 0 {
      assert PageHtml(site, cache, urls[0]) == PageHtml(site, map[], urls[0]);
      CacheIsTransparent(site, cache, urls[1..], dryRun);
    }
  }

  /* ---------- the record limit ---------- */

  /** How the run loop treats `scraper_config.max_products`: no check when
      falsy; an `int` (a `bool` counts as one); a `float`, which compares
      but cannot slice; anything else, which cannot be compared. */
  datatype Limit = NoLimit | IntLimit(n: int) | FloatLimit(x: real) | Incomparable

  function ConfigLimit(j: Json): (r: Limit)
    ensures !Truthy(j) <==> r == NoLimit
    ensures j == Bool(true) ==> r == IntLimit(1)
    ensures j.Num? && Truthy(j) && j.n.scale == 0 ==> r == IntLimit(j.n.mantissa)
    ensures j.Num? && Truthy(j) && j.n.scale > 0 ==> r == FloatLimit(j.n.Value())
    ensures (j.Str? || j.Arr? || j.Obj?) && Truthy(j) ==> r == Incomparable
  {
    if !Truthy(j) then NoLimit
    else
      match j
      case Bool(_) => IntLimit(1)
      case Num(n) => if n.scale == 0 then IntLimit(n.mantissa) else FloatLimit(n.Value())
      case _ => Incomparable
  }

  /** Whether `count` records reach the limit, as the loop asks it; asking
      a limit that cannot be compared raises `TypeError`. */
  function LimitReached(limit: Limit, count: nat): Result<bool, Error> {
    match limit
    case NoLimit => Success(false)
    case IntLimit(n) => Success(count >= n)
    case FloatLimit(x) => Success(count as real >= x)
    case Incomparable => Failure(Raised(TypeError))
  }

  /** Python's `count >= j` for a JSON value: a boolean compares as 0 or 1,
      a number by its value, and anything else raises `TypeError`. */
  function PyAtLeast(count: nat, j: Json): Result<bool, Error> {
    match j
    case Bool(b) => Success(count >= (if b then 1 else 0))
    case Num(n) => Success(count as real >= n.Value())
    case _ => Failure(Raised(TypeError))
  }

  /** The classified limit answers the loop's question
      `max_products and len(raw_records) >= max_products` as Python does. */
  lemma ConfigLimitComparesAsPython(j: Json, count: nat)
    ensures LimitReached(ConfigLimit(j), count) == if Truthy(j) then PyAtLeast(count, j) else Success(false)
  {
  }

  /** Python's `s[:k]` for an `int` `k`. */
  function Take<T>(s: seq<T>, k: int): (r: seq<T>)
    ensures r <= s
    ensures k >= 0 ==> |r| == if k < |s| then k else |s|
    ensures k < 0 ==> |r| == if |s| + k < 0 then 0 else |s| + k
  {
    if k >= |s| then s
    else if k >= 0 then s[..k]
    else if |s| + k < 0 then []
    else s[..|s| + k]
  }

  /** Every record the pages parse to, page by page. `parse` is
      `parser.parse(html, source_url=url)`. */
  function AllRecords<T>(pages: seq<(string, string)>, parse: (string, string) -> seq<T>): seq<T> {
    if |pages| == 0 then [] else parse(pages[0].1, pages[0].0) + AllRecords(pages[1..], parse)
  }

  /** The command line's `--max-products`: checked when given and non-zero. */
  predicate CliLimits(cli: Option<int>, count: int) {
    cli.Some? && cli.value != 0 && count >= cli.value
  }

  /** The loop of `run` as written: once the configured maximum is reached
      the loop ends before the command-line maximum is looked at. */
  function TruncateAsWritten<T>(pages: seq<(string, string)>, parse: (string, string) -> seq<T>, limit: Limit, cli: Option<int>, records: seq<T>): (r: Result<seq<T>, Error>)
    ensures r.Success? ==> r.value <= records + AllRecords(pages, parse)
    ensures r.Success? && limit.IntLimit? && limit.n > 0 && |records| < limit.n ==> |r.value| <= limit.n
    ensures r.Failure? ==> r.error == Raised(TypeError) && (limit.FloatLimit? || limit.Incomparable?)
    decreases |pages|
  {
    if |pages| == 0 then Success(records)
    else
      var rs := records + parse(pages[0].1, pages[0].0);
      assert records + AllRecords(pages, parse) == rs + AllRecords(pages[1..], parse);
      match limit
      case Incomparable => Failure(Raised(TypeError))
      case FloatLimit(x) => if |rs| as real >= x then Failure(Raised(TypeError)) else TruncateTail(pages, parse, limit, cli, rs)
      case IntLimit(n) => if |rs| >= n then Success(Take(rs, n)) else TruncateTail(pages, parse, limit, cli, rs)
      case NoLimit => TruncateTail(pages, parse, limit, cli, rs)
  }

  /** The command-line check of the as-written loop, then the next page. */
  function TruncateTail<T>(pages: seq<(string, string)>, parse: (string, string) -> seq<T>, limit: Limit, cli: Option<int>, rs: seq<T>): (r: Result<seq<T>, Error>)
    requires |pages| > 0
    ensures r.Success? ==> r.value <= rs + AllRecords(pages[1..], parse)
    ensures r.Success? && limit.IntLimit? && limit.n > 0 && |rs| < limit.n ==> |r.value| <= limit.n
    ensures r.Failure? ==> r.error == Raised(TypeError) && (limit.FloatLimit? || limit.Incomparable?)
    decreases |pages|, 0
  {
    if CliLimits(cli, |rs|) then Success(Take(rs, cli.value))
    else TruncateAsWritten(pages[1..], parse, limit, cli, rs)
  }

  /** The records a run keeps, as the source computes them. */
  function CollectRecordsAsWritten<T>(pages: seq<(string, string)>, parse: (string, string) -> seq<T>, maxProducts: Json, cli: Option<int>): (r: Result<seq<T>, Error>)
    ensures r.Success? ==> r.value <= AllRecords(pages, parse)
    ensures r.Success? && ConfigLimit(maxProducts).IntLimit? && ConfigLimit(maxProducts).n > 0 ==> |r.value| <= ConfigLimit(maxProducts).n
  {
    TruncateAsWritten(pages, parse, ConfigLimit(maxProducts), cli, [])
  }

  /** One page of twelve records, a configured maximum of 10 and a
      command-line maximum of 3: the run keeps 10 records. */
  lemma AsWrittenExceedsCliLimit(pages: seq<(string, string)>, parse: (string, string) -> seq<int>)
    requires pages == [("https://shop.example/list", "<html></html>")]
    requires forall html, url :: parse(html, url) == [1, 2, 3, 4, 5, 6, 7, 8, 9, 10, 11, 12]
    ensures CollectRecordsAsWritten(pages, parse, Num(Decimals.FromInt(10)), Some(3)).Success?
    ensures |CollectRecordsAsWritten(pages, parse, Num(Decimals.FromInt(10)), Some(3)).value| == 10
  {
    assert pages[1..] == [];
  }

  /** The loop with both maxima enforced: the configured one, then the
      command-line one on what is left. */
  function Truncate<T>(pages: seq<(string, string)>, parse: (string, string) -> seq<T>, limit: Limit, cli: Option<int>, records: seq<T>): (r: Result<seq<T>, Error>)
    ensures r.Success? ==> r.value <= records + AllRecords(pages, parse)
    ensures r.Success? && limit.IntLimit? && limit.n > 0 && |records| <= limit.n ==> |r.value| <= limit.n
    ensures r.Success? && cli.Some? && cli.value > 0 && |records| <= cli.value ==> |r.value| <= cli.value
    ensures r.Failure? ==> r.error == Raised(TypeError) && (limit.FloatLimit? || limit.Incomparable?)
    decreases |pages|
  {
    if |pages| == 0 then Success(records)
    else
      var rs := records + parse(pages[0].1, pages[0].0);
      assert records + AllRecords(pages, parse) == rs + AllRecords(pages[1..], parse);
      match limit
      case Incomparable => Failure(Raised(TypeError))
      case FloatLimit(x) => if |rs| as real >= x then Failure(Raised(TypeError)) else CliStep(pages, parse, limit, cli, rs, false)
      case IntLimit(n) => if |rs| >= n then CliStep(pages, parse, limit, cli, Take(rs, n), true) else CliStep(pages, parse, limit, cli, rs, false)
      case NoLimit => CliStep(pages, parse, limit, cli, rs, false)
  }

  /** The command-line check of the corrected loop; the loop ends when
      either maximum was reached. */
  function CliStep<T>(pages: seq<(string, string)>, parse: (string, string) -> seq<T>, limit: Limit, cli: Option<int>, rs: seq<T>, reached: bool): (r: Result<seq<T>, Error>)
    requires |pages| > 0
    ensures r.Success? ==> reached || r.value <= rs + AllRecords(pages[1..], parse)
    ensures r.Success? && reached ==> r.value <= rs
    ensures r.Success? && limit.IntLimit? && limit.n > 0 && |rs| <= limit.n ==> |r.value| <= limit.n
    ensures r.Success? && cli.Some? && cli.value > 0 ==> |r.value| <= cli.value
    ensures r.Failure? ==> r.error == Raised(TypeError) && (limit.FloatLimit? || limit.Incomparable?)
    decreases |pages|, 0
  {
    if CliLimits(cli, |rs|) then Success(Take(rs, cli.value))
    else if reached then Success(rs)
    else Truncate(pages[1..], parse, limit, cli, rs)
  }

  /** The smallest positive maximum in force, if any. */
  function Cap(limit: Limit, cli: Option<int>): Option<nat> {
    var fromConfig := if limit.IntLimit? && limit.n > 0 then Some(limit.n as nat) else None;
    var fromCli := if cli.Some? && cli.value > 0 then Some(cli.value as nat) else None;
    match (fromConfig, fromCli)
    case (Some(a), Some(b)) => Some(if a < b then a else b)
    case (Some(a), None) => Some(a)
    case (None, b) => b
  }

  /** Both maxima are absent or positive, and the configured one is an `int`. */
  predicate PositiveLimits(limit: Limit, cli: Option<int>) {
    && (limit.NoLimit? || (limit.IntLimit? && limit.n > 0))
    && (cli.None? || cli.value >= 0)
  }

  /** The first `min(|s|, cap)` elements. */
  function Prefix<T>(s: seq<T>, cap: Option<nat>): seq<T> {
    if cap.Some? && cap.value < |s| then s[..cap.value] else s
  }

  /** With positive maxima, the corrected loop keeps exactly the first
      records up to the smaller maximum. */
  lemma {:induction false} TruncateKeepsCap<T>(pages: seq<(string, string)>, parse: (string, string) -> seq<T>, limit: Limit, cli: Option<int>, records: seq<T>)
    requires PositiveLimits(limit, cli)
    requires Cap(limit, cli).Some? ==> |records| < Cap(limit, cli).value
    ensures Truncate(pages, parse, limit, cli, records) == Success(Prefix(records + AllRecords(pages, parse), Cap(limit, cli)))
    decreases |pages|
  {
    if |pages| > 0 {
      var rs := records + parse(pages[0].1, pages[0].0);
      var rest := AllRecords(pages[1..], parse);
      assert records + AllRecords(pages, parse) == rs + rest;
      var cap := Cap(limit, cli);
      if cap.Some? && |rs| >= cap.value {
        assert Prefix(rs + rest, cap) == rs[..cap.value];
        if limit.IntLimit? && |rs| >= limit.n {
          var kept := Take(rs, limit.n);
          assert Truncate(pages, parse, limit, cli, records) == CliStep(pages, parse, limit, cli, kept, true);
          if CliLimits(cli, |kept|) {
            assert CliStep(pages, parse, limit, cli, kept, true) == Success(Take(kept, cli.value));
            assert Take(kept, cli.value) == rs[..cap.value];
          } else {
            assert CliStep(pages, parse, limit, cli, kept, true) == Success(kept);
            assert kept == rs[..cap.value];
          }
        } else {
          assert Truncate(pages, parse, limit, cli, records) == CliStep(pages, parse, limit, cli, rs, false);
          assert CliLimits(cli, |rs|);
          assert CliStep(pages, parse, limit, cli, rs, false) == Success(Take(rs, cli.value));
          assert Take(rs, cli.value) == rs[..cap.value];
        }
      } else {
        assert Truncate(pages, parse, limit, cli, records) == CliStep(pages, parse, limit, cli, rs, false);
        assert !CliLimits(cli, |rs|);
        assert CliStep(pages, parse, limit, cli, rs, false) == Truncate(pages[1..], parse, limit, cli, rs);
        TruncateKeepsCap(pages[1..], parse, limit, cli, rs);
      }
    } else {
      assert records + AllRecords(pages, parse) == records;
    }
  }

  /** The records a run keeps, with both maxima enforced. */
  function CollectRecords<T>(pages: seq<(string, string)>, parse: (string, string) -> seq<T>, maxProducts: Json, cli: Option<int>): (r: Result<seq<T>, Error>)
    ensures r.Success? ==> r.value <= AllRecords(pages, parse)
    ensures PositiveLimits(ConfigLimit(maxProducts), cli) ==>
      r == Success(Prefix(AllRecords(pages, parse), Cap(ConfigLimit(maxProducts), cli)))
    ensures r.Success? && ConfigLimit(maxProducts).IntLimit? && ConfigLimit(maxProducts).n > 0 ==> |r.value| <= ConfigLimit(maxProducts).n
    ensures r.Success? && cli.Some? && cli.value > 0 ==> |r.value| <= cli.value
  {
    var limit := ConfigLimit(maxProducts);
    if PositiveLimits(limit, cli) then
      TruncateKeepsCap(pages, parse, limit, cli, []);
      assert [] + AllRecords(pages, parse) == AllRecords(pages, parse);
      Truncate(pages, parse, limit, cli, [])
    else
      Truncate(pages, parse, limit, cli, [])
  }
}
