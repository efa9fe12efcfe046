/**
 * The bookkeeping of the KNBS crawl (Kenya/kenya_final.py) between its
 * crawler calls: menu collection, the pagination follower, the article,
 * "more" and load-more link sets, the merge of the two link dictionaries,
 * report assembly, the download list and the batch download.
 *
 * Every crawler call is the oracle `site`: the results `crawler.arun` yields
 * for a page and an extraction schema.
 */
module Kenya {
  import opened Wrappers
  import opened Text
  import opened TextFiles
  import opened Crawl
  import opened Urls
  import opened Downloads

  const BaseUrl: string := "https://www.knbs.or.ke/"

  /** The extraction a crawler call runs (one per schema and configuration). */
  datatype Query =
    | MenuQuery          // `menu_links_schema` on the home page
    | NavQuery           // `nav_links`: the `next_page` link of a listing page
    | ArticleQuery       // `article_schema`
    | LoadMoreQuery      // `more`, after the script that presses "Load More"
    | MoreQuery          // `more` on an ordinary page
    | PdfQuery           // `pdf_links`
    | XlsxQuery          // `xlsx__links`
    | DetailsQuery       // `more_details`

  /** The crawler: the results of fetching a page with a query; fixed for the run. */
  type Site = (Query, string) -> seq<CrawlResult>

  // ---------------------------------------------------------------- menus

  /** kenya_final.py:151-170: the menu set of the home page. */
  method CollectMenuLinks(site: Site) returns (allMenus: set<string>)
    ensures allMenus == MenuLinks(BaseUrl, SuccessItems(site(MenuQuery, BaseUrl)))
    ensures BaseUrl + "#" !in allMenus
  {
    allMenus := CollectMenus(BaseUrl, site(MenuQuery, BaseUrl));
    MenuLinksMembers(BaseUrl, SuccessItems(site(MenuQuery, BaseUrl)));
  }

  // ----------------------------------------------------------- pagination

  /**
   * `next_url` after the scan of one fetch's items: the normalised value of
   * the last non-empty `next_page`; "" stands for `None` (both end the loop).
   */
  function LastNext(items: seq<Record>): string {
    if items == [] then ""
    else
      var np := Get(items[|items| - 1], "next_page");
      if np != "" then EnsureBaseUrl(BaseUrl, np) else LastNext(items[..|items| - 1])
  }

  /** The normalised non-empty `next_page` values of the items: what one scan adds to `page_links`. */
  function NextLinks(items: seq<Record>): set<string> {
    if items == [] then {}
    else
      var np := Get(items[|items| - 1], "next_page");
      NextLinks(items[..|items| - 1]) + (if np != "" then {EnsureBaseUrl(BaseUrl, np)} else {})
  }

  lemma NextStep(items: seq<Record>, x: Record)
    ensures var np := Get(x, "next_page");
      && LastNext(items + [x]) == (if np != "" then EnsureBaseUrl(BaseUrl, np) else LastNext(items))
      && NextLinks(items + [x]) == NextLinks(items) + (if np != "" then {EnsureBaseUrl(BaseUrl, np)} else {})
  {
    assert (items + [x])[..|items|] == items;
  }

  /** A normalised non-empty link is never "": an empty `next_url` means no item had a `next_page`. */
  lemma NormalisedNonEmpty(np: string)
    requires np != ""
    ensures EnsureBaseUrl(BaseUrl, np) != ""
  {
    if !IsAbsolute(np) {
      assert StartsWith(EnsureBaseUrl(BaseUrl, np), BaseUrl);
    }
  }

  /**
   * The last non-empty `next_page` wins: `next_url` is "" exactly when no item
   * has a non-empty `next_page`, and otherwise it is the normalised value of
   * the last item that has one, which is also among the links added.
   */
  lemma {:induction false} LastNextEmpty(items: seq<Record>)
    ensures LastNext(items) == "" <==> forall k :: 0 <= k < |items| ==> Get(items[k], "next_page") == ""
    decreases |items|
  {
    if items != [] {
      var init, x := items[..|items| - 1], items[|items| - 1];
      LastNextEmpty(init);
      assert items == init + [x];
      NextStep(init, x);
      if Get(x, "next_page") != "" {
        NormalisedNonEmpty(Get(x, "next_page"));
      } else {
        assert forall j :: 0 <= j < |init| ==> init[j] == items[j];
      }
    }
  }

  lemma {:induction false} LastNextListed(items: seq<Record>)
    ensures LastNext(items) != "" ==> LastNext(items) in NextLinks(items)
    decreases |items|
  {
    if items != [] {
      var init, x := items[..|items| - 1], items[|items| - 1];
      LastNextListed(init);
      assert items == init + [x];
      NextStep(init, x);
    }
  }

  lemma {:induction false} LastNextFrom(items: seq<Record>)
    ensures LastNext(items) != "" ==>
      exists k :: 0 <= k < |items| && Get(items[k], "next_page") != ""
        && LastNext(items) == EnsureBaseUrl(BaseUrl, Get(items[k], "next_page"))
        && forall j :: k < j < |items| ==> Get(items[j], "next_page") == ""
    decreases |items|
  {
    if items != [] {
      var init, x := items[..|items| - 1], items[|items| - 1];
      var k := |items| - 1;
      LastNextFrom(init);
      assert items == init + [x];
      NextStep(init, x);
      if Get(x, "next_page") == "" && LastNext(init) != "" {
        var k' :| 0 <= k' < |init| && Get(init[k'], "next_page") != ""
          && LastNext(init) == EnsureBaseUrl(BaseUrl, Get(init[k'], "next_page"))
          && forall j :: k' < j < |init| ==> Get(init[j], "next_page") == "";
        assert items[k'] == init[k'];
        assert forall j :: k' < j < |items| ==> Get(items[j], "next_page") == "" by {
          forall j | k' < j < |items| ensures Get(items[j], "next_page") == "" {
            if j < k { assert items[j] == init[j]; }
          }
        }
      }
    }
  }

  lemma LastNextWins(items: seq<Record>)
    ensures LastNext(items) == "" <==> forall k :: 0 <= k < |items| ==> Get(items[k], "next_page") == ""
    ensures LastNext(items) != "" ==>
      && LastNext(items) in NextLinks(items)
      && exists k :: 0 <= k < |items| && Get(items[k], "next_page") != ""
           && LastNext(items) == EnsureBaseUrl(BaseUrl, Get(items[k], "next_page"))
           && forall j :: k < j < |items| ==> Get(items[j], "next_page") == ""
  {
    LastNextEmpty(items);
    LastNextListed(items);
    LastNextFrom(items);
  }

  /** Exactly the normalised non-empty `next_page` values are added. */
  lemma {:induction false} NextLinksMembers(items: seq<Record>)
    ensures forall u :: u in NextLinks(items) <==>
      exists k :: 0 <= k < |items| && Get(items[k], "next_page") != ""
        && u == EnsureBaseUrl(BaseUrl, Get(items[k], "next_page"))
    decreases |items|
  {
    if items != [] {
      var init := items[..|items| - 1];
      NextLinksMembers(init);
      assert items == init + [items[|items| - 1]];
      NextStep(init, items[|items| - 1]);
      assert forall j :: 0 <= j < |init| ==> init[j] == items[j];
    }
  }

  /** The inner loop over the items of one result. */
  method ScanNextItems(items: seq<Record>, ghost before: seq<Record>, pageLinks: set<string>,
                       next0: string, links0: set<string>)
    returns (nextUrl: string, links: set<string>)
    requires next0 == LastNext(before) && links0 == pageLinks + NextLinks(before)
    ensures nextUrl == LastNext(before + items) && links == pageLinks + NextLinks(before + items)
  {
    nextUrl, links := next0, links0;
    assert before + items[..0] == before;
    for j := 0 to |items|
      invariant nextUrl == LastNext(before + items[..j])
      invariant links == pageLinks + NextLinks(before + items[..j])
    {
      PrefixStep(before, items, j);
      NextStep(before + items[..j], items[j]);
      var nextPage := Get(items[j], "next_page");
      if nextPage != "" {
        nextUrl := EnsureBaseUrl(BaseUrl, nextPage);
        if nextUrl !in links {
          links := links + {nextUrl};
        }
      }
    }
    assert items[..|items|] == items;
  }

  /** kenya_final.py:191-203: one fetch of the pagination loop: `next_url` and the grown `page_links`. */
  method ScanNextPage(results: seq<CrawlResult>, pageLinks: set<string>) returns (nextUrl: string, links: set<string>)
    ensures nextUrl == LastNext(SuccessItems(results))
    ensures links == pageLinks + NextLinks(SuccessItems(results))
  {
    nextUrl, links := "", pageLinks;
    for i := 0 to |results|
      invariant nextUrl == LastNext(SuccessItems(results[..i]))
      invariant links == pageLinks + NextLinks(SuccessItems(results[..i]))
    {
      SuccessItemsStep(results, i);
      if results[i].success {
        nextUrl, links := ScanNextItems(Items(results[i]), SuccessItems(results[..i]), pageLinks, nextUrl, links);
      }
    }
    SuccessItemsAll(results);
  }

  /** `next_url` of the fetch of page `u`. */
  function NextOf(site: Site, u: string): string {
    LastNext(SuccessItems(site(NavQuery, u)))
  }

  /**
   * The pages the `while current_url` loop fetches from `start`, in order,
   * when at most `fuel` fetches are allowed (the loop itself has no bound).
   */
  function Visits(site: Site, start: string, fuel: nat): seq<string>
    decreases fuel
  {
    if start == "" || fuel == 0 then [] else [start] + Visits(site, NextOf(site, start), fuel - 1)
  }

  /** The loop from `start` ends within `fuel` fetches. */
  predicate Ends(site: Site, start: string, fuel: nat)
    decreases fuel
  {
    start == "" || (fuel > 0 && Ends(site, NextOf(site, start), fuel - 1))
  }

  /** The links the scans of the given fetched pages add. */
  function Discovered(site: Site, pages: seq<string>): set<string> {
    if pages == [] then {} else NextLinks(SuccessItems(site(NavQuery, pages[0]))) + Discovered(site, pages[1..])
  }

  lemma {:induction false} DiscoveredAppend(site: Site, pages: seq<string>, u: string)
    ensures Discovered(site, pages + [u]) == Discovered(site, pages) + NextLinks(SuccessItems(site(NavQuery, u)))
    decreases |pages|
  {
    if pages == [] {
      assert [u][1..] == [];
    } else {
      assert (pages + [u])[1..] == pages[1..] + [u];
      DiscoveredAppend(site, pages[1..], u);
    }
  }

  /** `page_links` of a menu: its start URL and every link the fetched pages' scans added. */
  function PageLinks(site: Site, start: string, fuel: nat): set<string> {
    {start} + Discovered(site, Visits(site, start, fuel))
  }

  /**
   * What holds at the top of each round of the pagination loop: the pages
   * still to fetch continue those fetched, the loop ends when it would have
   * from `current_url`, and `page_links` holds the start URL and every link
   * added so far.
   */
  ghost predicate Paginating(site: Site, start: string, fuel: nat, pageLinks: set<string>, fetched: seq<string>,
                             currentUrl: string, left: nat)
  {
    && Visits(site, start, fuel) == fetched + Visits(site, currentUrl, left)
    && Ends(site, start, fuel) == Ends(site, currentUrl, left)
    && pageLinks == {start} + Discovered(site, fetched)
  }

  /** kenya_final.py:181-203: one round of the loop: fetch `current_url`, grow `page_links`, move to `next_url`. */
  method PaginationRound(site: Site, ghost start: string, ghost fuel: nat, pageLinks: set<string>, fetched: seq<string>,
                         currentUrl: string, left: nat)
    returns (pageLinks': set<string>, fetched': seq<string>, nextUrl: string)
    requires currentUrl != "" && left > 0
    requires Paginating(site, start, fuel, pageLinks, fetched, currentUrl, left)
    ensures Paginating(site, start, fuel, pageLinks', fetched', nextUrl, left - 1)
    ensures fetched' == fetched + [currentUrl] && nextUrl == NextOf(site, currentUrl)
  {
    var results := site(NavQuery, currentUrl);
    nextUrl, pageLinks' := ScanNextPage(results, pageLinks);
    PaginationStep(site, fetched, currentUrl, left);
    ConcatAssoc(fetched, [currentUrl], Visits(site, nextUrl, left - 1));
    fetched' := fetched + [currentUrl];
  }

  /**
   * kenya_final.py:176-203: the pagination loop of one menu. `current_url`
   * becomes `next_url` even when that URL is already known, so only a fetch
   * without a `next_page` ends it; `ended` says whether that happened within
   * `fuel` fetches.
   */
  method FollowPagination(site: Site, start: string, fuel: nat) returns (pageLinks: set<string>, fetched: seq<string>, ended: bool)
    ensures fetched == Visits(site, start, fuel)
    ensures pageLinks == PageLinks(site, start, fuel)
    ensures ended == Ends(site, start, fuel)
  {
    pageLinks := {start};
    var currentUrl := start;
    var left := fuel;
    fetched := [];
    assert fetched + Visits(site, start, fuel) == Visits(site, start, fuel);
    while currentUrl != "" && left > 0
      invariant Paginating(site, start, fuel, pageLinks, fetched, currentUrl, left)
      decreases left
    {
      pageLinks, fetched, currentUrl := PaginationRound(site, start, fuel, pageLinks, fetched, currentUrl, left);
      left := left - 1;
    }
    assert Visits(site, currentUrl, left) == [] && fetched + [] == fetched;
    ended := currentUrl == "";
  }

  lemma ConcatAssoc<T>(a: seq<T>, b: seq<T>, c: seq<T>)
    ensures a + (b + c) == (a + b) + c
  {
  }

  /** One round of the pagination loop: page `u` fetched, its links added, the loop continued from its `next_url`. */
  lemma PaginationStep(site: Site, fetched: seq<string>, u: string, left: nat)
    requires u != "" && left > 0
    ensures Visits(site, u, left) == [u] + Visits(site, NextOf(site, u), left - 1)
    ensures Ends(site, u, left) == Ends(site, NextOf(site, u), left - 1)
    ensures Discovered(site, fetched + [u]) == Discovered(site, fetched) + NextLinks(SuccessItems(site(NavQuery, u)))
  {
    DiscoveredAppend(site, fetched, u);
  }

  /** Every fetched page is in `page_links`: the start URL and each `next_url` followed were added. */
  lemma {:induction false} VisitedAreLinks(site: Site, start: string, fuel: nat)
    ensures forall v :: v in Visits(site, start, fuel) ==> v in PageLinks(site, start, fuel)
    decreases fuel
  {
    if start != "" && fuel > 0 {
      var next := NextOf(site, start);
      VisitedAreLinks(site, next, fuel - 1);
      var rest := Visits(site, next, fuel - 1);
      assert ([start] + rest)[1..] == rest;
      if next != "" {
        LastNextWins(SuccessItems(site(NavQuery, start)));
      }
    }
  }

  /** The loop ends only at a fetch that yields no `next_page`: the last page fetched has none. */
  lemma {:induction false} EndsAtLastPage(site: Site, start: string, fuel: nat)
    requires start != "" && Ends(site, start, fuel)
    ensures var v := Visits(site, start, fuel); v != [] && NextOf(site, v[|v| - 1]) == ""
    decreases fuel
  {
    var next := NextOf(site, start);
    if next != "" {
      EndsAtLastPage(site, next, fuel - 1);
    }
  }

  /** A loop that has not ended used up every fetch allowed. */
  lemma {:induction false} UnendedUsesFuel(site: Site, start: string, fuel: nat)
    requires !Ends(site, start, fuel)
    ensures |Visits(site, start, fuel)| == fuel
    decreases fuel
  {
    if fuel > 0 {
      UnendedUsesFuel(site, NextOf(site, start), fuel - 1);
    }
  }

  /** There is no cycle detection: two pages that name each other as next page are fetched forever. */
  lemma {:induction false} CycleNeverEnds(site: Site, a: string, b: string, fuel: nat)
    requires a != "" && b != ""
    requires NextOf(site, a) == b && NextOf(site, b) == a
    ensures !Ends(site, a, fuel) && !Ends(site, b, fuel)
    decreases fuel
  {
    if fuel > 0 {
      CycleNeverEnds(site, a, b, fuel - 1);
    }
  }

  /** Every menu's pagination loop ends within `fuel` fetches. */
  predicate AllEnd(site: Site, menus: seq<string>, fuel: nat) {
    forall m :: m in menus ==> Ends(site, m, fuel)
  }

  lemma AllEndStep(site: Site, menus: seq<string>, fuel: nat, i: nat)
    requires i < |menus|
    ensures AllEnd(site, menus[..i + 1], fuel) <==> AllEnd(site, menus[..i], fuel) && Ends(site, menus[i], fuel)
  {
    assert menus[..i + 1] == menus[..i] + [menus[i]];
  }

  /**
   * kenya_final.py:174-205: every menu paginated in turn; `page_links_dict`
   * maps each menu to its `page_links`, and `last` is the `page_links` left
   * over from the last menu (None when there was no menu at all).
   * `allEnded` says whether every menu's loop ended within `fuel` fetches;
   * where one does not, the script never gets past that menu.
   */
  method PaginateMenus(site: Site, menus: seq<string>, fuel: nat)
    returns (pageLinksDict: map<string, set<string>>, last: Option<set<string>>, allEnded: bool)
    ensures pageLinksDict.Keys == Elements(menus)
    ensures forall m :: m in pageLinksDict ==> pageLinksDict[m] == PageLinks(site, m, fuel)
    ensures last == if menus == [] then None else Some(PageLinks(site, menus[|menus| - 1], fuel))
    ensures allEnded <==> forall m :: m in menus ==> Ends(site, m, fuel)
  {
    pageLinksDict, last, allEnded := map[], None, true;
    for i := 0 to |menus|
      invariant pageLinksDict.Keys == Elements(menus[..i])
      invariant forall m :: m in pageLinksDict ==> pageLinksDict[m] == PageLinks(site, m, fuel)
      invariant last == if i == 0 then None else Some(PageLinks(site, menus[i - 1], fuel))
      invariant allEnded == AllEnd(site, menus[..i], fuel)
    {
      var url := menus[i];
      var pageLinks, fetched, ended := FollowPagination(site, url, fuel);
      ElementsStep(menus, i);
      AllEndStep(site, menus, fuel, i);
      pageLinksDict := pageLinksDict[url := pageLinks];
      last := Some(pageLinks);
      allEnded := allEnded && ended;
    }
    assert menus[..|menus|] == menus;
    if menus != [] {
      ElementsStep(menus, 0);
    }
  }

  // ------------------------------------------------------------ link sets

  /** The non-empty values of `key` among the items: what a scan adds to a URL set. */
  function NonEmptyValues(items: seq<Record>, key: string): set<string> {
    if items == [] then {}
    else
      var v := Get(items[|items| - 1], key);
      NonEmptyValues(items[..|items| - 1], key) + (if v != "" then {v} else {})
  }

  lemma NonEmptyValuesAppend(items: seq<Record>, x: Record, key: string)
    ensures NonEmptyValues(items + [x], key) ==
      NonEmptyValues(items, key) + (if Get(x, key) != "" then {Get(x, key)} else {})
  {
    assert (items + [x])[..|items|] == items;
  }

  /** Exactly the non-empty values of `key` are collected. */
  lemma {:induction false} NonEmptyValuesMembers(items: seq<Record>, key: string)
    ensures forall u :: u in NonEmptyValues(items, key) <==>
      u != "" && exists k :: 0 <= k < |items| && Get(items[k], key) == u
    decreases |items|
  {
    if items != [] {
      var init := items[..|items| - 1];
      NonEmptyValuesMembers(init, key);
      assert items == init + [items[|items| - 1]];
      NonEmptyValuesAppend(init, items[|items| - 1], key);
      assert forall j :: 0 <= j < |init| ==> init[j] == items[j];
    }
  }

  /** The URLs a fetch's results contribute: the non-empty `url` values of the successful results' items. */
  function Harvest(results: seq<CrawlResult>): set<string> {
    NonEmptyValues(SuccessItems(results), "url")
  }

  lemma HarvestNonEmpty(results: seq<CrawlResult>)
    ensures "" !in Harvest(results)
  {
    NonEmptyValuesMembers(SuccessItems(results), "url");
  }

  lemma {:induction false} NonEmptyValuesConcat(a: seq<Record>, b: seq<Record>, key: string)
    ensures NonEmptyValues(a + b, key) == NonEmptyValues(a, key) + NonEmptyValues(b, key)
    decreases |b|
  {
    if b == [] {
      assert a + b == a;
    } else {
      var init := b[..|b| - 1];
      NonEmptyValuesConcat(a, init, key);
      assert a + b == (a + init) + [b[|b| - 1]];
      NonEmptyValuesAppend(a + init, b[|b| - 1], key);
      assert b == init + [b[|b| - 1]];
      NonEmptyValuesAppend(init, b[|b| - 1], key);
    }
  }

  /** The scan of one result's items: every non-empty `url` not yet known is added. */
  method ScanItems(items: seq<Record>, known: set<string>) returns (urls: set<string>, extractedAny: bool)
    ensures urls == known + NonEmptyValues(items, "url")
    ensures extractedAny <==> !(NonEmptyValues(items, "url") <= known)
  {
    urls, extractedAny := known, false;
    for j := 0 to |items|
      invariant urls == known + NonEmptyValues(items[..j], "url")
      invariant extractedAny <==> !(NonEmptyValues(items[..j], "url") <= known)
    {
      assert items[..j + 1] == items[..j] + [items[j]];
      NonEmptyValuesAppend(items[..j], items[j], "url");
      var url := Get(items[j], "url");
      if url != "" && url !in urls {
        urls := urls + {url};
        extractedAny := true;
      }
    }
    assert items[..|items|] == items;
  }

  /**
   * kenya_final.py:229-236 (also 350-355 and 377-384): every non-empty `url`
   * not yet in the set is added; `extractedAny` says whether one was.
   */
  method ScanUrls(results: seq<CrawlResult>, known: set<string>) returns (urls: set<string>, extractedAny: bool)
    ensures urls == known + Harvest(results)
    ensures extractedAny <==> !(Harvest(results) <= known)
  {
    urls, extractedAny := known, false;
    for i := 0 to |results|
      invariant urls == known + NonEmptyValues(SuccessItems(results[..i]), "url")
      invariant extractedAny <==> !(NonEmptyValues(SuccessItems(results[..i]), "url") <= known)
    {
      SuccessItemsStep(results, i);
      NonEmptyValuesConcat(SuccessItems(results[..i]), Items(results[i]), "url");
      if results[i].success {
        var added: bool;
        urls, added := ScanItems(Items(results[i]), urls);
        extractedAny := extractedAny || added;
      }
    }
    SuccessItemsAll(results);
  }

  // ------------------------------------------------------------- articles

  /** The outcome of a link sweep over pages: the URLs found and how many pages were fetched. */
  datatype Sweep = Sweep(found: set<string>, fetched: nat)

  /**
   * kenya_final.py:215-244: the article sweep over `page_links`, starting from
   * the URLs already `known`: it stops at a fetch with no results at all or
   * one that adds no new URL.
   */
  function ArticleSweep(site: Site, pages: seq<string>, known: set<string>): Sweep
    decreases |pages|
  {
    if pages == [] then Sweep(known, 0)
    else
      var results := site(ArticleQuery, pages[0]);
      var grown := known + Harvest(results);
      if results == [] || grown == known then Sweep(known, 1)
      else
        var rest := ArticleSweep(site, pages[1..], grown);
        Sweep(rest.found, rest.fetched + 1)
  }

  /** Everything the article fetches of the given pages contribute. */
  function ArticleUnion(site: Site, pages: seq<string>): set<string>
    decreases |pages|
  {
    if pages == [] then {} else Harvest(site(ArticleQuery, pages[0])) + ArticleUnion(site, pages[1..])
  }

  lemma ArticleUnionHead(site: Site, pages: seq<string>, n: nat)
    requires 1 <= n <= |pages|
    ensures ArticleUnion(site, pages[..n]) == Harvest(site(ArticleQuery, pages[0])) + ArticleUnion(site, pages[1..][..n - 1])
  {
    assert pages[..n][0] == pages[0];
    assert pages[..n][1..] == pages[1..][..n - 1];
  }

  /** The sweep fetches a prefix of the pages and collects exactly what those fetches contribute. */
  lemma {:induction false} ArticleSweepFound(site: Site, pages: seq<string>, known: set<string>)
    ensures ArticleSweep(site, pages, known).fetched <= |pages|
    ensures ArticleSweep(site, pages, known).found
      == known + ArticleUnion(site, pages[..ArticleSweep(site, pages, known).fetched])
    decreases |pages|
  {
    if pages != [] {
      var results := site(ArticleQuery, pages[0]);
      var grown := known + Harvest(results);
      ArticleUnionHead(site, pages, 1);
      assert pages[1..][..0] == [];
      if results == [] || grown == known {
        if results == [] {
          assert SuccessItems(results) == [];
        }
      } else {
        var s := ArticleSweep(site, pages[1..], grown);
        ArticleSweepFound(site, pages[1..], grown);
        ArticleUnionHead(site, pages, s.fetched + 1);
      }
    }
  }

  /** Every page the sweep fetched, except the last one, added a URL not known before it. */
  lemma {:induction false} ArticleSweepAdds(site: Site, pages: seq<string>, known: set<string>, j: nat)
    requires j < |pages| && j + 1 < ArticleSweep(site, pages, known).fetched
    ensures !(Harvest(site(ArticleQuery, pages[j])) <= known + ArticleUnion(site, pages[..j]))
    decreases |pages|
  {
    ArticleSweepFound(site, pages, known);
    var results := site(ArticleQuery, pages[0]);
    var grown := known + Harvest(results);
    assert !(results == [] || grown == known);
    assert pages[..0] == [];
    if j > 0 {
      ArticleSweepAdds(site, pages[1..], grown, j - 1);
      ArticleUnionHead(site, pages, j);
      assert pages[j] == pages[1..][j - 1];
    }
  }

  /** A sweep that stops before the last page stops at a fetch that added nothing new. */
  lemma {:induction false} ArticleSweepStopsEarly(site: Site, pages: seq<string>, known: set<string>)
    requires ArticleSweep(site, pages, known).fetched < |pages|
    ensures 0 < ArticleSweep(site, pages, known).fetched
    ensures var n := ArticleSweep(site, pages, known).fetched;
      Harvest(site(ArticleQuery, pages[n - 1])) <= known + ArticleUnion(site, pages[..n - 1])
    decreases |pages|
  {
    var results := site(ArticleQuery, pages[0]);
    var grown := known + Harvest(results);
    assert pages[..0] == [];
    if results == [] {
      assert SuccessItems(results) == [];
    } else if grown != known {
      var n := ArticleSweep(site, pages[1..], grown).fetched;
      ArticleSweepStopsEarly(site, pages[1..], grown);
      ArticleUnionHead(site, pages, n);
    }
  }

  /** The article set holds no empty string, since only non-empty URLs are added. */
  lemma {:induction false} ArticleUnionNonEmpty(site: Site, pages: seq<string>)
    ensures "" !in ArticleUnion(site, pages)
    decreases |pages|
  {
    if pages != [] {
      HarvestNonEmpty(site(ArticleQuery, pages[0]));
      ArticleUnionNonEmpty(site, pages[1..]);
    }
  }

  /**
   * kenya_final.py:215-244: the article loop. It runs over the `page_links`
   * the pagination loop left behind, which are those of the last menu only.
   */
  method CollectArticles(site: Site, pageLinks: seq<string>) returns (mainArticleUrls: set<string>, fetched: nat)
    ensures Sweep(mainArticleUrls, fetched) == ArticleSweep(site, pageLinks, {})
  {
    mainArticleUrls, fetched := {}, 0;
    for i := 0 to |pageLinks|
      invariant fetched == i
      invariant ArticleSweep(site, pageLinks, {}).found == ArticleSweep(site, pageLinks[i..], mainArticleUrls).found
      invariant ArticleSweep(site, pageLinks, {}).fetched == i + ArticleSweep(site, pageLinks[i..], mainArticleUrls).fetched
    {
      assert pageLinks[i..][0] == pageLinks[i] && pageLinks[i..][1..] == pageLinks[i + 1..];
      var url := pageLinks[i];
      var results := site(ArticleQuery, url);
      fetched := fetched + 1;
      if results == [] {
        break;
      }
      var urls, extractedAny := ScanUrls(results, mainArticleUrls);
      if !extractedAny {
        break;
      }
      mainArticleUrls := urls;
    }
  }

  /**
   * kenya_final.py:174-244: the pagination loop over every menu, then the
   * article loop over the variable `page_links` it leaves behind: the page
   * links of the last menu only, listed in the order Python iterates the set
   * (`pages`). The article loop is reached only when every menu's pagination
   * ended; with no menu `page_links` is never bound and it raises `NameError`.
   * `articles` is None in both cases.
   */
  method PaginateThenArticles(site: Site, menus: seq<string>, fuel: nat)
    returns (pageLinksDict: map<string, set<string>>, allEnded: bool, pages: seq<string>, articles: Option<Sweep>)
    ensures forall m :: m in pageLinksDict <==> m in menus
    ensures forall m :: m in pageLinksDict ==> pageLinksDict[m] == PageLinks(site, m, fuel)
    ensures allEnded <==> forall m :: m in menus ==> Ends(site, m, fuel)
    ensures articles.Some? <==> menus != [] && allEnded
    ensures articles.Some? ==>
      && Distinct(pages) && Elements(pages) == PageLinks(site, menus[|menus| - 1], fuel)
      && articles.value == ArticleSweep(site, pages, {})
  {
    var last;
    pageLinksDict, last, allEnded := PaginateMenus(site, menus, fuel);
    pages, articles := [], None;
    if last.None? || !allEnded {
      return;
    }
    pages := ListOfSet(last.value);
    var found, fetched := CollectArticles(site, pages);
    articles := Some(Sweep(found, fetched));
  }

  // ------------------------------------------------------- classification

  /** The literal list `load_more_btn_urls` (kenya_final.py:257-262). */
  const LoadMoreButtonUrls: seq<string> := [
      "https://www.knbs.or.ke/statistical-abstracts/",
      "https://www.knbs.or.ke/economic-surveys/",
      "https://www.knbs.or.ke/county-statistical-abstracts/",
      "https://www.knbs.or.ke/general-publications/"
  ]

  /** The literal list `skip_urls` (kenya_final.py:263-314). */
  const SkipUrls: seq<string> := [
      "https://www.knbs.or.ke/about/",
      "https://www.knbs.or.ke/macroeconomic-statistics-directorate/",
      "https://www.knbs.or.ke/about/#vmc",
      "https://www.knbs.or.ke/videos/",
      "https://www.knbs.or.ke/board-of-directors/",
      "https://www.knbs.or.ke/reports/kenya-census-1999/",
      "https://www.knbs.or.ke/reports/kenya-census-2009/",
      "https://www.knbs.or.ke/reports/kenya-census-2019/",
      "https://www.knbs.or.ke/kenstats/",
      "https://www.knbs.or.ke/partners/",
      "https://www.knbs.or.ke/statistical-coordination-methods-directorate/",
      "https://www.knbs.or.ke/photos/",
      "https://www.knbs.or.ke/tenders/",
      "https://www.knbs.or.ke/ongoing-surveys/",
      "https://www.knbs.or.ke/portals/",
      "https://www.knbs.or.ke/statistical-releases/",
      "https://www.knbs.or.ke/about/#history",
      "https://www.knbs.or.ke/top-management/",
      "https://www.knbs.or.ke/about/#mandate",
      "https://www.knbs.or.ke/jobs/",
      "https://www.knbs.or.ke/director-general-office/",
      "https://www.knbs.or.ke/directorates/",
      "https://www.knbs.or.ke/knbs-sdgs/",
      "https://www.knbs.or.ke/service-delivery-charter/",
      "https://www.knbs.or.ke/quality-policy/",
      "https://www.knbs.or.ke/about/kenya-statistics-code-of-practice-kescop/",
      "https://www.knbs.or.ke/population-and-social-statistics-directorate/",
      "https://www.knbs.or.ke/iso-certification/",
      "https://www.knbs.or.ke/production-statistics-directorate/",
      "https://www.knbs.or.ke/internships/",
      "https://www.knbs.or.ke/strategic-plan/",
      "https://www.knbs.or.ke/data-revision-policy/",
      "https://www.knbs.or.ke/corporate-services-directorate/",
      "https://www.knbs.or.ke/news-and-events/page/4/",
      "https://www.knbs.or.ke/news-and-events/page/5/",
      "https://www.knbs.or.ke/news-and-events/page/9/",
      "https://www.knbs.or.ke/news-and-events/page/3/",
      "https://www.knbs.or.ke/news-and-events/page/10/",
      "https://www.knbs.or.ke/news-and-events/page/12/",
      "https://www.knbs.or.ke/news-and-events/page/15/",
      "https://www.knbs.or.ke/news-and-events/page/13/",
      "https://www.knbs.or.ke/news-and-events/page/14/",
      "https://www.knbs.or.ke/news-and-events/page/11/",
      "https://www.knbs.or.ke/news-and-events/",
      "https://www.knbs.or.ke/news-and-events/page/7/",
      "https://www.knbs.or.ke/news-and-events/page/17/",
      "https://www.knbs.or.ke/news-and-events/page/2/",
      "https://www.knbs.or.ke/news-and-events/page/8/",
      "https://www.knbs.or.ke/news-and-events/page/6/",
      "https://www.knbs.or.ke/news-and-events/page/16/"
  ]

  /** How the "more" loop treats a page. */
  datatype Handling = LoadMoreButton | Skip | Normal

  /** The load-more list is consulted first, then the skip list; every other page is normal. */
  function ClassifyBy(url: string, loadMore: seq<string>, skip: seq<string>): (h: Handling)
    ensures h == LoadMoreButton <==> url in loadMore
    ensures h == Skip <==> url !in loadMore && url in skip
    ensures h == Normal <==> url !in loadMore && url !in skip
  {
    if url in loadMore then LoadMoreButton else if url in skip then Skip else Normal
  }

  /** The two literal lists the "more" loop consults. */
  datatype PageLists = PageLists(loadMore: seq<string>, skip: seq<string>)

  /** The lists of the KNBS script. */
  const KnbsLists: PageLists := PageLists(LoadMoreButtonUrls, SkipUrls)

  function Classify(lists: PageLists, url: string): Handling {
    ClassifyBy(url, lists.loadMore, lists.skip)
  }

  // --------------------------------------------- "more" and load-more links

  /**
   * The state of the "more" loop: `file_details_dict`, `load_more_dict`, and
   * the pages fetched so far, in order.
   */
  datatype DetailLinks = DetailLinks(fileDetails: map<string, set<string>>, loadMore: map<string, set<string>>, fetched: seq<string>)

  /** A normal page whose fetch yields no link: the `break` that abandons the rest of its menu. */
  predicate Halts(site: Site, lists: PageLists, page: string) {
    Classify(lists, page) == Normal && Harvest(site(MoreQuery, page)) == {}
  }

  /**
   * kenya_final.py:256-396: the inner loop over the pages of one menu. A
   * load-more page stores its fresh link set under its URL, a skipped page is
   * not fetched, and a normal page stores its fresh link set, or ends the
   * menu when it has none.
   */
  function MenuPass(site: Site, lists: PageLists, pages: seq<string>, st: DetailLinks): DetailLinks
    decreases |pages|
  {
    if pages == [] then st
    else
      var p := pages[0];
      match Classify(lists, p)
      case LoadMoreButton =>
        var fileDetails := Harvest(site(LoadMoreQuery, p));
        MenuPass(site, lists, pages[1..], DetailLinks(st.fileDetails[p := fileDetails], st.loadMore, st.fetched + [p]))
      case Skip =>
        MenuPass(site, lists, pages[1..], st)
      case Normal =>
        var moreUrls := Harvest(site(MoreQuery, p));
        if moreUrls == {} then DetailLinks(st.fileDetails, st.loadMore, st.fetched + [p])
        else MenuPass(site, lists, pages[1..], DetailLinks(st.fileDetails, st.loadMore[p := moreUrls], st.fetched + [p]))
  }

  /** kenya_final.py:255-396: the menus' page lists in turn. */
  function Passes(site: Site, lists: PageLists, menus: seq<seq<string>>): DetailLinks {
    if menus == [] then DetailLinks(map[], map[], [])
    else MenuPass(site, lists, menus[|menus| - 1], Passes(site, lists, menus[..|menus| - 1]))
  }

  /**
   * What every state of the loop satisfies: `file_details_dict` has keys only
   * for load-more pages and `load_more_dict` only for normal pages, each
   * mapped to the links of its own fetch (never empty for a normal page),
   * and no skipped page is ever fetched.
   */
  predicate Recorded(site: Site, lists: PageLists, st: DetailLinks) {
    && (forall p :: p in st.fileDetails ==>
          Classify(lists, p) == LoadMoreButton && st.fileDetails[p] == Harvest(site(LoadMoreQuery, p)))
    && (forall p :: p in st.loadMore ==>
          Classify(lists, p) == Normal && st.loadMore[p] == Harvest(site(MoreQuery, p)) && st.loadMore[p] != {})
    && (forall u :: u in st.fetched ==> Classify(lists, u) != Skip)
  }

  /** One menu's pass keeps `Recorded`. */
  lemma {:induction false} MenuPassKeepsRecorded(site: Site, lists: PageLists, pages: seq<string>, st: DetailLinks)
    requires Recorded(site, lists, st)
    ensures Recorded(site, lists, MenuPass(site, lists, pages, st))
    decreases |pages|
  {
    if pages != [] {
      var p := pages[0];
      match Classify(lists, p)
      case LoadMoreButton =>
        MenuPassKeepsRecorded(site, lists, pages[1..], DetailLinks(st.fileDetails[p := Harvest(site(LoadMoreQuery, p))], st.loadMore, st.fetched + [p]));
      case Skip =>
        MenuPassKeepsRecorded(site, lists, pages[1..], st);
      case Normal =>
        var moreUrls := Harvest(site(MoreQuery, p));
        if moreUrls != {} {
          MenuPassKeepsRecorded(site, lists, pages[1..], DetailLinks(st.fileDetails, st.loadMore[p := moreUrls], st.fetched + [p]));
        }
    }
  }

  /** A pass adds keys only for pages of its menu. */
  lemma {:induction false} MenuPassNewKeys(site: Site, lists: PageLists, pages: seq<string>, st: DetailLinks)
    ensures MenuPass(site, lists, pages, st).fileDetails.Keys <= st.fileDetails.Keys + Elements(pages)
    ensures MenuPass(site, lists, pages, st).loadMore.Keys <= st.loadMore.Keys + Elements(pages)
    decreases |pages|
  {
    if pages != [] {
      var p := pages[0];
      assert Elements(pages) == {p} + Elements(pages[1..]);
      match Classify(lists, p)
      case LoadMoreButton =>
        MenuPassNewKeys(site, lists, pages[1..], DetailLinks(st.fileDetails[p := Harvest(site(LoadMoreQuery, p))], st.loadMore, st.fetched + [p]));
      case Skip =>
        MenuPassNewKeys(site, lists, pages[1..], st);
      case Normal =>
        var moreUrls := Harvest(site(MoreQuery, p));
        if moreUrls != {} {
          MenuPassNewKeys(site, lists, pages[1..], DetailLinks(st.fileDetails, st.loadMore[p := moreUrls], st.fetched + [p]));
        }
    }
  }

  /** One menu's pass keeps `Recorded`, only adds keys, and only for pages of that menu. */
  lemma MenuPassRecorded(site: Site, lists: PageLists, pages: seq<string>, st: DetailLinks)
    requires Recorded(site, lists, st)
    ensures Recorded(site, lists, MenuPass(site, lists, pages, st))
    ensures st.fileDetails.Keys <= MenuPass(site, lists, pages, st).fileDetails.Keys <= st.fileDetails.Keys + Elements(pages)
    ensures st.loadMore.Keys <= MenuPass(site, lists, pages, st).loadMore.Keys <= st.loadMore.Keys + Elements(pages)
  {
    MenuPassKeepsRecorded(site, lists, pages, st);
    MenuPassNewKeys(site, lists, pages, st);
    KeysKept(site, lists, pages, st);
  }

  lemma {:induction false} PassesKeepRecorded(site: Site, lists: PageLists, menus: seq<seq<string>>)
    ensures Recorded(site, lists, Passes(site, lists, menus))
    decreases |menus|
  {
    if menus != [] {
      PassesKeepRecorded(site, lists, menus[..|menus| - 1]);
      MenuPassKeepsRecorded(site, lists, menus[|menus| - 1], Passes(site, lists, menus[..|menus| - 1]));
    }
  }

  lemma {:induction false} PassesKeysFromMenus(site: Site, lists: PageLists, menus: seq<seq<string>>)
    ensures forall p :: p in Passes(site, lists, menus).fileDetails ==> exists k :: 0 <= k < |menus| && p in menus[k]
    ensures forall p :: p in Passes(site, lists, menus).loadMore ==> exists k :: 0 <= k < |menus| && p in menus[k]
    decreases |menus|
  {
    if menus != [] {
      var n := |menus| - 1;
      var init := menus[..n];
      PassesKeysFromMenus(site, lists, init);
      MenuPassNewKeys(site, lists, menus[n], Passes(site, lists, init));
      assert forall k :: 0 <= k < n ==> init[k] == menus[k];
    }
  }

  /** After the whole loop: `Recorded`, and every key is a page of some menu. */
  lemma PassesRecorded(site: Site, lists: PageLists, menus: seq<seq<string>>)
    ensures Recorded(site, lists, Passes(site, lists, menus))
    ensures forall p :: p in Passes(site, lists, menus).fileDetails ==> exists k :: 0 <= k < |menus| && p in menus[k]
    ensures forall p :: p in Passes(site, lists, menus).loadMore ==> exists k :: 0 <= k < |menus| && p in menus[k]
  {
    PassesKeepRecorded(site, lists, menus);
    PassesKeysFromMenus(site, lists, menus);
  }

  /**
   * A page reached before any page that halts gets its key: a load-more page
   * in `file_details_dict`, a normal page with links in `load_more_dict`.
   */
  lemma {:induction false} MenuPassReaches(site: Site, lists: PageLists, pages: seq<string>, st: DetailLinks, j: nat)
    requires j < |pages|
    requires forall i :: 0 <= i < j ==> !Halts(site, lists, pages[i])
    ensures Classify(lists, pages[j]) == LoadMoreButton ==> pages[j] in MenuPass(site, lists, pages, st).fileDetails
    ensures Classify(lists, pages[j]) == Normal && !Halts(site, lists, pages[j]) ==> pages[j] in MenuPass(site, lists, pages, st).loadMore
    decreases |pages|
  {
    var p := pages[0];
    var rest := pages[1..];
    var next := match Classify(lists, p)
      case LoadMoreButton => DetailLinks(st.fileDetails[p := Harvest(site(LoadMoreQuery, p))], st.loadMore, st.fetched + [p])
      case Skip => st
      case Normal => DetailLinks(st.fileDetails, st.loadMore[p := Harvest(site(MoreQuery, p))], st.fetched + [p]);
    if j == 0 {
      if !Halts(site, lists, p) && Classify(lists, p) != Skip {
        KeysKept(site, lists, rest, next);
      }
    } else {
      assert !Halts(site, lists, p);
      assert forall i :: 0 <= i < j - 1 ==> rest[i] == pages[i + 1];
      MenuPassReaches(site, lists, rest, next, j - 1);
    }
  }

  /** A pass never removes a key. */
  lemma {:induction false} KeysKept(site: Site, lists: PageLists, pages: seq<string>, st: DetailLinks)
    ensures st.fileDetails.Keys <= MenuPass(site, lists, pages, st).fileDetails.Keys
    ensures st.loadMore.Keys <= MenuPass(site, lists, pages, st).loadMore.Keys
    decreases |pages|
  {
    if pages != [] {
      var p := pages[0];
      match Classify(lists, p)
      case LoadMoreButton =>
        KeysKept(site, lists, pages[1..], DetailLinks(st.fileDetails[p := Harvest(site(LoadMoreQuery, p))], st.loadMore, st.fetched + [p]));
      case Skip =>
        KeysKept(site, lists, pages[1..], st);
      case Normal =>
        var moreUrls := Harvest(site(MoreQuery, p));
        if moreUrls != {} {
          KeysKept(site, lists, pages[1..], DetailLinks(st.fileDetails, st.loadMore[p := moreUrls], st.fetched + [p]));
        }
    }
  }

  /** The `break`: once a page halts, the pages after it in the same menu are never looked at. */
  lemma {:induction false} HaltAbandonsMenu(site: Site, lists: PageLists, pages: seq<string>, rest: seq<string>, st: DetailLinks)
    requires pages != [] && Halts(site, lists, pages[|pages| - 1])
    ensures MenuPass(site, lists, pages + rest, st) == MenuPass(site, lists, pages, st)
    decreases |pages|
  {
    var p := pages[0];
    assert (pages + rest)[0] == p;
    if |pages| == 1 {
      assert Halts(site, lists, p);
    } else {
      assert (pages + rest)[1..] == pages[1..] + rest;
      var next := match Classify(lists, p)
        case LoadMoreButton => DetailLinks(st.fileDetails[p := Harvest(site(LoadMoreQuery, p))], st.loadMore, st.fetched + [p])
        case Skip => st
        case Normal => DetailLinks(st.fileDetails, st.loadMore[p := Harvest(site(MoreQuery, p))], st.fetched + [p]);
      HaltAbandonsMenu(site, lists, pages[1..], rest, next);
    }
  }

  /** One page of the inner loop, by its handling. */
  lemma PassStep(site: Site, lists: PageLists, pages: seq<string>, j: nat, st: DetailLinks)
    requires j < |pages|
    ensures var p := pages[j];
      Classify(lists, p) == LoadMoreButton ==>
        MenuPass(site, lists, pages[j..], st)
          == MenuPass(site, lists, pages[j + 1..], DetailLinks(st.fileDetails[p := Harvest(site(LoadMoreQuery, p))], st.loadMore, st.fetched + [p]))
    ensures Classify(lists, pages[j]) == Skip ==> MenuPass(site, lists, pages[j..], st) == MenuPass(site, lists, pages[j + 1..], st)
    ensures var p := pages[j]; var moreUrls := Harvest(site(MoreQuery, p));
      Classify(lists, p) == Normal ==>
        MenuPass(site, lists, pages[j..], st)
          == if moreUrls == {} then DetailLinks(st.fileDetails, st.loadMore, st.fetched + [p])
             else MenuPass(site, lists, pages[j + 1..], DetailLinks(st.fileDetails, st.loadMore[p := moreUrls], st.fetched + [p]))
  {
    assert pages[j..][0] == pages[j] && pages[j..][1..] == pages[j + 1..];
  }

  /** kenya_final.py:256-396: the inner loop, over the pages of one menu. */
  method PassMenu(site: Site, lists: PageLists, pageUrls: seq<string>, st: DetailLinks) returns (next: DetailLinks)
    ensures next == MenuPass(site, lists, pageUrls, st)
  {
    var fileDetailsDict, loadMoreDict, fetched := st.fileDetails, st.loadMore, st.fetched;
    for j := 0 to |pageUrls|
      invariant MenuPass(site, lists, pageUrls, st) == MenuPass(site, lists, pageUrls[j..], DetailLinks(fileDetailsDict, loadMoreDict, fetched))
    {
      PassStep(site, lists, pageUrls, j, DetailLinks(fileDetailsDict, loadMoreDict, fetched));
      var pageUrl := pageUrls[j];
      var handling := Classify(lists, pageUrl);
      if handling == LoadMoreButton {
        var results := site(LoadMoreQuery, pageUrl);
        fetched := fetched + [pageUrl];
        var fileDetails, _ := ScanUrls(results, {});
        assert fileDetails == Harvest(results);
        fileDetailsDict := fileDetailsDict[pageUrl := fileDetails];
      } else if handling == Skip {
        continue;
      } else {
        var results := site(MoreQuery, pageUrl);
        fetched := fetched + [pageUrl];
        var moreUrls, extractedAny := ScanUrls(results, {});
        assert moreUrls == Harvest(results) && (extractedAny <==> moreUrls != {});
        if !extractedAny {
          break;
        }
        loadMoreDict := loadMoreDict[pageUrl := moreUrls];
      }
    }
    next := DetailLinks(fileDetailsDict, loadMoreDict, fetched);
  }

  /**
   * kenya_final.py:254-396: the "more" loop over the page lists of every
   * menu, in `page_links_dict` order.
   */
  method CollectMoreLinks(site: Site, menus: seq<seq<string>>)
    returns (fileDetailsDict: map<string, set<string>>, loadMoreDict: map<string, set<string>>, fetched: seq<string>)
    ensures DetailLinks(fileDetailsDict, loadMoreDict, fetched) == Passes(site, KnbsLists, menus)
  {
    var st := DetailLinks(map[], map[], []);
    for i := 0 to |menus|
      invariant st == Passes(site, KnbsLists, menus[..i])
    {
      assert menus[..i + 1][..i] == menus[..i];
      st := PassMenu(site, KnbsLists, menus[i], st);
    }
    assert menus[..|menus|] == menus;
    fileDetailsDict, loadMoreDict, fetched := st.fileDetails, st.loadMore, st.fetched;
  }

  // ---------------------------------------------------------------- merge

  /** `d.get(k, [])`. */
  function Lookup(d: map<string, seq<string>>, k: string): seq<string> {
    if k in d then d[k] else []
  }

  /** `merged.setdefault(key, []).extend(value)` for every entry of `data`, in any order. */
  method ExtendAll(merged: map<string, seq<string>>, data: map<string, seq<string>>) returns (result: map<string, seq<string>>)
    ensures result.Keys == merged.Keys + data.Keys
    ensures forall k :: k in result ==> result[k] == Lookup(merged, k) + Lookup(data, k)
  {
    result := merged;
    var todo := data.Keys;
    ghost var done: set<string> := {};
    while todo != {}
      invariant todo !! done && todo + done == data.Keys
      invariant result.Keys == merged.Keys + done
      invariant forall k :: k in result ==> result[k] == Lookup(merged, k) + (if k in done then data[k] else [])
      decreases todo
    {
      var key :| key in todo;
      assert key !in done && Lookup(result, key) == Lookup(merged, key);
      result := result[key := Lookup(result, key) + data[key]];
      todo, done := todo - {key}, done + {key};
    }
  }

  /**
   * kenya_final.py:415-423: `merged` built from `data1`, then `data2`: every
   * key of either, mapped to its `data1` list followed by its `data2` list.
   */
  method MergeLinks(data1: map<string, seq<string>>, data2: map<string, seq<string>>) returns (merged: map<string, seq<string>>)
    ensures merged.Keys == data1.Keys + data2.Keys
    ensures forall k :: k in merged ==> merged[k] == Lookup(data1, k) + Lookup(data2, k)
  {
    merged := ExtendAll(map[], data1);
    assert forall k :: k in merged ==> merged[k] == Lookup(data1, k);
    merged := ExtendAll(merged, data2);
  }

  /**
   * kenya_final.py:434-439: every value list of `data` extended into
   * `all_urls`, then `list(set(all_urls))`: each URL of any list, once.
   */
  method UniqueUrls(data: map<string, seq<string>>) returns (uniqueUrls: seq<string>)
    ensures Distinct(uniqueUrls)
    ensures forall u :: u in uniqueUrls <==> exists k :: k in data && u in data[k]
  {
    var allUrls: seq<string> := [];
    var todo := data.Keys;
    while todo != {}
      invariant todo <= data.Keys
      invariant forall u :: u in allUrls <==> exists k :: k in data && k !in todo && u in data[k]
      decreases todo
    {
      var key :| key in todo;
      allUrls := allUrls + data[key];
      todo := todo - {key};
    }
    uniqueUrls := ListOfSet(Elements(allUrls));
    forall u
      ensures u in uniqueUrls <==> exists k :: k in data && u in data[k]
    {
      assert u in uniqueUrls <==> u in Elements(uniqueUrls);
      assert u in allUrls <==> exists k :: k in data && k !in todo && u in data[k];
    }
  }

  // -------------------------------------------------------------- reports

  /** One entry of `all_reports` (kenya_final.py:518-528). */
  datatype Report = Report(
    mainReportTitle: string,
    mainCategory: string,
    subCategory: string,
    postMonth: string,
    postYear: string,
    overview: string,
    mainReportUrl: string,
    pdfFiles: seq<string>,
    xlsxFiles: seq<string>)

  /** `[link for link in xs if link != x]`. */
  function RemoveAll(xs: seq<string>, x: string): (r: seq<string>)
    ensures |r| <= |xs|
    ensures forall y :: y in r <==> y in xs && y != x
  {
    if xs == [] then []
    else (if xs[0] != x then [xs[0]] else []) + RemoveAll(xs[1..], x)
  }

  /** Removal keeps the order of what stays: it distributes over concatenation. */
  lemma {:induction false} RemoveAllAppend(a: seq<string>, b: seq<string>, x: string)
    ensures RemoveAll(a + b, x) == RemoveAll(a, x) + RemoveAll(b, x)
    decreases |a|
  {
    if a != [] {
      assert (a + b)[0] == a[0] && (a + b)[1..] == a[1..] + b;
      RemoveAllAppend(a[1..], b, x);
    } else {
      assert a + b == b;
    }
  }

  /** Nothing to remove leaves the list as it was. */
  lemma {:induction false} RemoveAllAbsent(xs: seq<string>, x: string)
    requires x !in xs
    ensures RemoveAll(xs, x) == xs
    decreases |xs|
  {
    if xs != [] {
      RemoveAllAbsent(xs[1..], x);
    }
  }

  /** A report built from one `more_details` item and the page's link lists. */
  function ReportOf(item: Record, pdfFiles: seq<string>, xlsxFiles: seq<string>): Report {
    var mainUrl := Get(item, "main_report_url");
    Report(Get(item, "main_report_title"), Get(item, "main_category"), Get(item, "sub_category"),
           Get(item, "post_month"), Get(item, "post_year"), Get(item, "overview"),
           mainUrl, RemoveAll(pdfFiles, mainUrl), xlsxFiles)
  }

  function ReportsFrom(items: seq<Record>, pdfFiles: seq<string>, xlsxFiles: seq<string>): seq<Report> {
    seq(|items|, k requires 0 <= k < |items| => ReportOf(items[k], pdfFiles, xlsxFiles))
  }

  /** The `pdf_files` of a report page: its non-empty `pdf` links, each once, in first-seen order. */
  function PdfFiles(site: Site, url: string): seq<string> {
    FirstSeen(Values(SuccessItems(site(PdfQuery, url)), "pdf"))
  }

  /** The `xlsx_files` of a report page. */
  function XlsxFiles(site: Site, url: string): seq<string> {
    FirstSeen(Values(SuccessItems(site(XlsxQuery, url)), "xlsx"))
  }

  /** The reports of one page: one per `more_details` item. */
  function PageReports(site: Site, url: string): seq<Report> {
    ReportsFrom(SuccessItems(site(DetailsQuery, url)), PdfFiles(site, url), XlsxFiles(site, url))
  }

  /** `all_reports` after the given pages. */
  function AllReports(site: Site, urls: seq<string>): seq<Report> {
    if urls == [] then []
    else AllReports(site, urls[..|urls| - 1]) + PageReports(site, urls[|urls| - 1])
  }

  lemma {:induction false} RemoveAllDistinct(xs: seq<string>, x: string)
    requires Distinct(xs)
    ensures Distinct(RemoveAll(xs, x))
    decreases |xs|
  {
    if xs != [] {
      RemoveAllDistinct(xs[1..], x);
      var r := RemoveAll(xs[1..], x);
      assert xs[0] !in xs[1..];
      assert xs[0] !in r;
    }
  }

  /**
   * What each report of a page holds: the item's main report URL; the page's
   * pdf links without it, in their order, each once and none empty; and the
   * page's xlsx links, each once and none empty.
   */
  lemma PageReportsShape(site: Site, url: string)
    ensures var details := SuccessItems(site(DetailsQuery, url));
      |PageReports(site, url)| == |details|
      && forall k :: 0 <= k < |details| ==>
           var r := PageReports(site, url)[k];
           && r.mainReportUrl == Get(details[k], "main_report_url")
           && r.pdfFiles == RemoveAll(PdfFiles(site, url), r.mainReportUrl)
           && r.mainReportUrl !in r.pdfFiles
           && Distinct(r.pdfFiles) && "" !in r.pdfFiles
           && r.xlsxFiles == XlsxFiles(site, url) && Distinct(r.xlsxFiles) && "" !in r.xlsxFiles
  {
    var pdfs := PdfFiles(site, url);
    FirstSeenDistinct(Values(SuccessItems(site(PdfQuery, url)), "pdf"));
    FirstSeenElements(Values(SuccessItems(site(PdfQuery, url)), "pdf"));
    FirstSeenDistinct(Values(SuccessItems(site(XlsxQuery, url)), "xlsx"));
    FirstSeenElements(Values(SuccessItems(site(XlsxQuery, url)), "xlsx"));
    forall x | true
      ensures Distinct(RemoveAll(pdfs, x))
    {
      RemoveAllDistinct(pdfs, x);
    }
  }

  /** kenya_final.py:454-529: the reports of every URL, in order. */
  method ExtractReports(site: Site, urls: seq<string>) returns (allReports: seq<Report>)
    ensures allReports == AllReports(site, urls)
  {
    allReports := [];
    for i := 0 to |urls|
      invariant allReports == AllReports(site, urls[..i])
    {
      var url := urls[i];
      assert urls[..i + 1][..i] == urls[..i] && urls[..i + 1][i] == url;
      var pdfFiles := CollectFirstSeen(site(PdfQuery, url), "pdf");
      var xlsxFiles := CollectFirstSeen(site(XlsxQuery, url), "xlsx");
      var reports := ReportsOfPage(site(DetailsQuery, url), pdfFiles, xlsxFiles);
      allReports := allReports + reports;
    }
    assert urls[..|urls|] == urls;
  }

  /** kenya_final.py:503-529: one report per item of the details fetch. */
  method ReportsOfPage(results: seq<CrawlResult>, pdfFiles: seq<string>, xlsxFiles: seq<string>) returns (reports: seq<Report>)
    ensures reports == ReportsFrom(SuccessItems(results), pdfFiles, xlsxFiles)
  {
    reports := [];
    for i := 0 to |results|
      invariant reports == ReportsFrom(SuccessItems(results[..i]), pdfFiles, xlsxFiles)
    {
      SuccessItemsStep(results, i);
      if results[i].success {
        var items := Items(results[i]);
        ghost var before := SuccessItems(results[..i]);
        assert before + items[..0] == before;
        for j := 0 to |items|
          invariant reports == ReportsFrom(before + items[..j], pdfFiles, xlsxFiles)
        {
          PrefixStep(before, items, j);
          var mainUrl := Get(items[j], "main_report_url");
          var pdfFilesCleaned := RemoveAll(pdfFiles, mainUrl);
          var report := Report(Get(items[j], "main_report_title"), Get(items[j], "main_category"),
                               Get(items[j], "sub_category"), Get(items[j], "post_month"),
                               Get(items[j], "post_year"), Get(items[j], "overview"),
                               mainUrl, pdfFilesCleaned, xlsxFiles);
          reports := reports + [report];
        }
        assert items[..|items|] == items;
      }
    }
    SuccessItemsAll(results);
  }

  // --------------------------------------------------------- download list

  /** The URLs one report contributes to `urls`: its main report URL when non-empty, then its pdf and xlsx files. */
  function ReportUrls(r: Report): seq<string> {
    (if r.mainReportUrl != "" then [r.mainReportUrl] else []) + r.pdfFiles + r.xlsxFiles
  }

  function CollectedUrls(reports: seq<Report>): seq<string> {
    if reports == [] then []
    else CollectedUrls(reports[..|reports| - 1]) + ReportUrls(reports[|reports| - 1])
  }

  lemma {:induction false} CollectedUrlsMembers(reports: seq<Report>)
    ensures forall u :: u in CollectedUrls(reports) <==>
      exists k :: 0 <= k < |reports| &&
        ((u == reports[k].mainReportUrl && u != "") || u in reports[k].pdfFiles || u in reports[k].xlsxFiles)
    decreases |reports|
  {
    if reports != [] {
      var init := reports[..|reports| - 1];
      CollectedUrlsMembers(init);
      assert forall k :: 0 <= k < |init| ==> init[k] == reports[k];
    }
  }

  /**
   * kenya_final.py:540-553: the lines of `urls.txt`: every non-empty main
   * report URL and every pdf and xlsx file of the reports, each once, sorted.
   */
  method CollectDownloadUrls(reports: seq<Report>) returns (sortedUrls: seq<string>)
    ensures StrictlySorted(sortedUrls)
    ensures forall u :: u in sortedUrls <==>
      exists k :: 0 <= k < |reports| &&
        ((u == reports[k].mainReportUrl && u != "") || u in reports[k].pdfFiles || u in reports[k].xlsxFiles)
  {
    var urls: seq<string> := [];
    for i := 0 to |reports|
      invariant urls == CollectedUrls(reports[..i])
    {
      assert reports[..i + 1][..i] == reports[..i];
      var entry := reports[i];
      if entry.mainReportUrl != "" {
        urls := urls + [entry.mainReportUrl];
      }
      urls := urls + entry.pdfFiles;
      urls := urls + entry.xlsxFiles;
    }
    assert reports[..|reports|] == reports;
    CollectedUrlsMembers(reports);
    sortedUrls := SortedUnique(urls);
  }

  // ------------------------------------------------------------ downloads

  /**
   * kenya_final.py:559-585: the download of every line of `urls.txt`. The
   * manifest `failed_downloads.txt` (None: absent) is rewritten only when
   * something failed; otherwise the one a previous run left stays.
   */
  method DownloadFiles(urls: seq<string>, download: string -> Response, folder: Folder, manifest: Option<string>)
    returns (files: Folder, failed: seq<string>, newManifest: Option<string>)
    ensures failed == Failures(urls, download)
    ensures files == Written(folder, urls, download)
    ensures newManifest == if failed != [] then Some(WriteLines(failed)) else manifest
  {
    files, failed := DownloadAll(urls, download, folder);
    if failed != [] {
      newManifest := Some(WriteLines(failed));
    } else {
      newManifest := manifest;
    }
  }

  /** Clean URLs written one per line read back as the same list. */
  lemma UrlsFileReadsBack(urls: seq<string>)
    requires forall k :: 0 <= k < |urls| ==> Clean(urls[k])
    ensures ReadLines(WriteLines(urls)) == urls
  {
    ReadWritten(urls);
    CleanedKeeps(urls);
  }

  /**
   * kenya_final.py:551-585: the sorted URLs are written to `urls.txt`, which
   * is read back, stripped and without blank lines, and handed to the
   * downloader. When every URL is clean the downloader gets exactly the
   * sorted list; otherwise it gets the list's stripped, non-blank lines.
   */
  method SaveAndDownload(sortedUrls: seq<string>, download: string -> Response, folder: Folder, manifest: Option<string>)
    returns (urlsTxt: string, files: Folder, failed: seq<string>, newManifest: Option<string>)
    ensures urlsTxt == WriteLines(sortedUrls)
    ensures failed == Failures(ReadLines(urlsTxt), download) && files == Written(folder, ReadLines(urlsTxt), download)
    ensures newManifest == if failed != [] then Some(WriteLines(failed)) else manifest
    ensures (forall k :: 0 <= k < |sortedUrls| ==> NoBreaks(sortedUrls[k])) ==>
      failed == Failures(Cleaned(sortedUrls), download) && files == Written(folder, Cleaned(sortedUrls), download)
    ensures (forall k :: 0 <= k < |sortedUrls| ==> Clean(sortedUrls[k])) ==>
      failed == Failures(sortedUrls, download) && files == Written(folder, sortedUrls, download)
  {
    urlsTxt := WriteLines(sortedUrls);
    var urls := ReadLines(urlsTxt);
    files, failed, newManifest := DownloadFiles(urls, download, folder, manifest);
    if forall k :: 0 <= k < |sortedUrls| ==> NoBreaks(sortedUrls[k]) {
      ReadWritten(sortedUrls);
    }
    if forall k :: 0 <= k < |sortedUrls| ==> Clean(sortedUrls[k]) {
      UrlsFileReadsBack(sortedUrls);
    }
  }
}
