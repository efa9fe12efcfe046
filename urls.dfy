/**
 * The URL normaliser both site scripts define as `ensure_base_url`
 * (kenya_final.py and namibia.py hold identical copies, each closing over
 * its own `base_url`), and the menu-link collection built on it.
 */
module Urls {
  import opened Text
  import opened Crawl

  predicate IsAbsolute(url: string) {
    StartsWith(url, "http://") || StartsWith(url, "https://")
  }

  /**
   * `ensure_base_url(url)`: an absolute URL passes through unchanged; any
   * other is appended to `base` after dropping one leading "./" or, failing
   * that, one leading "/".
   */
  function EnsureBaseUrl(base: string, url: string): string {
    if IsAbsolute(url) then url
    else if StartsWith(url, "./") then base + url[2..]
    else if StartsWith(url, "/") then base + url[1..]
    else base + url
  }

  /** What the normaliser returns, case by case. */
  lemma EnsureBaseUrlResult(base: string, url: string)
    ensures var r := EnsureBaseUrl(base, url);
      && (IsAbsolute(url) ==> r == url)
      && (!IsAbsolute(url) ==>
        && StartsWith(r, base)
        && (StartsWith(url, "./") ==> "./" + r[|base|..] == url)
        && (!StartsWith(url, "./") && StartsWith(url, "/") ==> "/" + r[|base|..] == url)
        && (!StartsWith(url, "./") && !StartsWith(url, "/") ==> r[|base|..] == url))
  {
    var r := EnsureBaseUrl(base, url);
    if !IsAbsolute(url) {
      if StartsWith(url, "./") {
        assert url == "./" + url[2..];
      } else if StartsWith(url, "/") {
        assert url == "/" + url[1..];
      }
      assert r[|base|..] == r[|base|..];
    }
  }

  /** Normalising twice is normalising once, provided the base is itself absolute. */
  lemma EnsureBaseUrlIdempotent(base: string, url: string)
    requires IsAbsolute(base)
    ensures EnsureBaseUrl(base, EnsureBaseUrl(base, url)) == EnsureBaseUrl(base, url)
  {
    var r := EnsureBaseUrl(base, url);
    if !IsAbsolute(url) {
      assert r == base + r[|base|..];
      if StartsWith(base, "http://") {
        PrefixOfLonger(base, r[|base|..], "http://");
      } else {
        PrefixOfLonger(base, r[|base|..], "https://");
      }
    }
  }

  /** Only one prefix is dropped: the branches are exclusive, so ".//a" keeps its second '/'. */
  lemma OnePrefixDropped(base: string)
    ensures EnsureBaseUrl(base, ".//a") == base + "/a"
    ensures EnsureBaseUrl(base, "//a") == base + "/a"
    ensures EnsureBaseUrl(base, "") == base
  {
    assert StartsWith(".//a", "./");
    assert !StartsWith("//a", "./") by { assert "//a"[..2][0] == '/'; }
    assert StartsWith("//a", "/");
  }

  /**
   * The set the menu loops build: each item's normalised `url` (an absent
   * `url` normalises to `base` itself), except the self-anchor `base + "#"`.
   */
  function MenuLinks(base: string, items: seq<Record>): set<string> {
    if items == [] then {}
    else
      var u := EnsureBaseUrl(base, Get(items[|items| - 1], "url"));
      MenuLinks(base, items[..|items| - 1]) + (if u != base + "#" then {u} else {})
  }

  lemma MenuLinksStep(base: string, items: seq<Record>, x: Record)
    ensures MenuLinks(base, items + [x]) ==
      var u := EnsureBaseUrl(base, Get(x, "url"));
      MenuLinks(base, items) + (if u != base + "#" then {u} else {})
  {
    assert (items + [x])[..|items|] == items;
  }

  /** Each item's normalised `url`, in order. */
  function Normalised(base: string, items: seq<Record>): seq<string> {
    seq(|items|, k requires 0 <= k < |items| => EnsureBaseUrl(base, Get(items[k], "url")))
  }

  lemma {:induction false} MenuLinksElements(base: string, items: seq<Record>)
    ensures MenuLinks(base, items) == Elements(Normalised(base, items)) - {base + "#"}
    decreases |items|
  {
    if items != [] {
      var init, x := items[..|items| - 1], items[|items| - 1];
      var ns := Normalised(base, items);
      MenuLinksElements(base, init);
      MenuLinksStep(base, init, x);
      assert items == init + [x];
      assert ns[..|init|] == Normalised(base, init);
      ElementsStep(ns, |init|);
    }
  }

  lemma MenuLinksMembers(base: string, items: seq<Record>)
    ensures forall u :: u in MenuLinks(base, items) <==>
      u != base + "#" && exists k :: 0 <= k < |items| && EnsureBaseUrl(base, Get(items[k], "url")) == u
  {
    var ns := Normalised(base, items);
    MenuLinksElements(base, items);
    forall u
      ensures u in MenuLinks(base, items) <==>
        u != base + "#" && exists k :: 0 <= k < |items| && EnsureBaseUrl(base, Get(items[k], "url")) == u
    {
      if u in ns {
        var k :| 0 <= k < |ns| && ns[k] == u;
        assert EnsureBaseUrl(base, Get(items[k], "url")) == u;
      }
      if exists k :: 0 <= k < |items| && EnsureBaseUrl(base, Get(items[k], "url")) == u {
        var k :| 0 <= k < |items| && EnsureBaseUrl(base, Get(items[k], "url")) == u;
        assert ns[k] == u;
      }
    }
  }

  /** An item without a `url` contributes `base` itself and is kept. */
  lemma MenuLinksKeepBase(base: string, items: seq<Record>, k: nat)
    requires k < |items| && Get(items[k], "url") == ""
    ensures base in MenuLinks(base, items)
  {
    MenuLinksMembers(base, items);
    assert EnsureBaseUrl(base, Get(items[k], "url")) == base;
    assert base != base + "#" by { assert |base| != |base + "#"|; }
  }

  /** The inner loop over the items of one result. */
  method CollectItemMenus(base: string, items: seq<Record>, ghost before: seq<Record>, menus0: set<string>)
    returns (menus: set<string>)
    requires menus0 == MenuLinks(base, before)
    ensures menus == MenuLinks(base, before + items)
  {
    menus := menus0;
    assert before + items[..0] == before;
    for j := 0 to |items|
      invariant menus == MenuLinks(base, before + items[..j])
    {
      var menuUrl := EnsureBaseUrl(base, Get(items[j], "url"));
      if menuUrl != base + "#" {
        menus := menus + {menuUrl};
      }
      PrefixStep(before, items, j);
      MenuLinksStep(base, before + items[..j], items[j]);
    }
    assert items[..|items|] == items;
  }

  /**
   * kenya_final.py:163-170 and namibia.py:397-404: the loop over the results
   * of fetching the home page that collects the menu links.
   */
  method CollectMenus(base: string, results: seq<CrawlResult>) returns (menus: set<string>)
    ensures menus == MenuLinks(base, SuccessItems(results))
  {
    menus := {};
    for i := 0 to |results|
      invariant menus == MenuLinks(base, SuccessItems(results[..i]))
    {
      SuccessItemsStep(results, i);
      if results[i].success {
        menus := CollectItemMenus(base, Items(results[i]), SuccessItems(results[..i]), menus);
      }
    }
    SuccessItemsAll(results);
  }
}
