/**
 * The bookkeeping of the NSA crawl (Namibia/namibia.py) between its crawler
 * calls: nav-menu dedup, document lists, the DOCUMENTS lookup, the folder
 * dictionary, census titles, the merged document list, the unique-link list
 * and the batch download.
 *
 * Documents are records (`Record`, maps from field name to string), as the
 * script keeps them, so that the merged list can be searched by field.
 */
module Namibia {
  import opened Wrappers
  import opened Text
  import opened TextFiles
  import opened Crawl
  import opened Urls
  import opened Downloads

  const BaseUrl: string := "https://nsa.org.na/"
  const PubUrl: string := "https://nsa.org.na/publications/"
  const CensusUrl: string := "https://nsa.org.na/census/"
  const NssUrl: string := "https://nsa.org.na/nss/"
  const NsdiUrl: string := "https://nsa.org.na/nsdi/"
  const CensusMainTitle: string := "Census 2023 Products"

  /** The extraction a crawler call runs (one per schema and configuration). */
  datatype Query =
    | NavQuery                        // `nss_nsdi_nav_schema`
    | HomeFileQuery                   // `nss_homefile_schema`
    | DocsQuery                       // `nss_nsdi_docs_schema`
    | MenuQuery                       // `menu_links_schema`
    | FolderQuery                     // `pub_folder_schema`
    | PubDocsQuery(categoryId: string) // `pub_docs_schema`, after opening one folder
    | CensusMainQuery                 // `census_main_report_schema`
    | CensusDocsQuery                 // `census_docs_schema`

  /** The crawler: the results of fetching a page with a query; fixed for the run. */
  type Site = (Query, string) -> seq<CrawlResult>

  /** A stripped field of an extracted item: `item.get(key, "").strip()`. */
  function Field(item: Record, key: string): string {
    Strip(Get(item, key))
  }

  // ------------------------------------------------------------ nav menus

  /** An item with a non-empty stripped name and URL; the others are skipped. */
  predicate ValidNav(item: Record) {
    Field(item, "menu_name") != "" && Field(item, "url") != ""
  }

  /** What an item offers the dedup: its stripped (name, URL) when it is valid, ("", "") (nothing) otherwise. */
  function Offer(item: Record): (string, string) {
    if ValidNav(item) then (Field(item, "menu_name"), Field(item, "url")) else ("", "")
  }

  function Offers(items: seq<Record>): seq<(string, string)> {
    seq(|items|, k requires 0 <= k < |items| => Offer(items[k]))
  }

  /** The names of pairs; of the kept pairs, `nss_menu_names` as a list. */
  function Names(pairs: seq<(string, string)>): seq<string> {
    seq(|pairs|, k requires 0 <= k < |pairs| => pairs[k].0)
  }

  /** The name each item offers: its stripped name when it is valid, "" otherwise. */
  function NavNames(items: seq<Record>): seq<string> {
    Names(Offers(items))
  }

  /** The offers kept: the first of each non-empty name. An empty offer does not mark a name as seen. */
  function KeepFirst(offers: seq<(string, string)>): seq<(string, string)> {
    if offers == [] then []
    else
      var prev := KeepFirst(offers[..|offers| - 1]);
      var o := offers[|offers| - 1];
      if o.0 != "" && o.0 !in Names(prev) then prev + [o] else prev
  }

  /** The (name, URL) pairs kept from the items: the first valid item of each name. */
  function NavPairs(items: seq<Record>): seq<(string, string)> {
    KeepFirst(Offers(items))
  }

  /** One single-key map `{name: url}` per pair. */
  function Singletons(pairs: seq<(string, string)>): seq<Record> {
    seq(|pairs|, k requires 0 <= k < |pairs| => map[pairs[k].0 := pairs[k].1])
  }

  /** `nss_nav_links` (or `nsdi_nav_links`). */
  function NavLinks(items: seq<Record>): seq<Record> {
    Singletons(NavPairs(items))
  }

  lemma KeepFirstAppend(offers: seq<(string, string)>, o: (string, string))
    ensures KeepFirst(offers + [o]) ==
      var prev := KeepFirst(offers); if o.0 != "" && o.0 !in Names(prev) then prev + [o] else prev
  {
    assert (offers + [o])[..|offers|] == offers;
  }

  lemma NavPairsAppend(items: seq<Record>, x: Record)
    ensures NavPairs(items + [x]) ==
      var prev := NavPairs(items);
      if ValidNav(x) && Field(x, "menu_name") !in Names(prev)
      then prev + [(Field(x, "menu_name"), Field(x, "url"))]
      else prev
  {
    assert Offers(items + [x]) == Offers(items) + [Offer(x)];
    KeepFirstAppend(Offers(items), Offer(x));
  }

  lemma PairsAppend(pairs: seq<(string, string)>, p: (string, string))
    ensures Names(pairs + [p]) == Names(pairs) + [p.0]
    ensures Singletons(pairs + [p]) == Singletons(pairs) + [map[p.0 := p.1]]
    ensures Elements(Names(pairs + [p])) == Elements(Names(pairs)) + {p.0}
  {
    assert Names(pairs + [p]) == Names(pairs) + [p.0];
  }

  /** The kept names are the first-seen list of the offered names. */
  lemma {:induction false} KeepFirstNames(offers: seq<(string, string)>)
    ensures Names(KeepFirst(offers)) == FirstSeen(Names(offers))
    decreases |offers|
  {
    if offers != [] {
      var init, o := offers[..|offers| - 1], offers[|offers| - 1];
      KeepFirstNames(init);
      assert offers == init + [o];
      PairsAppend(init, o);
      FirstSeenAppend(Names(init), o.0);
      KeepFirstAppend(init, o);
      PairsAppend(KeepFirst(init), o);
    }
  }

  /** A name not kept from `init` was not offered in `init`. */
  lemma NotKeptNotOffered(init: seq<(string, string)>, n: string)
    requires n != "" && n !in Names(KeepFirst(init))
    ensures n !in Names(init)
  {
    KeepFirstNames(init);
    FirstSeenElements(Names(init));
  }

  /** An offer kept after `init` is the first with its name. */
  lemma KeptLastIsFirst(init: seq<(string, string)>, o: (string, string))
    requires o.0 != "" && o.0 !in Names(KeepFirst(init))
    ensures o.0 in Names(init + [o]) && FirstIndex(Names(init + [o]), o.0) == |init|
  {
    NotKeptNotOffered(init, o.0);
    PairsAppend(init, o);
    FirstIndexAppend(Names(init), o.0);
  }

  /** Each kept pair is the first offer with its name. */
  lemma {:induction false} KeepFirstIsFirst(offers: seq<(string, string)>)
    ensures forall k :: 0 <= k < |KeepFirst(offers)| ==>
      && KeepFirst(offers)[k].0 in Names(offers)
      && KeepFirst(offers)[k] == offers[FirstIndex(Names(offers), KeepFirst(offers)[k].0)]
    decreases |offers|
  {
    if offers != [] {
      var m := |offers| - 1;
      var init, o := offers[..m], offers[m];
      var names := Names(offers);
      KeepFirstIsFirst(init);
      KeepFirstAppend(init, o);
      assert offers == init + [o];
      PairsAppend(init, o);
      assert names[..m] == Names(init);
      forall k | 0 <= k < |KeepFirst(offers)|
        ensures KeepFirst(offers)[k].0 in names
        ensures KeepFirst(offers)[k] == offers[FirstIndex(names, KeepFirst(offers)[k].0)]
      {
        var kept := KeepFirst(offers)[k];
        if k < |KeepFirst(init)| {
          assert kept == KeepFirst(init)[k];
          FirstIndexPrefix(names, m, kept.0);
        } else {
          KeptLastIsFirst(init, o);
        }
      }
    }
  }

  /** The kept names are the first-seen list of the names the valid items offer. */
  lemma NavPairsNames(items: seq<Record>)
    ensures Names(NavPairs(items)) == FirstSeen(NavNames(items))
  {
    KeepFirstNames(Offers(items));
  }

  /** Nav dedup keeps no name twice. */
  lemma NavLinksDistinct(items: seq<Record>)
    ensures Distinct(Names(NavPairs(items)))
  {
    NavPairsNames(items);
    FirstSeenDistinct(NavNames(items));
  }

  /** The kept names are exactly the names of the valid items. */
  lemma NavLinksMembers(items: seq<Record>)
    ensures forall n :: n in Names(NavPairs(items)) <==>
      exists i :: 0 <= i < |items| && ValidNav(items[i]) && Field(items[i], "menu_name") == n
  {
    var names := NavNames(items);
    NavPairsNames(items);
    FirstSeenElements(names);
    forall n | n in Names(NavPairs(items))
      ensures exists i :: 0 <= i < |items| && ValidNav(items[i]) && Field(items[i], "menu_name") == n
    {
      var i :| 0 <= i < |names| && names[i] == n;
      assert names[i] == Offer(items[i]).0;
    }
    forall n | exists i :: 0 <= i < |items| && ValidNav(items[i]) && Field(items[i], "menu_name") == n
      ensures n in Names(NavPairs(items))
    {
      var i :| 0 <= i < |items| && ValidNav(items[i]) && Field(items[i], "menu_name") == n;
      assert names[i] == Offer(items[i]).0 == n;
    }
  }

  /** The entries are in the order in which their names first appear among the valid items. */
  lemma NavLinksOrder(items: seq<Record>)
    ensures forall k :: 0 <= k < |NavPairs(items)| ==> NavPairs(items)[k].0 in NavNames(items)
    ensures forall i, j :: 0 <= i < j < |NavPairs(items)| ==>
      FirstIndex(NavNames(items), NavPairs(items)[i].0) < FirstIndex(NavNames(items), NavPairs(items)[j].0)
  {
    var names := NavNames(items);
    var pairs := NavPairs(items);
    NavPairsNames(items);
    FirstSeenElements(names);
    FirstSeenOrder(names);
    assert forall k :: 0 <= k < |pairs| ==> pairs[k].0 == Names(pairs)[k];
  }

  /** There are as many entries as distinct names among the valid items. */
  lemma NavLinksCount(items: seq<Record>)
    ensures |NavLinks(items)| == |Elements(NavNames(items)) - {""}|
  {
    NavPairsNames(items);
    FirstSeenSize(NavNames(items));
  }

  /**
   * Each kept entry maps its name to the stripped URL of the first valid item
   * with that name.
   */
  lemma NavPairsFirst(items: seq<Record>)
    ensures forall k :: 0 <= k < |NavPairs(items)| ==>
      && NavPairs(items)[k].0 in NavNames(items)
      && NavPairs(items)[k].1 == Field(items[FirstIndex(NavNames(items), NavPairs(items)[k].0)], "url")
  {
    var offers := Offers(items);
    var pairs := NavPairs(items);
    KeepFirstIsFirst(offers);
    KeepFirstNames(offers);
    FirstSeenElements(Names(offers));
    forall k | 0 <= k < |pairs|
      ensures pairs[k].0 in NavNames(items)
      ensures pairs[k].1 == Field(items[FirstIndex(NavNames(items), pairs[k].0)], "url")
    {
      var i := FirstIndex(Names(offers), pairs[k].0);
      assert Names(pairs)[k] == pairs[k].0 != "";
      assert pairs[k] == offers[i] == Offer(items[i]);
    }
  }

  /** Every kept name and URL is non-empty and already stripped (`strip()` again changes nothing). */
  lemma {:induction false} NavPairsStripped(items: seq<Record>)
    ensures forall k :: 0 <= k < |NavPairs(items)| ==>
      var (n, u) := NavPairs(items)[k]; n != "" && u != "" && Strip(n) == n && Strip(u) == u
    decreases |items|
  {
    if items != [] {
      var init, x := items[..|items| - 1], items[|items| - 1];
      NavPairsStripped(init);
      assert items == init + [x];
      NavPairsAppend(init, x);
      StripIdempotent(Get(x, "menu_name"));
      StripIdempotent(Get(x, "url"));
    }
  }

  /** The inner loop over the items of one result. */
  method DedupItems(items: seq<Record>, ghost before: seq<Record>, links0: seq<Record>, names0: set<string>)
    returns (navLinks: seq<Record>, menuNames: set<string>)
    requires links0 == NavLinks(before) && names0 == Elements(Names(NavPairs(before)))
    ensures navLinks == NavLinks(before + items) && menuNames == Elements(Names(NavPairs(before + items)))
  {
    navLinks, menuNames := links0, names0;
    ghost var pairs := NavPairs(before);
    assert before + items[..0] == before;
    for j := 0 to |items|
      invariant pairs == NavPairs(before + items[..j])
      invariant navLinks == Singletons(pairs) && menuNames == Elements(Names(pairs))
    {
      PrefixStep(before, items, j);
      NavPairsAppend(before + items[..j], items[j]);
      var menuName := Strip(Get(items[j], "menu_name"));
      var menuUrl := Strip(Get(items[j], "url"));
      if menuName == "" || menuUrl == "" {
        continue;
      }
      if menuName !in menuNames {
        PairsAppend(pairs, (menuName, menuUrl));
        menuNames := menuNames + {menuName};
        navLinks := navLinks + [map[menuName := menuUrl]];
        pairs := pairs + [(menuName, menuUrl)];
      }
    }
    assert items[..|items|] == items;
  }

  /**
   * namibia.py:172-191 (and 304-323 for NSDI): the nav-menu loop over the
   * successful results with content; returns `nss_nav_links` and
   * `nss_menu_names`.
   */
  method DedupNav(results: seq<CrawlResult>) returns (navLinks: seq<Record>, menuNames: set<string>)
    ensures navLinks == NavLinks(SuccessItems(results))
    ensures menuNames == Elements(Names(NavPairs(SuccessItems(results))))
  {
    navLinks, menuNames := [], {};
    for i := 0 to |results|
      invariant navLinks == NavLinks(SuccessItems(results[..i]))
      invariant menuNames == Elements(Names(NavPairs(SuccessItems(results[..i]))))
    {
      SuccessItemsStep(results, i);
      if results[i].success {
        navLinks, menuNames := DedupItems(Items(results[i]), SuccessItems(results[..i]), navLinks, menuNames);
      }
    }
    SuccessItemsAll(results);
  }

  // --------------------------------------------------------- document lists

  /** A home-page item with a non-empty stripped title and link. */
  predicate ValidHome(item: Record) {
    Field(item, "title") != "" && Field(item, "link") != ""
  }

  function HomeDoc(item: Record): Record {
    map["title" := Field(item, "title"), "link" := Field(item, "link")]
  }

  /** `home_docs` after the given items. */
  function HomeDocs(items: seq<Record>): seq<Record> {
    if items == [] then []
    else
      var item := items[|items| - 1];
      HomeDocs(items[..|items| - 1]) + (if ValidHome(item) then [HomeDoc(item)] else [])
  }

  lemma HomeDocsAppend(items: seq<Record>, x: Record)
    ensures HomeDocs(items + [x]) == HomeDocs(items) + (if ValidHome(x) then [HomeDoc(x)] else [])
  {
    assert (items + [x])[..|items|] == items;
  }

  /** Home documents: exactly the documents of the valid items, never more than there are items. */
  lemma {:induction false} HomeDocsKept(items: seq<Record>)
    ensures |HomeDocs(items)| <= |items|
    ensures forall d :: d in HomeDocs(items) <==> exists k :: 0 <= k < |items| && ValidHome(items[k]) && d == HomeDoc(items[k])
    decreases |items|
  {
    if items != [] {
      var init, x := items[..|items| - 1], items[|items| - 1];
      HomeDocsKept(init);
      assert items == init + [x];
      assert forall k :: 0 <= k < |init| ==> init[k] == items[k];
    }
  }

  /** The document of a valid item has exactly the two fields, both stripped and non-empty. */
  lemma HomeDocShape(item: Record)
    requires ValidHome(item)
    ensures HomeDoc(item).Keys == {"title", "link"}
    ensures HomeDoc(item)["title"] != "" && HomeDoc(item)["link"] != ""
    ensures Strip(HomeDoc(item)["title"]) == HomeDoc(item)["title"] && Strip(HomeDoc(item)["link"]) == HomeDoc(item)["link"]
  {
    StripIdempotent(Get(item, "title"));
    StripIdempotent(Get(item, "link"));
  }

  /** namibia.py:216-237: the home-page documents of the successful results. */
  method CollectHomeDocs(results: seq<CrawlResult>) returns (homeDocs: seq<Record>)
    ensures homeDocs == HomeDocs(SuccessItems(results))
  {
    homeDocs := [];
    for i := 0 to |results|
      invariant homeDocs == HomeDocs(SuccessItems(results[..i]))
    {
      SuccessItemsStep(results, i);
      if results[i].success {
        var items := Items(results[i]);
        ghost var before := SuccessItems(results[..i]);
        assert before + items[..0] == before;
        for j := 0 to |items|
          invariant homeDocs == HomeDocs(before + items[..j])
        {
          PrefixStep(before, items, j);
          HomeDocsAppend(before + items[..j], items[j]);
          var title := Strip(Get(items[j], "title"));
          var link := Strip(Get(items[j], "link"));
          if title != "" && link != "" {
            homeDocs := homeDocs + [map["title" := title, "link" := link]];
          }
        }
        assert items[..|items|] == items;
      }
    }
    SuccessItemsAll(results);
  }

  /** One row of a DOCUMENTS table: its title, date and link, stripped. */
  function TableDoc(item: Record): Record {
    map["title" := Field(item, "title"), "date" := Field(item, "date"), "link" := Field(item, "link")]
  }

  function TableDocs(items: seq<Record>): seq<Record> {
    seq(|items|, k requires 0 <= k < |items| => TableDoc(items[k]))
  }

  lemma TableDocsAppend(items: seq<Record>, x: Record)
    ensures TableDocs(items + [x]) == TableDocs(items) + [TableDoc(x)]
  {
  }

  /**
   * namibia.py:268-285 (and 359-376 for NSDI): every item of the successful
   * results becomes one document, in order, with its three fields stripped.
   */
  method CollectTableDocs(results: seq<CrawlResult>) returns (docs: seq<Record>)
    ensures docs == TableDocs(SuccessItems(results))
    ensures |docs| == |SuccessItems(results)|
    ensures forall k :: 0 <= k < |docs| ==> docs[k].Keys == {"title", "date", "link"}
  {
    docs := [];
    for i := 0 to |results|
      invariant docs == TableDocs(SuccessItems(results[..i]))
    {
      SuccessItemsStep(results, i);
      if results[i].success {
        var items := Items(results[i]);
        ghost var before := SuccessItems(results[..i]);
        assert before + items[..0] == before;
        for j := 0 to |items|
          invariant docs == TableDocs(before + items[..j])
        {
          PrefixStep(before, items, j);
          TableDocsAppend(before + items[..j], items[j]);
          docs := docs + [map["title" := Strip(Get(items[j], "title")), "date" := Strip(Get(items[j], "date")),
                              "link" := Strip(Get(items[j], "link"))]];
        }
        assert items[..|items|] == items;
      }
    }
    SuccessItemsAll(results);
  }

  /** The value of the first nav entry with the key "DOCUMENTS", if there is one. */
  function FirstDocuments(navLinks: seq<Record>): Option<string> {
    if navLinks == [] then None
    else if "DOCUMENTS" in navLinks[0] then Some(navLinks[0]["DOCUMENTS"])
    else FirstDocuments(navLinks[1..])
  }

  /** `FirstDocuments` is None exactly when no entry has the key, and otherwise the first such entry's value. */
  lemma {:induction false} FirstDocumentsFound(navLinks: seq<Record>)
    ensures FirstDocuments(navLinks).None? <==> forall k :: 0 <= k < |navLinks| ==> "DOCUMENTS" !in navLinks[k]
    ensures FirstDocuments(navLinks).Some? ==>
      exists k :: 0 <= k < |navLinks| && "DOCUMENTS" in navLinks[k]
        && navLinks[k]["DOCUMENTS"] == FirstDocuments(navLinks).value
        && forall j :: 0 <= j < k ==> "DOCUMENTS" !in navLinks[j]
    decreases |navLinks|
  {
    if navLinks != [] && "DOCUMENTS" !in navLinks[0] {
      var rest := navLinks[1..];
      FirstDocumentsFound(rest);
      assert forall k :: 0 <= k < |rest| ==> rest[k] == navLinks[k + 1];
      if FirstDocuments(rest).Some? {
        var k :| 0 <= k < |rest| && "DOCUMENTS" in rest[k]
          && rest[k]["DOCUMENTS"] == FirstDocuments(rest).value
          && forall j :: 0 <= j < k ==> "DOCUMENTS" !in rest[j];
        assert forall j :: 0 <= j < k + 1 ==> "DOCUMENTS" !in navLinks[j] by {
          forall j | 0 <= j < k + 1 ensures "DOCUMENTS" !in navLinks[j] {
            if j > 0 { assert navLinks[j] == rest[j - 1]; }
          }
        }
      } else {
        forall k | 0 <= k < |navLinks|
          ensures "DOCUMENTS" !in navLinks[k]
        {
          if k > 0 { assert navLinks[k] == rest[k - 1]; }
        }
      }
    }
  }

  /**
   * namibia.py:251-255 (and 342-346): the loop with `break` that finds
   * `documents_url`.
   */
  method FindDocumentsUrl(navLinks: seq<Record>) returns (documentsUrl: Option<string>)
    ensures documentsUrl == FirstDocuments(navLinks)
  {
    documentsUrl := None;
    for k := 0 to |navLinks|
      invariant FirstDocuments(navLinks[k..]) == FirstDocuments(navLinks)
    {
      assert navLinks[k..][1..] == navLinks[k + 1..];
      if "DOCUMENTS" in navLinks[k] {
        documentsUrl := Some(navLinks[k]["DOCUMENTS"]);
        return;
      }
    }
  }

  /**
   * namibia.py:160-285 for NSS (292-376 for NSDI): the nav menus of the
   * section page, then the documents table behind its DOCUMENTS entry; None
   * where there is no such entry and the crawler is handed `url=None`.
   */
  method CollectSectionDocs(site: Site, sectionUrl: string) returns (navLinks: seq<Record>, docs: Option<seq<Record>>)
    ensures navLinks == NavLinks(SuccessItems(site(NavQuery, sectionUrl)))
    ensures docs.None? <==> FirstDocuments(navLinks).None?
    ensures docs.Some? ==> docs.value == TableDocs(SuccessItems(site(DocsQuery, FirstDocuments(navLinks).value)))
  {
    var menuNames;
    navLinks, menuNames := DedupNav(site(NavQuery, sectionUrl));
    var documentsUrl := FindDocumentsUrl(navLinks);
    if documentsUrl.None? {
      docs := None;
    } else {
      var tableDocs := CollectTableDocs(site(DocsQuery, documentsUrl.value));
      docs := Some(tableDocs);
    }
  }

  /** namibia.py:387-404: the menu set of the home page. */
  method CollectMenuLinks(site: Site) returns (menuLinks: set<string>)
    ensures menuLinks == MenuLinks(BaseUrl, SuccessItems(site(MenuQuery, BaseUrl)))
    ensures BaseUrl + "#" !in menuLinks
  {
    menuLinks := CollectMenus(BaseUrl, site(MenuQuery, BaseUrl));
    MenuLinksMembers(BaseUrl, SuccessItems(site(MenuQuery, BaseUrl)));
  }

  // ------------------------------------------------------------ folders

  /**
   * A Python dict from strings to strings: its keys in insertion order and
   * its entries. `json.dump` and `json.load` keep both.
   */
  datatype Dict = Dict(keys: seq<string>, values: map<string, string>)

  /** The keys are listed once each, and exactly the keys are listed. */
  predicate Ordered(d: Dict) {
    Distinct(d.keys) && Elements(d.keys) == d.values.Keys
  }

  /** `d[k] = v`: a new key goes to the end; an existing one keeps its place. */
  function Assign(d: Dict, k: string, v: string): Dict {
    Dict(if k in d.values then d.keys else d.keys + [k], d.values[k := v])
  }

  /** `f.get("id")` is truthy. */
  predicate HasId(f: Record) {
    Get(f, "id") != ""
  }

  /**
   * namibia.py:431: `{f["id"]: f["name"] for f in folders if f.get("id")}`;
   * None where `f["name"]` raises `KeyError` for a folder with an id.
   */
  function FolderDict(folders: seq<Record>): Option<Dict> {
    if folders == [] then Some(Dict([], map[]))
    else
      var prev := FolderDict(folders[..|folders| - 1]);
      var f := folders[|folders| - 1];
      if !HasId(f) then prev
      else if prev.None? || "name" !in f then None
      else Some(Assign(prev.value, f["id"], f["name"]))
  }

  lemma FolderDictAppend(folders: seq<Record>, f: Record)
    ensures FolderDict(folders + [f]) ==
      var prev := FolderDict(folders);
      if !HasId(f) then prev
      else if prev.None? || "name" !in f then None
      else Some(Assign(prev.value, f["id"], f["name"]))
  {
    assert (folders + [f])[..|folders|] == folders;
  }

  /** The comprehension fails exactly when some folder with an id has no name. */
  lemma {:induction false} FolderDictFails(folders: seq<Record>)
    ensures FolderDict(folders).None? <==> exists k :: 0 <= k < |folders| && HasId(folders[k]) && "name" !in folders[k]
    decreases |folders|
  {
    if folders != [] {
      var init, f := folders[..|folders| - 1], folders[|folders| - 1];
      FolderDictFails(init);
      assert folders == init + [f];
      if exists k :: 0 <= k < |init| && HasId(init[k]) && "name" !in init[k] {
        var k :| 0 <= k < |init| && HasId(init[k]) && "name" !in init[k];
        assert folders[k] == init[k];
      }
      if exists k :: 0 <= k < |folders| && HasId(folders[k]) && "name" !in folders[k] {
        var k :| 0 <= k < |folders| && HasId(folders[k]) && "name" !in folders[k];
        if k < |init| { assert init[k] == folders[k]; }
      }
    }
  }

  /**
   * The dict's keys are the truthy ids, each once, in the order they first
   * appear (a repeated id keeps its first place).
   */
  lemma {:induction false} FolderDictOrder(folders: seq<Record>)
    ensures FolderDict(folders).Some? ==>
      && FolderDict(folders).value.keys == FirstSeen(Values(folders, "id"))
      && Ordered(FolderDict(folders).value)
    decreases |folders|
  {
    if folders != [] {
      var init, f := folders[..|folders| - 1], folders[|folders| - 1];
      FolderDictOrder(init);
      assert folders == init + [f];
      FolderDictAppend(init, f);
      ValuesAppend(init, f, "id");
      FirstSeenAppend(Values(init, "id"), Get(f, "id"));
      FirstSeenDistinct(Values(folders, "id"));
      if HasId(f) && FolderDict(folders).Some? {
        var d := FolderDict(init).value;
        assert Elements(d.keys + [f["id"]]) == Elements(d.keys) + {f["id"]};
      }
    }
  }

  /** A later folder with the same id overwrites the name of an earlier one: the last one wins. */
  lemma {:induction false} FolderDictLastWins(folders: seq<Record>, k: nat)
    requires k < |folders| && HasId(folders[k]) && FolderDict(folders).Some?
    requires forall j :: k < j < |folders| ==> Get(folders[j], "id") != Get(folders[k], "id")
    ensures Get(folders[k], "id") in FolderDict(folders).value.values
    ensures FolderDict(folders).value.values[Get(folders[k], "id")] == Get(folders[k], "name")
    decreases |folders|
  {
    var init, f := folders[..|folders| - 1], folders[|folders| - 1];
    assert folders == init + [f];
    FolderDictAppend(init, f);
    if k < |init| {
      assert init[k] == folders[k];
      assert FolderDict(init).Some? by {
        if FolderDict(init).None? {
          assert HasId(f) ==> FolderDict(folders).None?;
        }
      }
      FolderDictLastWins(init, k);
    }
  }

  /** namibia.py:450: `{k: v for k, v in id_name_dict.items() if v}`, order kept. */
  function FilterNamed(d: Dict): Dict {
    Dict(NamedKeys(d.keys, d.values), map k | k in d.values && d.values[k] != "" :: d.values[k])
  }

  /** The listed keys whose name is non-empty, in order. */
  function NamedKeys(keys: seq<string>, values: map<string, string>): seq<string> {
    if keys == [] then []
    else
      var k := keys[|keys| - 1];
      NamedKeys(keys[..|keys| - 1], values) + (if k in values && values[k] != "" then [k] else [])
  }

  lemma {:induction false} NamedKeysMembers(keys: seq<string>, values: map<string, string>)
    ensures forall k :: k in NamedKeys(keys, values) <==> k in keys && k in values && values[k] != ""
    ensures Distinct(keys) ==> Distinct(NamedKeys(keys, values))
    decreases |keys|
  {
    if keys != [] {
      var init := keys[..|keys| - 1];
      NamedKeysMembers(init, values);
      assert keys == init + [keys[|keys| - 1]];
    }
  }

  /**
   * The filter works key by key, so it keeps the dict's order: the named keys
   * of a concatenation are the named keys of each part, one after the other.
   */
  lemma {:induction false} NamedKeysAppend(a: seq<string>, b: seq<string>, values: map<string, string>)
    ensures NamedKeys(a + b, values) == NamedKeys(a, values) + NamedKeys(b, values)
    decreases |b|
  {
    if b == [] {
      assert a + b == a;
    } else {
      var init, k := b[..|b| - 1], b[|b| - 1];
      NamedKeysAppend(a, init, values);
      assert a + b == (a + init) + [k];
      assert (a + b)[..|a + b| - 1] == a + init;
    }
  }

  /**
   * The filter keeps exactly the entries with a non-empty name, with the same
   * names, and keeps the dict well formed; `NamedKeysAppend` gives the order.
   */
  lemma FilterNamedKeeps(d: Dict)
    requires Ordered(d)
    ensures Ordered(FilterNamed(d))
    ensures forall k :: k in FilterNamed(d).values <==> k in d.values && d.values[k] != ""
    ensures forall k :: k in FilterNamed(d).values ==> FilterNamed(d).values[k] == d.values[k]
  {
    NamedKeysMembers(d.keys, d.values);
    assert Elements(FilterNamed(d).keys) == FilterNamed(d).values.Keys;
  }

  /** Filtering twice is filtering once. */
  lemma FilterNamedIdempotent(d: Dict)
    requires Ordered(d)
    ensures FilterNamed(FilterNamed(d)) == FilterNamed(d)
  {
    var e := FilterNamed(d);
    NamedKeysMembers(d.keys, d.values);
    FilterNamedKeeps(d);
    NamedKeysAll(e.keys, e.values);
  }

  lemma {:induction false} NamedKeysAll(keys: seq<string>, values: map<string, string>)
    requires forall k :: k in keys ==> k in values && values[k] != ""
    ensures NamedKeys(keys, values) == keys
    decreases |keys|
  {
    if keys != [] {
      NamedKeysAll(keys[..|keys| - 1], values);
      assert keys == keys[..|keys| - 1] + [keys[|keys| - 1]];
    }
  }

  /** A result whose `extracted_content` is truthy (and parsed). */
  predicate Parsed(r: CrawlResult) {
    r.success && r.content.Some?
  }

  /**
   * `folder_dict` after the results listed: each parsed result replaces it,
   * and a comprehension that raised (None) ends the run.
   */
  function ParsedFolderDict(results: seq<CrawlResult>): Option<Dict> {
    if results == [] then Some(Dict([], map[]))
    else
      var prev := ParsedFolderDict(results[..|results| - 1]);
      var r := results[|results| - 1];
      if prev.None? then None
      else if Parsed(r) then FolderDict(r.content.value)
      else prev
  }

  /** Once a comprehension has raised, later results change nothing. */
  lemma {:induction false} ParsedFolderDictRaised(results: seq<CrawlResult>, n: nat)
    requires n <= |results| && ParsedFolderDict(results[..n]).None?
    ensures ParsedFolderDict(results).None?
    decreases |results| - n
  {
    if n < |results| {
      assert results[..n + 1][..n] == results[..n];
      ParsedFolderDictRaised(results, n + 1);
    } else {
      assert results[..n] == results;
    }
  }

  /**
   * namibia.py:423-433: `folder_dict` is rebuilt from every parsed result, so
   * the last one decides; None where a comprehension raised.
   */
  method BuildFolderDict(results: seq<CrawlResult>) returns (folderDict: Option<Dict>)
    ensures folderDict == ParsedFolderDict(results)
    ensures folderDict.None? <==>
      exists i :: 0 <= i < |results| && Parsed(results[i]) && FolderDict(results[i].content.value).None?
    ensures folderDict.Some? && (forall i :: 0 <= i < |results| ==> !Parsed(results[i])) ==>
      folderDict == Some(Dict([], map[]))
    ensures forall i ::
      (0 <= i < |results| && Parsed(results[i]) && folderDict.Some?
       && forall j :: i < j < |results| ==> !Parsed(results[j])) ==>
      folderDict == FolderDict(results[i].content.value)
  {
    folderDict := Some(Dict([], map[]));
    ghost var last := -1;
    for i := 0 to |results|
      invariant -1 <= last < i
      invariant forall j :: 0 <= j < i && Parsed(results[j]) ==> FolderDict(results[j].content.value).Some?
      invariant last >= 0 ==> Parsed(results[last]) && folderDict == FolderDict(results[last].content.value)
      invariant last < 0 ==> folderDict == Some(Dict([], map[]))
      invariant forall m :: last < m < i ==> !Parsed(results[m])
      invariant folderDict == ParsedFolderDict(results[..i])
    {
      assert results[..i + 1][..i] == results[..i];
      if results[i].success && results[i].content.Some? {
        var folders := results[i].content.value;
        folderDict := FolderDict(folders);
        if folderDict.None? {
          ParsedFolderDictRaised(results, i + 1);
          return;
        }
        last := i;
      }
    }
    assert results[..|results|] == results;
  }

  // ------------------------------------------------------- publications

  /** The record of one publication row found after opening folder `id`. */
  function PubDoc(item: Record, id: string): Record {
    map["title" := Field(item, "title"), "categories" := Field(item, "categories"), "date" := Field(item, "date"),
        "link" := Field(item, "link"), "category_id" := id]
  }

  function PubDocsIn(items: seq<Record>, id: string): seq<Record> {
    seq(|items|, k requires 0 <= k < |items| => PubDoc(items[k], id))
  }

  /** `pub_docs` after the folders listed in `ids`. */
  function PubDocs(site: Site, ids: seq<string>): seq<Record> {
    if ids == [] then []
    else
      var id := ids[|ids| - 1];
      PubDocs(site, ids[..|ids| - 1]) + PubDocsIn(SuccessItems(site(PubDocsQuery(id), PubUrl)), id)
  }

  lemma PubDocsInAppend(items: seq<Record>, x: Record, id: string)
    ensures PubDocsIn(items + [x], id) == PubDocsIn(items, id) + [PubDoc(x, id)]
  {
  }

  /** Every publication carries the id of a listed folder, and only the five fields. */
  lemma {:induction false} PubDocsCategories(site: Site, ids: seq<string>)
    ensures forall d :: d in PubDocs(site, ids) ==>
      d.Keys == {"title", "categories", "date", "link", "category_id"} && d["category_id"] in ids
    decreases |ids|
  {
    if ids != [] {
      var init, id := ids[..|ids| - 1], ids[|ids| - 1];
      PubDocsCategories(site, init);
      assert ids == init + [id];
    }
  }

  /** The publications of each folder follow those of the folders before it. */
  lemma PubDocsStep(site: Site, ids: seq<string>, i: nat)
    requires i < |ids|
    ensures PubDocs(site, ids[..i + 1]) ==
      PubDocs(site, ids[..i]) + PubDocsIn(SuccessItems(site(PubDocsQuery(ids[i]), PubUrl)), ids[i])
  {
    assert ids[..i + 1][..i] == ids[..i];
  }

  /** The rows of the results for one folder. */
  method PubDocsOfFolder(results: seq<CrawlResult>, id: string, docs0: seq<Record>) returns (docs: seq<Record>)
    ensures docs == docs0 + PubDocsIn(SuccessItems(results), id)
  {
    docs := docs0;
    for i := 0 to |results|
      invariant docs == docs0 + PubDocsIn(SuccessItems(results[..i]), id)
    {
      SuccessItemsStep(results, i);
      if results[i].success {
        var items := Items(results[i]);
        ghost var before := SuccessItems(results[..i]);
        assert before + items[..0] == before;
        for j := 0 to |items|
          invariant docs == docs0 + PubDocsIn(before + items[..j], id)
        {
          PrefixStep(before, items, j);
          PubDocsInAppend(before + items[..j], items[j], id);
          docs := docs + [map["title" := Strip(Get(items[j], "title")), "categories" := Strip(Get(items[j], "categories")),
                              "date" := Strip(Get(items[j], "date")), "link" := Strip(Get(items[j], "link")),
                              "category_id" := id]];
        }
        assert items[..|items|] == items;
      }
    }
    SuccessItemsAll(results);
  }

  /**
   * namibia.py:442-509: for each folder of `id_name_dict`, in its order, the
   * publications listed after opening that folder.
   */
  method CollectPubDocs(site: Site, idNameDict: Dict) returns (pubDocs: seq<Record>)
    ensures pubDocs == PubDocs(site, idNameDict.keys)
  {
    var ids := idNameDict.keys;
    pubDocs := [];
    for i := 0 to |ids|
      invariant pubDocs == PubDocs(site, ids[..i])
    {
      PubDocsStep(site, ids, i);
      var results := site(PubDocsQuery(ids[i]), PubUrl);
      pubDocs := PubDocsOfFolder(results, ids[i], pubDocs);
    }
    assert ids[..|ids|] == ids;
  }

  /**
   * namibia.py:417-452: the folders parsed from the publications page are
   * stored in `folders.json` when there are any; the publication loop then
   * reads `folders.json` back, drops the unnamed folders and opens the others
   * in the dict's order. So it visits the named ids of the dict just parsed
   * when that dict is non-empty, and otherwise those of the dict an earlier
   * run stored. `stored` is `folders.json` before the run (None: no file) and
   * `newStored` after it; `pubDocs` is None where a comprehension raised or
   * there is no file to read.
   */
  method CollectPublications(site: Site, stored: Option<Dict>) returns (newStored: Option<Dict>, pubDocs: Option<seq<Record>>)
    ensures var built := ParsedFolderDict(site(FolderQuery, PubUrl));
      newStored == (if built.Some? && built.value.values != map[] then built else stored)
    ensures var built := ParsedFolderDict(site(FolderQuery, PubUrl));
      pubDocs.Some? <==> built.Some? && newStored.Some?
    ensures pubDocs.Some? ==>
      pubDocs.value == PubDocs(site, NamedKeys(newStored.value.keys, newStored.value.values))
  {
    newStored, pubDocs := stored, None;
    var folderDict := BuildFolderDict(site(FolderQuery, PubUrl));
    if folderDict.None? {
      return;
    }
    // namibia.py:436-438: `folders.json` is written only for a non-empty dict.
    if folderDict.value.values != map[] {
      newStored := folderDict;
    }
    if newStored.None? {
      return;
    }
    var idNameDict := FilterNamed(newStored.value);
    var docs := CollectPubDocs(site, idNameDict);
    pubDocs := Some(docs);
  }

  /**
   * The folders the publication loop opens are exactly the stored ids with a
   * non-empty name, each once, in the stored order.
   */
  lemma PublicationFolders(site: Site, stored: Option<Dict>, newStored: Option<Dict>, ids: seq<string>)
    requires stored.Some? ==> Ordered(stored.value)
    requires var built := ParsedFolderDict(site(FolderQuery, PubUrl));
      newStored == (if built.Some? && built.value.values != map[] then built else stored)
    requires newStored.Some? && ids == NamedKeys(newStored.value.keys, newStored.value.values)
    ensures Distinct(ids)
    ensures forall k :: k in ids <==> k in newStored.value.values && newStored.value.values[k] != ""
  {
    ParsedFolderDictOrdered(site(FolderQuery, PubUrl));
    NamedKeysMembers(newStored.value.keys, newStored.value.values);
  }

  /** Every dict built from parsed folders lists its keys once each. */
  lemma {:induction false} ParsedFolderDictOrdered(results: seq<CrawlResult>)
    ensures ParsedFolderDict(results).Some? ==> Ordered(ParsedFolderDict(results).value)
    decreases |results|
  {
    if results != [] {
      var r := results[|results| - 1];
      ParsedFolderDictOrdered(results[..|results| - 1]);
      if Parsed(r) {
        FolderDictOrder(r.content.value);
      }
    }
  }

  // ------------------------------------------------------------- census

  /**
   * namibia.py:545-547: the file name of the link without its extension,
   * with every '-' read as a space.
   */
  function CensusTitle(link: string): (t: string)
    ensures var root := SplitExtRoot(LastSegment(link));
      |t| == |root| && forall k :: 0 <= k < |t| ==> t[k] == (if root[k] == '-' then ' ' else root[k])
  {
    ReplaceChar(SplitExtRoot(LastSegment(link)), '-', ' ')
  }

  lemma CensusTitleNoDash(link: string)
    ensures '-' !in CensusTitle(link)
  {
    var t := CensusTitle(link);
    var root := SplitExtRoot(LastSegment(link));
    assert forall k :: 0 <= k < |t| ==> t[k] != '-';
  }

  lemma CensusTitleNoSlash(link: string)
    ensures '/' !in CensusTitle(link)
  {
    var base := LastSegment(link);
    var root := SplitExtRoot(base);
    var t := CensusTitle(link);
    forall k | 0 <= k < |t|
      ensures t[k] != '/'
    {
      assert root[k] == base[k] && base[k] in base;
    }
  }

  lemma CensusTitleLength(link: string)
    ensures |CensusTitle(link)| <= |LastSegment(link)|
  {
    var root := SplitExtRoot(LastSegment(link));
    assert |CensusTitle(link)| == |root|;
  }

  /** A title has no '-' and no '/', and is no longer than the file name. */
  lemma CensusTitleShape(link: string)
    ensures '-' !in CensusTitle(link) && '/' !in CensusTitle(link)
    ensures |CensusTitle(link)| <= |LastSegment(link)|
  {
    CensusTitleNoDash(link);
    CensusTitleNoSlash(link);
    CensusTitleLength(link);
  }

  /** A link "dir/stem.ext" gets the stem, with every '-' read as a space. */
  lemma CensusTitleOf(dir: string, stem: string, ext: string)
    requires '/' !in stem && '/' !in ext && '.' !in ext && !AllDots(stem)
    ensures CensusTitle(dir + "/" + (stem + "." + ext)) == ReplaceChar(stem, '-', ' ')
  {
    var name := stem + "." + ext;
    LastSegmentAfter(dir, name);
    SplitExtAt(stem, ext);
  }

  /** The record for one census main-report link. */
  function CensusMainDoc(link: string): Record {
    map["main_title" := CensusMainTitle, "title" := CensusTitle(link), "link" := link]
  }

  function CensusMainDocs(links: seq<string>): seq<Record> {
    seq(|links|, k requires 0 <= k < |links| => CensusMainDoc(links[k]))
  }

  lemma CensusMainDocsAppend(links: seq<string>, link: string)
    ensures CensusMainDocs(links + [link]) == CensusMainDocs(links) + [CensusMainDoc(link)]
  {
  }

  /** The inner loop over the items of one result. */
  method CensusMainItems(items: seq<Record>, ghost before: seq<Record>, links0: seq<string>, docs0: seq<Record>)
    returns (mainLinks: seq<string>, docs: seq<Record>)
    requires links0 == FirstSeen(Values(before, "link")) && docs0 == CensusMainDocs(links0)
    ensures mainLinks == FirstSeen(Values(before + items, "link")) && docs == CensusMainDocs(mainLinks)
  {
    mainLinks, docs := links0, docs0;
    assert before + items[..0] == before;
    for j := 0 to |items|
      invariant mainLinks == FirstSeen(Values(before + items[..j], "link"))
      invariant docs == CensusMainDocs(mainLinks)
    {
      PrefixStep(before, items, j);
      ValuesAppend(before + items[..j], items[j], "link");
      FirstSeenAppend(Values(before + items[..j], "link"), Get(items[j], "link"));
      var link := Get(items[j], "link");
      if link != "" && link !in mainLinks {
        CensusMainDocsAppend(mainLinks, link);
        mainLinks := mainLinks + [link];
        var fileName := LastSegment(link);
        var fileNameNoExt := SplitExtRoot(fileName);
        var cleanTitle := ReplaceChar(fileNameNoExt, '-', ' ');
        docs := docs + [map["main_title" := CensusMainTitle, "title" := cleanTitle, "link" := link]];
      }
    }
    assert items[..|items|] == items;
  }

  /**
   * namibia.py:522-552: the main-report links, each kept once in the order
   * first seen, and one census record per kept link.
   */
  method CollectCensusMain(results: seq<CrawlResult>) returns (mainLinks: seq<string>, docs: seq<Record>)
    ensures mainLinks == FirstSeen(Values(SuccessItems(results), "link"))
    ensures docs == CensusMainDocs(mainLinks)
  {
    mainLinks, docs := [], [];
    for i := 0 to |results|
      invariant mainLinks == FirstSeen(Values(SuccessItems(results[..i]), "link"))
      invariant docs == CensusMainDocs(mainLinks)
    {
      SuccessItemsStep(results, i);
      if results[i].success {
        mainLinks, docs := CensusMainItems(Items(results[i]), SuccessItems(results[..i]), mainLinks, docs);
      }
    }
    SuccessItemsAll(results);
  }

  /** A census document row with a truthy (unstripped) title and link. */
  predicate ValidCensus(item: Record) {
    Get(item, "title") != "" && Get(item, "link") != ""
  }

  function CensusDoc(item: Record): Record {
    map["main_title" := CensusMainTitle, "title" := Field(item, "title"), "link" := Field(item, "link")]
  }

  function CensusDocs(items: seq<Record>): seq<Record> {
    if items == [] then []
    else
      var item := items[|items| - 1];
      CensusDocs(items[..|items| - 1]) + (if ValidCensus(item) then [CensusDoc(item)] else [])
  }

  lemma CensusDocsAppend(items: seq<Record>, x: Record)
    ensures CensusDocs(items + [x]) == CensusDocs(items) + (if ValidCensus(x) then [CensusDoc(x)] else [])
  {
    assert (items + [x])[..|items|] == items;
  }

  /** Census documents: exactly the documents of the rows with a truthy title and link. */
  lemma {:induction false} CensusDocsKept(items: seq<Record>)
    ensures |CensusDocs(items)| <= |items|
    ensures forall d :: d in CensusDocs(items) <==> exists k :: 0 <= k < |items| && ValidCensus(items[k]) && d == CensusDoc(items[k])
    decreases |items|
  {
    if items != [] {
      var init, x := items[..|items| - 1], items[|items| - 1];
      CensusDocsKept(init);
      assert items == init + [x];
      assert forall k :: 0 <= k < |init| ==> init[k] == items[k];
    }
  }

  /** The test is made before stripping: a title of blanks is kept, as an empty title. */
  lemma CensusDocBlankTitle()
    ensures var item := map["title" := " ", "link" := "a.pdf"];
      ValidCensus(item) && CensusDoc(item)["title"] == ""
  {
    var item: Record := map["title" := " ", "link" := "a.pdf"];
    assert Get(item, "title") == " ";
    assert TrimLeft(" ") == TrimLeft("");
  }

  /** namibia.py:566-588: the census document rows of the successful results. */
  method CollectCensusDocs(results: seq<CrawlResult>) returns (docs: seq<Record>)
    ensures docs == CensusDocs(SuccessItems(results))
  {
    docs := [];
    for i := 0 to |results|
      invariant docs == CensusDocs(SuccessItems(results[..i]))
    {
      SuccessItemsStep(results, i);
      if results[i].success {
        var items := Items(results[i]);
        ghost var before := SuccessItems(results[..i]);
        assert before + items[..0] == before;
        for j := 0 to |items|
          invariant docs == CensusDocs(before + items[..j])
        {
          PrefixStep(before, items, j);
          CensusDocsAppend(before + items[..j], items[j]);
          if Get(items[j], "title") != "" && Get(items[j], "link") != "" {
            docs := docs + [map["main_title" := CensusMainTitle, "title" := Strip(Get(items[j], "title")),
                                "link" := Strip(Get(items[j], "link"))]];
          }
        }
        assert items[..|items|] == items;
      }
    }
    SuccessItemsAll(results);
  }

  /**
   * namibia.py:520-593: `census_docs`, the records of the main-report links
   * followed by those of the document rows.
   */
  method CollectCensus(site: Site) returns (censusDocs: seq<Record>)
    ensures censusDocs ==
      CensusMainDocs(FirstSeen(Values(SuccessItems(site(CensusMainQuery, CensusUrl)), "link")))
      + CensusDocs(SuccessItems(site(CensusDocsQuery, CensusUrl)))
  {
    var mainLinks, mainDocs := CollectCensusMain(site(CensusMainQuery, CensusUrl));
    var docs := CollectCensusDocs(site(CensusDocsQuery, CensusUrl));
    censusDocs := mainDocs + docs;
  }

  // ------------------------------------------------------------ merge

  /** namibia.py:601: the document lists in their fixed order. */
  function NsaData(nss: seq<Record>, home: seq<Record>, nsdi: seq<Record>, census: seq<Record>, pub: seq<Record>): (r: seq<Record>)
    ensures |r| == |nss| + |home| + |nsdi| + |census| + |pub|
    ensures r[..|nss|] == nss
    ensures r[|nss|..|nss| + |home|] == home
    ensures r[|nss| + |home|..|nss| + |home| + |nsdi|] == nsdi
    ensures r[|nss| + |home| + |nsdi|..|r| - |pub|] == census
    ensures r[|r| - |pub|..] == pub
  {
    var r := nss + home + nsdi + census + pub;
    assert r[..|nss|] == nss;
    assert r[|nss|..|nss| + |home|] == home;
    assert r[|nss| + |home|..|nss| + |home| + |nsdi|] == nsdi;
    assert r[|nss| + |home| + |nsdi|..|r| - |pub|] == census;
    r
  }

  /**
   * namibia.py:608-621: the truthy links of the merged documents, each once,
   * in the order first seen, and the set of them.
   */
  method UniqueLinks(data: seq<Record>) returns (links: seq<string>, seenLinks: set<string>)
    ensures links == FirstSeen(Values(data, "link"))
    ensures Distinct(links) && seenLinks == Elements(links) && |seenLinks| == |links|
    ensures forall l :: l in links <==> l != "" && exists k :: 0 <= k < |data| && Get(data[k], "link") == l
  {
    links, seenLinks := [], {};
    for i := 0 to |data|
      invariant links == FirstSeen(Values(data[..i], "link"))
      invariant seenLinks == Elements(links)
    {
      assert data[..i + 1] == data[..i] + [data[i]];
      ValuesAppend(data[..i], data[i], "link");
      FirstSeenAppend(Values(data[..i], "link"), Get(data[i], "link"));
      var link := Get(data[i], "link");
      if link != "" && link !in seenLinks {
        assert Elements(links + [link]) == Elements(links) + {link};
        links := links + [link];
        seenLinks := seenLinks + {link};
      }
    }
    assert data[..|data|] == data;
    UniqueLinksShape(data);
  }

  /** The first-seen links are distinct and are exactly the truthy links of the documents. */
  lemma UniqueLinksShape(data: seq<Record>)
    ensures var links := FirstSeen(Values(data, "link"));
      && Distinct(links) && |Elements(links)| == |links|
      && forall l :: l in links <==> l != "" && exists k :: 0 <= k < |data| && Get(data[k], "link") == l
  {
    var values := Values(data, "link");
    var links := FirstSeen(values);
    FirstSeenDistinct(values);
    FirstSeenElements(values);
    DistinctSize(links);
    forall l ensures l in links <==> l != "" && exists k :: 0 <= k < |data| && Get(data[k], "link") == l {
      if l in values {
        var k :| 0 <= k < |data| && values[k] == l;
      }
      if exists k :: 0 <= k < |data| && Get(data[k], "link") == l {
        var k :| 0 <= k < |data| && Get(data[k], "link") == l;
        assert values[k] == l;
      }
    }
  }

  /**
   * namibia.py:624-641: `nsa_all_links.txt` holds the links joined by line
   * breaks; read back stripped and without blank lines, it gives the links
   * again when they are clean URLs.
   */
  lemma LinksFileReadsBack(links: seq<string>)
    requires forall k :: 0 <= k < |links| ==> Clean(links[k])
    ensures ReadLines(JoinLines(links)) == links
  {
    ReadJoined(links);
    CleanedKeeps(links);
  }

  // ------------------------------------------------------------ downloads

  /**
   * namibia.py:643-662: the download of every line of `nsa_all_links.txt`.
   * The manifest `failed_downloads.txt` (None: absent) lists the failures,
   * and is removed when there are none.
   */
  method DownloadFiles(urls: seq<string>, download: string -> Response, folder: Folder)
    returns (files: Folder, failed: seq<string>, manifest: Option<string>)
    ensures failed == Failures(urls, download)
    ensures files == Written(folder, urls, download)
    ensures manifest == if failed != [] then Some(WriteLines(failed)) else None
  {
    files, failed := DownloadAll(urls, download, folder);
    if failed != [] {
      manifest := Some(WriteLines(failed));
    } else {
      manifest := None;
    }
  }
}
