# Crawl bookkeeping of the KNBS and NSA scrapers, in Dafny

Two site scripts crawl the websites of national statistics agencies:
`Kenya/kenya_final.py` (KNBS, `https://www.knbs.or.ke/`) and
`Namibia/namibia.py` (NSA, `https://nsa.org.na/`). Each one fetches pages
through a headless-browser library and applies CSS extraction schemas. Between
those calls, the scripts do their own work. They normalise URLs and collect
menu links. They follow "next page" links and gather article and "more" link
sets. They deduplicate nav menus, build documents and folder dictionaries, and
merge lists. Finally they download every file and record the failures for a
retry. This project models that work and proves what it promises.

Every crawler call is an oracle. `Site` is a function from an extraction query
and a URL to the list of `CrawlResult`s that `crawler.arun` returns. A
`CrawlResult` holds a success flag and the parsed `extracted_content` as a list
of `Record`s, where a `Record` maps field names to strings. The HTTP download is
also an oracle: it maps a URL to a `Response`, which is a body or a raised
exception.

Files:

- `wrappers.dfy`: `Option`, for the scripts' `None`.
- `text.dfy`: the Python string operations the scripts use. These are
  `startswith`, `strip` (with CPython's whitespace set), `split('/')[-1]`,
  `os.path.splitext`, `replace`, and the order `sorted` uses on strings.
- `textfiles.dfy`: the one-URL-per-line text files, written and read back.
- `crawl.dfy`: the oracle's types, flattening the items of successful results,
  and the first-seen dedup that both scripts use.
- `urls.dfy`: `ensure_base_url` and the menu-link collection.
- `downloads.dfy`: the batch download and its failure list.
- `kenya.dfy`: the KNBS crawl. The "more" loop takes its load-more and skip
  lists as a `PageLists` value, and `KnbsLists` holds the script's literal lists.
- `namibia.dfy`: the NSA crawl.

Three behaviours of the code are easy to miss, and the model keeps them:

- The pagination loop has no cycle detection. `current_url` becomes
  `next_url` even when that URL is already in `page_links`. The loop ends only
  at a fetch that yields no `next_page`. `Kenya.CycleNeverEnds` shows that two
  pages naming each other never end the loop.
- `ensure_base_url` strips a leading `./` or else one leading `/`, never both,
  so `.//a` keeps a slash (`Urls.OnePrefixDropped`).
- The downloader takes a list (the lines of a file), not a set. A name
  collision is resolved by the last write (`Downloads.WrittenLast`).

## Model

| member | source | states |
|---|---|---|
| `Urls.EnsureBaseUrlResult` | Kenya/kenya_final.py:37-47 | An absolute `http://` or `https://` URL comes back unchanged. Any other URL yields `base` followed by the input, less one leading `./`, or else less one leading `/`, or else unchanged. |
| `Urls.EnsureBaseUrlIdempotent` | Namibia/namibia.py:18-28 | With an absolute base, normalising a URL twice gives the same result as normalising it once. |
| `Urls.OnePrefixDropped` | Kenya/kenya_final.py:42-46 | The branches are exclusive: `.//a` and `//a` both become `base + "/a"`, and the empty URL becomes `base`. |
| `Urls.MenuLinksMembers` | Kenya/kenya_final.py:163-170 | The menu set holds exactly the normalised `url` of each extracted item, except `base + "#"`. |
| `Urls.MenuLinksElements` | Kenya/kenya_final.py:163-170 | The menu set is the set of the items' normalised `url`s, less `base + "#"`. |
| `Urls.MenuLinksKeepBase` | Kenya/kenya_final.py:166-169 | An item without a `url` contributes `base` itself, which is kept. |
| `Urls.CollectMenus` | Namibia/namibia.py:397-404 | The loop over the results builds exactly that menu set from the items of the successful results. |
| `Urls.CollectItemMenus` | Kenya/kenya_final.py:166-169 | The loop over one result's items adds exactly the menu links of those items to the set built so far. |
| `Kenya.CollectMenuLinks` | Kenya/kenya_final.py:151-170 | The KNBS menu set is the menu set of the home page fetch, and `base_url + "#"` is not in it. |
| `Namibia.CollectMenuLinks` | Namibia/namibia.py:384-404 | The NSA menu set uses `https://nsa.org.na/` as base, and `base_url + "#"` is not in it. |
| `Crawl.FirstSeenElements` | Namibia/namibia.py:614-621 | Exactly the truthy links are kept. |
| `Crawl.FirstSeenDistinct` | Namibia/namibia.py:619-621 | No link is kept twice. |
| `Crawl.FirstSeenSize` | Namibia/namibia.py:614-621 | The number kept equals the number of distinct non-empty links. |
| `Crawl.FirstSeenOrder` | Namibia/namibia.py:617-620 | The kept links are in the order of their first occurrence. |
| `Crawl.CollectFirstSeen` | Kenya/kenya_final.py:471-477 | The append-if-absent loop over the results gives the first-seen list of the non-empty values of the key. |
| `Crawl.ListOfSet` | Kenya/kenya_final.py:440 | `list(set(..))` lists every element of the set once. |
| `Text.StripSlice` | Namibia/namibia.py:180-181 | `strip()` keeps the slice between the leading and trailing whitespace. The result is empty exactly when the string is all whitespace. Otherwise it starts and ends with a non-space character. |
| `Text.StripIdempotent` | Namibia/namibia.py:229-230 | Stripping a second time changes nothing. |
| `Text.LastSegment` | Kenya/kenya_final.py:567 | `url.split('/')[-1]` is the suffix after the last `/`, and it contains no `/`. |
| `Text.LastSegmentAfter` | Namibia/namibia.py:645 | The file name of `p + "/" + name` is `name` when `name` has no `/`. |
| `Text.SplitExtRoot` | Namibia/namibia.py:546 | `splitext(name)[0]` cuts `name` at its last `.`, unless only dots precede that `.`. |
| `Text.SplitExtAt` | Namibia/namibia.py:546 | A stem that is not all dots, then `.`, then an extension without dots: the root is the stem. |
| `Text.ReplaceChar` | Namibia/namibia.py:547 | `replace('-', ' ')` maps each character on its own and keeps the length. |
| `Text.SortedUnique` | Kenya/kenya_final.py:548-553 | `sorted(set(urls))` is strictly ascending and holds exactly the elements of `urls`. |
| `Text.SortedDetermined` | Kenya/kenya_final.py:552 | A strictly sorted list is determined by its elements, so the sorted output is unique. |
| `Text.BelowTotal` | Kenya/kenya_final.py:552 | Python's order on `str` relates any two distinct strings. |
| `TextFiles.ReadWritten` | Kenya/kenya_final.py:443-452 | Reading back a file written line by line gives the stripped, non-blank lines in order. |
| `TextFiles.ReadJoined` | Namibia/namibia.py:624-640 | Reading back a file written with `"\n".join` gives the stripped, non-blank lines in order. |
| `TextFiles.CleanedStripped` | Kenya/kenya_final.py:562 | Every line read back is non-blank and already stripped. |
| `TextFiles.CleanedKeeps` | Kenya/kenya_final.py:561-562 | Non-blank, stripped lines come back unchanged. |
| `Downloads.DownloadAll` | Kenya/kenya_final.py:564-576 | `failed` is the input-ordered list of URLs whose download or file write raised. The folder holds each saved body under the URL's last segment. |
| `Downloads.FailuresMembers` | Namibia/namibia.py:644-653 | A URL is in `failed` exactly when it is an input URL whose download or file write raised. |
| `Downloads.FailuresAppend` | Namibia/namibia.py:644-653 | The failures keep input order: the failures of `a + b` are those of `a` followed by those of `b`. |
| `Downloads.FailuresNone` | Namibia/namibia.py:656-662 | There are no failures exactly when every download was saved. |
| `Downloads.WrittenLast` | Kenya/kenya_final.py:567-572 | A saved URL's file holds its body unless a later saved URL has the same file name. |
| `Downloads.WrittenElsewhere` | Namibia/namibia.py:645-650 | A file name that no saved URL ends in keeps its old contents. |
| `Downloads.ManifestReadsBack` | Kenya/kenya_final.py:579-582 | Reading the retry manifest back gives exactly the failed URLs, in order. |
| `Kenya.ScanNextPage` | Kenya/kenya_final.py:191-203 | One fetch yields `next_url`, the normalised last non-empty `next_page`. `page_links` grows by exactly the normalised non-empty `next_page`s. |
| `Kenya.PaginationRound` | Kenya/kenya_final.py:179-203 | One round of the `while current_url` loop records the current URL as fetched and moves to its `next_url`. It keeps the loop invariant: the pages still to fetch are the rest of the `Visits` chain, and `page_links` is the start URL plus every link found so far. |
| `Kenya.LastNextWins` | Kenya/kenya_final.py:196-199 | `next_url` is None exactly when no item has a `next_page`. Otherwise it is the normalised value of the last item that has one, and it is among the links added. |
| `Kenya.NextLinksMembers` | Kenya/kenya_final.py:197-201 | The links added are exactly the normalised non-empty `next_page` values. |
| `Kenya.FollowPagination` | Kenya/kenya_final.py:176-203 | The loop fetches the `Visits` chain of pages. `page_links` is the start URL plus every link those fetches add. `ended` says whether the chain stopped within the fetch bound. |
| `Kenya.VisitedAreLinks` | Kenya/kenya_final.py:179-203 | Every page fetched is in `page_links`. |
| `Kenya.EndsAtLastPage` | Kenya/kenya_final.py:180-203 | The loop ends only at a fetch that yields no `next_page`. |
| `Kenya.UnendedUsesFuel` | Kenya/kenya_final.py:180 | A loop that has not ended has used every fetch the bound allows. |
| `Kenya.CycleNeverEnds` | Kenya/kenya_final.py:200-203 | Two pages that name each other as next page are fetched forever. |
| `Kenya.PaginateMenus` | Kenya/kenya_final.py:174-205 | `page_links_dict` has one key per menu, mapped to that menu's `page_links`. The set left over is the last menu's. `allEnded` holds exactly when every menu's loop ended. |
| `Kenya.NonEmptyValuesMembers` | Kenya/kenya_final.py:235-238 | Exactly the non-empty `url` values are collected. |
| `Kenya.HarvestNonEmpty` | Kenya/kenya_final.py:236-238 | A collected URL set never holds the empty string. |
| `Kenya.ScanItems` | Kenya/kenya_final.py:235-240 | One result's scan adds its non-empty URLs. `extracted_any` is set exactly when one of them was new. |
| `Kenya.ScanUrls` | Kenya/kenya_final.py:231-239 | The scan of all results adds their non-empty URLs. `extracted_any` holds exactly when the fetch added a URL not known before. |
| `Kenya.ArticleSweepFound` | Kenya/kenya_final.py:215-244 | The article loop fetches a prefix of the pages. It collects exactly what those fetches contribute. |
| `Kenya.ArticleSweepAdds` | Kenya/kenya_final.py:231-244 | Every page fetched before the last one added a new URL. |
| `Kenya.ArticleSweepStopsEarly` | Kenya/kenya_final.py:228-244 | A loop that stops before the last page stops at the first fetch that added nothing new. |
| `Kenya.ArticleUnionNonEmpty` | Kenya/kenya_final.py:237 | The article set never holds the empty string. |
| `Kenya.CollectArticles` | Kenya/kenya_final.py:215-244 | The article loop over the given `page_links` computes the article sweep. |
| `Kenya.PaginateThenArticles` | Kenya/kenya_final.py:174-244 | The article loop is reached exactly when there is a menu and every menu's pagination ended. It runs over a distinct listing of the last menu's page links only. |
| `Kenya.ClassifyBy` | Kenya/kenya_final.py:316-368 | A page is load-more exactly when it is in the load-more list, even if it is also in the skip list. It is skipped exactly when it is in the skip list only. Every other page is normal. |
| `Kenya.MenuPassRecorded` | Kenya/kenya_final.py:316-396 | One menu's pass keeps the invariant. `file_details_dict` keys are load-more pages and `load_more_dict` keys are normal pages, each mapped to its own fetch's non-empty links. No skipped page is fetched. Keys are only added, and only for pages of that menu. |
| `Kenya.PassesRecorded` | Kenya/kenya_final.py:255-396 | After the whole loop the invariant holds, and every key is a page of some menu. |
| `Kenya.MenuPassReaches` | Kenya/kenya_final.py:316-396 | A page reached before any halting page gets its key: a load-more page in `file_details_dict`, a normal page with links in `load_more_dict`. |
| `Kenya.KeysKept` | Kenya/kenya_final.py:364 | A pass never removes a key. |
| `Kenya.HaltAbandonsMenu` | Kenya/kenya_final.py:391-393 | After a normal page with no links, the remaining pages of that menu are never looked at. |
| `Kenya.PassMenu` | Kenya/kenya_final.py:256-396 | The inner loop over one menu's pages computes that menu's pass. |
| `Kenya.CollectMoreLinks` | Kenya/kenya_final.py:255-396 | The outer loop over the menus' page lists computes all the passes in order. |
| `Kenya.ExtendAll` | Kenya/kenya_final.py:418-419 | `setdefault(k, []).extend(v)` for every entry gives the union of the keys. Each key maps to its old list followed by the new one. |
| `Kenya.MergeLinks` | Kenya/kenya_final.py:415-423 | The keys of `merged` are the union of both dicts' keys. `merged[k]` is `data1[k]` followed by `data2[k]`, each defaulting to empty. |
| `Kenya.UniqueUrls` | Kenya/kenya_final.py:434-440 | `unique_urls` lists every URL of any value list, once each. |
| `Kenya.RemoveAll` | Kenya/kenya_final.py:517 | `pdf_files_cleaned` holds exactly the elements of `pdf_files` that differ from `main_url`. |
| `Kenya.RemoveAllAppend` | Kenya/kenya_final.py:517 | The removal keeps order, because it distributes over concatenation. |
| `Kenya.RemoveAllAbsent` | Kenya/kenya_final.py:517 | With nothing to remove, the list is unchanged. |
| `Kenya.RemoveAllDistinct` | Kenya/kenya_final.py:517 | Removal keeps a list free of duplicates. |
| `Kenya.PageReportsShape` | Kenya/kenya_final.py:454-529 | There is one report per details item. Its pdf list is the page's pdf links without its main URL, each once and none empty. Its xlsx list is the page's xlsx links, each once and none empty. |
| `Kenya.ReportsOfPage` | Kenya/kenya_final.py:510-529 | The details loop builds the reports of its items in order. |
| `Kenya.ExtractReports` | Kenya/kenya_final.py:454-529 | `all_reports` is the concatenation of each URL's page reports, in URL order. |
| `Kenya.CollectedUrlsMembers` | Kenya/kenya_final.py:540-545 | The collected URLs are exactly each report's non-empty main URL, pdf files and xlsx files. |
| `Kenya.CollectDownloadUrls` | Kenya/kenya_final.py:540-553 | The lines of `urls.txt` are strictly sorted. They hold exactly the non-empty main report URLs and all pdf and xlsx files. |
| `Kenya.DownloadFiles` | Kenya/kenya_final.py:559-585 | `failed` lists the failures in input order. The manifest is rewritten only when something failed; otherwise the old one stays. |
| `Kenya.UrlsFileReadsBack` | Kenya/kenya_final.py:551-562 | Clean URLs written to `urls.txt` one per line read back as the same list. |
| `Kenya.SaveAndDownload` | Kenya/kenya_final.py:551-585 | The downloader gets the stripped, non-blank lines of `urls.txt`, and the manifest is rewritten only when something failed. When every URL is clean, those lines are exactly the sorted URLs. |
| `Namibia.DedupNav` | Namibia/namibia.py:172-191 | The nav loop returns the single-key map of each kept (name, URL) pair and the set of kept names. |
| `Namibia.DedupItems` | Namibia/namibia.py:179-191 | The loop over one result's items turns `nss_nav_links` and `nss_menu_names` for the items before into those for the items before plus these items. |
| `Namibia.NavPairsNames` | Namibia/namibia.py:184-191 | The kept names are the first-seen list of the names of the valid items. |
| `Namibia.KeepFirstNames` | Namibia/namibia.py:188-191 | Keeping the first offer of each non-empty name keeps exactly the first-seen list of the offered names. |
| `Namibia.KeepFirstIsFirst` | Namibia/namibia.py:188-191 | Each kept (name, URL) pair is the first offer with its name. |
| `Namibia.NavLinksDistinct` | Namibia/namibia.py:188-191 | No menu name is kept twice. |
| `Namibia.NavLinksMembers` | Namibia/namibia.py:179-191 | The kept names are exactly the stripped names of the items whose stripped name and URL are both non-empty. |
| `Namibia.NavLinksOrder` | Namibia/namibia.py:179-191 | The entries follow the order in which their names first appear. |
| `Namibia.NavLinksCount` | Namibia/namibia.py:188-191 | There are as many entries as distinct non-empty names. |
| `Namibia.NavPairsFirst` | Namibia/namibia.py:188-191 | Each entry maps its name to the stripped URL of the first valid item with that name. |
| `Namibia.NavPairsStripped` | Namibia/namibia.py:180-185 | Every kept name and URL is non-empty and already stripped. |
| `Namibia.HomeDocsKept` | Namibia/namibia.py:228-237 | The home documents are exactly the documents of the items whose stripped title and link are both non-empty. There are never more of them than items. |
| `Namibia.HomeDocShape` | Namibia/namibia.py:229-236 | A home document has only `title` and `link`, both stripped and non-empty. |
| `Namibia.CollectHomeDocs` | Namibia/namibia.py:216-237 | The home loop builds the home documents of the successful results in order. |
| `Namibia.CollectTableDocs` | Namibia/namibia.py:268-285 | Every item becomes one document with its three fields stripped, in order. |
| `Namibia.FirstDocumentsFound` | Namibia/namibia.py:251-255 | `documents_url` is None exactly when no entry has the key `DOCUMENTS`. Otherwise it is the value of the first entry that has it. |
| `Namibia.FindDocumentsUrl` | Namibia/namibia.py:342-346 | The loop with `break` finds that value. |
| `Namibia.CollectSectionDocs` | Namibia/namibia.py:160-285 | A section's documents exist exactly when its nav has a DOCUMENTS entry. They are the table documents of that page. |
| `Namibia.FolderDictFails` | Namibia/namibia.py:431 | The comprehension raises exactly when a folder with an id has no name. |
| `Namibia.FolderDictOrder` | Namibia/namibia.py:431 | The dict's keys are the truthy ids, each once, in first-seen order. |
| `Namibia.FolderDictLastWins` | Namibia/namibia.py:431 | A later folder with the same id overwrites the earlier name. |
| `Namibia.FilterNamedKeeps` | Namibia/namibia.py:450 | The filter keeps exactly the entries with a non-empty name, with their names, and the result is a well-formed dict. |
| `Namibia.NamedKeysAppend` | Namibia/namibia.py:450 | The filter works key by key and keeps the dict's order: the kept keys of a concatenation are those of each part in turn. |
| `Namibia.FilterNamedIdempotent` | Namibia/namibia.py:450 | Filtering twice is filtering once. |
| `Namibia.BuildFolderDict` | Namibia/namibia.py:424-433 | The result follows `folder_dict` result by result. It is None exactly when a comprehension raised. Otherwise it is the dict of the last parsed result, or empty when no result was parsed. |
| `Namibia.CollectPublications` | Namibia/namibia.py:417-452 | `folders.json` is rewritten only when the parsed dict is non-empty. The publication loop visits the named ids of that file in its order: those of the dict just parsed when it is non-empty, otherwise those an earlier run stored. The run stops where a comprehension raised or no file exists. |
| `Namibia.PublicationFolders` | Namibia/namibia.py:446-452 | The ids the publication loop visits are distinct. They are exactly the stored ids with a non-empty name. |
| `Namibia.ParsedFolderDictOrdered` | Namibia/namibia.py:423-431 | Every dict built from the parsed folders lists each key once, and lists exactly its keys. |
| `Namibia.PubDocsCategories` | Namibia/namibia.py:507-515 | Every publication has exactly the five fields and carries the id of a listed folder. |
| `Namibia.PubDocsOfFolder` | Namibia/namibia.py:495-515 | One folder's rows are appended in order with the folder's id. |
| `Namibia.CollectPubDocs` | Namibia/namibia.py:452-515 | `pub_docs` holds the folders' rows in `id_name_dict` order. |
| `Namibia.CensusTitle` | Namibia/namibia.py:545-547 | The title is the file name's root with every `-` replaced by a space. |
| `Namibia.CensusTitleShape` | Namibia/namibia.py:545-547 | A title has no `-` and no `/`, and it is no longer than the file name. |
| `Namibia.CensusTitleOf` | Namibia/namibia.py:545-547 | A link `dir/stem.ext`, where the stem is not all dots and neither stem nor extension holds `/` (nor the extension a `.`), gets the stem with every `-` replaced by a space as its title. |
| `Namibia.CensusMainItems` | Namibia/namibia.py:540-553 | One result's items extend `main_links` first-seen and add one census record per new link. |
| `Namibia.CollectCensusMain` | Namibia/namibia.py:533-553 | `main_links` is the first-seen list of truthy links, with one census record per link. |
| `Namibia.CensusDocsKept` | Namibia/namibia.py:580-588 | The census rows kept are exactly those with a truthy title and link. |
| `Namibia.CensusDocBlankTitle` | Namibia/namibia.py:582-586 | The test comes before stripping, so a title of blanks is kept as an empty title. |
| `Namibia.CollectCensusDocs` | Namibia/namibia.py:568-591 | The census docs loop builds those rows in order. |
| `Namibia.CollectCensus` | Namibia/namibia.py:522-592 | `census_docs` is the main-report records followed by the document rows. |
| `Namibia.NsaData` | Namibia/namibia.py:601 | `nsa_data` is `nss ++ home ++ nsdi ++ census ++ pub`. Its length is the sum of the five lengths, and each part sits at its offset. |
| `Namibia.UniqueLinks` | Namibia/namibia.py:614-621 | `links` is the first-seen list of truthy links, with no duplicates. Each truthy link appears in it. `seen_links` is its set, of equal size. |
| `Namibia.UniqueLinksShape` | Namibia/namibia.py:613-621 | The first-seen links are distinct, as many as the set of them, and exactly the truthy links of the documents. |
| `Namibia.LinksFileReadsBack` | Namibia/namibia.py:624-640 | Clean links written with `"\n".join` read back unchanged. |
| `Namibia.DownloadFiles` | Namibia/namibia.py:642-662 | `failed` lists the failures in input order. The manifest lists them one per line, and it is removed when there are none. |

## Left out

- The crawling library (`AsyncWebCrawler`, `CrawlerRunConfig`, `arun`, `JsonCssExtractionStrategy`), the CSS selectors of the schemas and the injected JavaScript are left out. Rendering and extraction are the oracle `Site`.
- The "Load More" clicking script and its page timeout run in the browser. A load-more fetch is one oracle call (`LoadMoreQuery`).
- `requests.get` with its timeout and TLS settings, and the status check, are left out. The download is the oracle `download`, and opening the target file is modelled only by its name (`Downloads.Writable`).
- JSON reads and writes are identity on the data they carry, so each write-then-reload is modelled as passing the value on. Set-to-list conversions give an arbitrary order, and the callers take that order as a parameter.
- `json.loads` on empty or malformed content counts as zero items (`CrawlResult.content == None`). Several loops (kenya_final.py:165, 195, 234, 357, 384, 473, 493, 513; namibia.py:399, 538) do not catch that error and would crash. At namibia.py:427-428 such a result is not counted as zero items: it is skipped like one with no extracted content, so the previous `folder_dict` is kept (`Namibia.Parsed`). For malformed content the source crashes there instead. At namibia.py:573-577 a successful result whose `extracted_content` is None makes `json.loads` raise `TypeError`; the handler then slices that None, which raises again, uncaught. The model does not capture these crashes: it treats such a result as zero items.
- The `pdf` and `xlsx` fields are declared `multiple`, so the library can return a list of links. They are modelled as one string per item.
- `Kenya.FollowPagination`: the source loop has no bound. The model takes a fetch bound `fuel`, and `ended` says whether the loop finished within it. A run that never ends is modelled only as one that uses up any bound (`Kenya.UnendedUsesFuel`, `Kenya.CycleNeverEnds`). `Kenya.PaginateMenus` and `Kenya.PaginateThenArticles` report through `allEnded` whether every menu's loop ended, and they produce no article pass when one did not.
- The site and the download are assumed stable during a run: `Site` and `download` are functions, so fetching the same page twice gives the same results, and downloading the same URL twice gives the same outcome. Namibia can download one URL twice, because census links are kept unstripped (namibia.py:541-551) but read back stripped (namibia.py:639-640); the model cannot give those two downloads different outcomes. `Kenya.CycleNeverEnds` relies on this, and so does the reading of the "more" loop's repeated writes for a page in two menus (kenya_final.py:363, 396) as harmless overwrites.
- The article loop at kenya_final.py:216 raises `NameError` when there are no menus. `Kenya.PaginateThenArticles` models that as no article sweep (`None`).
- `Namibia.CollectSectionDocs`: when no nav entry is `DOCUMENTS`, the script calls the crawler with `url=None`, and what the library does then is not modelled (the result is `None`).
- Kenya/api_final.py (Flask routes, the background thread, the `scraping_lock` flag, the log queue and the SSE stream) is not part of this model. It is concurrency and I/O around the crawl.
- Logging, `print`, `os.makedirs` and `asyncio` scheduling are left out.
- Algeria script.py is not part of this model.
