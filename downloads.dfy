/**
 * The batch download both scripts end with: every URL is fetched and its body
 * written into the download folder under the URL's last path segment; a URL
 * whose download raises is recorded, in input order, for a later retry.
 */
module Downloads {
  import opened Text
  import opened TextFiles

  /** What `requests.get(url, ...)` followed by `raise_for_status()` yields: the body, or an exception. */
  datatype Response = Body(bytes: seq<bv8>) | Raised

  /** The download folder: file name to contents. */
  type Folder = map<string, seq<bv8>>

  /**
   * `open(os.path.join(folder, name), 'wb')` succeeds: a name that is empty
   * (a URL ending in '/'), "." or ".." denotes a directory and raises.
   */
  predicate Writable(name: string) {
    name != "" && name != "." && name != ".."
  }

  /** The body of the download for `url` reaches the folder: nothing in the `try` raised. */
  predicate Saved(url: string, response: Response) {
    response.Body? && Writable(LastSegment(url))
  }

  /** The list `failed`: the URLs whose `try` block raised, in input order. */
  function Failures(urls: seq<string>, download: string -> Response): seq<string> {
    if urls == [] then []
    else
      var u := urls[|urls| - 1];
      Failures(urls[..|urls| - 1], download) + (if Saved(u, download(u)) then [] else [u])
  }

  /** The folder after one download: its body under the URL's file name when it was saved. */
  function Put(folder: Folder, url: string, response: Response): Folder {
    if Saved(url, response) then folder[LastSegment(url) := response.bytes] else folder
  }

  /** The folder after writing every saved download in turn: a later file of the same name replaces an earlier one. */
  function Written(folder: Folder, urls: seq<string>, download: string -> Response): Folder {
    if urls == [] then folder
    else
      var u := urls[|urls| - 1];
      Put(Written(folder, urls[..|urls| - 1], download), u, download(u))
  }

  /**
   * kenya_final.py:564-576 and namibia.py:642-653: the loop that downloads
   * every URL and collects the failures.
   */
  method DownloadAll(urls: seq<string>, download: string -> Response, folder: Folder)
    returns (files: Folder, failed: seq<string>)
    ensures failed == Failures(urls, download)
    ensures files == Written(folder, urls, download)
  {
    files, failed := folder, [];
    for i := 0 to |urls|
      invariant failed == Failures(urls[..i], download)
      invariant files == Written(folder, urls[..i], download)
    {
      var url := urls[i];
      var filename := LastSegment(url);
      var response := download(url);
      DownloadStep(folder, urls, download, i);
      if response.Body? && Writable(filename) {
        files := files[filename := response.bytes];
      } else {
        failed := failed + [url];
      }
    }
    assert urls[..|urls|] == urls;
  }

  /** One more URL: the last failure appended, or the last body written. */
  lemma DownloadStep(folder: Folder, urls: seq<string>, download: string -> Response, i: nat)
    requires i < |urls|
    ensures var u := urls[i];
      Failures(urls[..i + 1], download)
        == Failures(urls[..i], download) + (if Saved(u, download(u)) then [] else [u])
    ensures Written(folder, urls[..i + 1], download) == Put(Written(folder, urls[..i], download), urls[i], download(urls[i]))
  {
    assert urls[..i + 1][..i] == urls[..i];
  }

  /** A URL is listed as failed exactly when it is one of the input URLs and its download raised. */
  lemma {:induction false} FailuresMembers(urls: seq<string>, download: string -> Response)
    ensures forall u :: u in Failures(urls, download) <==> u in urls && !Saved(u, download(u))
    decreases |urls|
  {
    if urls != [] {
      var init := urls[..|urls| - 1];
      FailuresMembers(init, download);
      assert urls == init + [urls[|urls| - 1]];
    }
  }

  /** Failures keep the input order: the failures of a concatenation are concatenated. */
  lemma {:induction false} FailuresAppend(a: seq<string>, b: seq<string>, download: string -> Response)
    ensures Failures(a + b, download) == Failures(a, download) + Failures(b, download)
    decreases |b|
  {
    if b == [] {
      assert a + b == a;
    } else {
      var init := b[..|b| - 1];
      FailuresAppend(a, init, download);
      assert (a + b)[..|a + b| - 1] == a + init;
    }
  }

  /** No failures at all exactly when every download was saved. */
  lemma FailuresNone(urls: seq<string>, download: string -> Response)
    ensures Failures(urls, download) == [] <==> forall k :: 0 <= k < |urls| ==> Saved(urls[k], download(urls[k]))
  {
    FailuresMembers(urls, download);
    if Failures(urls, download) != [] {
      assert Failures(urls, download)[0] in Failures(urls, download);
    }
  }

  /** A write under another name, or no write at all, leaves a file as it was. */
  lemma PutElsewhere(folder: Folder, url: string, response: Response, name: string)
    requires !(Saved(url, response) && LastSegment(url) == name)
    ensures name in Put(folder, url, response) <==> name in folder
    ensures name in folder ==> Put(folder, url, response)[name] == folder[name]
  {
  }

  /** The file a saved URL was written to holds its body, unless a later saved URL has the same name. */
  lemma {:induction false} WrittenLast(folder: Folder, urls: seq<string>, download: string -> Response, k: nat)
    requires k < |urls| && Saved(urls[k], download(urls[k]))
    requires forall j :: k < j < |urls| ==>
      !(Saved(urls[j], download(urls[j])) && LastSegment(urls[j]) == LastSegment(urls[k]))
    ensures LastSegment(urls[k]) in Written(folder, urls, download)
    ensures Written(folder, urls, download)[LastSegment(urls[k])] == download(urls[k]).bytes
    decreases |urls|
  {
    var init := urls[..|urls| - 1];
    var last := urls[|urls| - 1];
    var name := LastSegment(urls[k]);
    if k < |urls| - 1 {
      assert init[k] == urls[k];
      forall j | k < j < |init|
        ensures !(Saved(init[j], download(init[j])) && LastSegment(init[j]) == name)
      {
        assert init[j] == urls[j];
      }
      WrittenLast(folder, init, download, k);
      PutElsewhere(Written(folder, init, download), last, download(last), name);
    }
  }

  /** A name no saved URL ends in keeps whatever the folder held before. */
  lemma {:induction false} WrittenElsewhere(folder: Folder, urls: seq<string>, download: string -> Response, name: string)
    requires forall j :: 0 <= j < |urls| ==> !(Saved(urls[j], download(urls[j])) && LastSegment(urls[j]) == name)
    ensures name in Written(folder, urls, download) <==> name in folder
    ensures name in folder ==> Written(folder, urls, download)[name] == folder[name]
    decreases |urls|
  {
    if urls != [] {
      var init := urls[..|urls| - 1];
      var last := urls[|urls| - 1];
      forall j | 0 <= j < |init|
        ensures !(Saved(init[j], download(init[j])) && LastSegment(init[j]) == name)
      {
        assert init[j] == urls[j];
      }
      WrittenElsewhere(folder, init, download, name);
      PutElsewhere(Written(folder, init, download), last, download(last), name);
    }
  }

  /** A URL the downloader can read back: non-blank, stripped, on one line. */
  predicate Clean(u: string) {
    u != "" && Strip(u) == u && NoBreaks(u)
  }

  /** Reading the retry manifest back gives exactly the failed URLs, in order. */
  lemma ManifestReadsBack(urls: seq<string>, download: string -> Response)
    requires forall k :: 0 <= k < |urls| ==> Clean(urls[k])
    ensures ReadLines(WriteLines(Failures(urls, download))) == Failures(urls, download)
  {
    var failed := Failures(urls, download);
    FailuresMembers(urls, download);
    assert forall k :: 0 <= k < |failed| ==> failed[k] in urls;
    ReadWritten(failed);
    CleanedKeeps(failed);
  }
}
