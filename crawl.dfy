/**
 * What the crawling library hands back to the scripts, and the bookkeeping
 * over it that both site scripts repeat: flattening the results of one fetch
 * and keeping the first occurrence of each non-empty link.
 */
module Crawl {
  import opened Wrappers

  /** One extracted item: a JSON object from field name to extracted text. */
  type Record = map<string, string>

  /**
   * `item.get(key, "")`. It also stands for `item.get(key)` where the script
   * only tests the value's truth: a missing key and "" are both false.
   */
  function Get(r: Record, key: string): string {
    if key in r then r[key] else ""
  }

  /**
   * One element of the list `crawler.arun` returns: whether the crawl
   * succeeded, and the parsed `extracted_content`, `None` when that content
   * is empty or is not well-formed JSON.
   */
  datatype CrawlResult = CrawlResult(success: bool, content: Option<seq<Record>>)

  /** The items one result contributes: none unless it succeeded with content. */
  function Items(r: CrawlResult): seq<Record> {
    if r.success && r.content.Some? then r.content.value else []
  }

  /** The items of the successful results in order: what `for result ...: for item ...` visits. */
  function SuccessItems(rs: seq<CrawlResult>): seq<Record> {
    if rs == [] then [] else SuccessItems(rs[..|rs| - 1]) + Items(rs[|rs| - 1])
  }

  lemma SuccessItemsStep(rs: seq<CrawlResult>, i: nat)
    requires i < |rs|
    ensures SuccessItems(rs[..i + 1]) == SuccessItems(rs[..i]) + Items(rs[i])
    ensures !rs[i].success ==> SuccessItems(rs[..i + 1]) == SuccessItems(rs[..i])
  {
    assert rs[..i + 1][..i] == rs[..i];
    assert SuccessItems(rs[..i]) + [] == SuccessItems(rs[..i]);
  }

  /** One more element of `s` read after `before`. */
  lemma PrefixStep<T>(before: seq<T>, s: seq<T>, j: nat)
    requires j < |s|
    ensures before + s[..j + 1] == (before + s[..j]) + [s[j]]
    ensures before + s[..0] == before && s[..|s|] == s
  {
    assert s[..j + 1] == s[..j] + [s[j]];
  }

  lemma SuccessItemsAll(rs: seq<CrawlResult>)
    ensures SuccessItems(rs[..|rs|]) == SuccessItems(rs)
  {
    assert rs[..|rs|] == rs;
  }

  /** `[item.get(key, "") for item in items]` */
  function Values(items: seq<Record>, key: string): seq<string> {
    seq(|items|, k requires 0 <= k < |items| => Get(items[k], key))
  }

  predicate Distinct<T(==)>(s: seq<T>) {
    forall i, j :: 0 <= i < j < |s| ==> s[i] != s[j]
  }

  function Elements<T>(s: seq<T>): set<T> {
    set x | x in s
  }

  lemma ElementsStep<T>(s: seq<T>, i: nat)
    requires i < |s|
    ensures Elements(s[..i + 1]) == Elements(s[..i]) + {s[i]}
    ensures Elements(s[..0]) == {} && Elements(s[..|s|]) == Elements(s)
  {
    assert s[..i + 1] == s[..i] + [s[i]];
    assert s[..|s|] == s;
  }

  /** A list without repeats has as many elements as its set. */
  lemma {:induction false} DistinctSize<T>(s: seq<T>)
    requires Distinct(s)
    ensures |Elements(s)| == |s|
    decreases |s|
  {
    if s != [] {
      var init := s[..|s| - 1];
      DistinctSize(init);
      assert Elements(s) == Elements(init) + {s[|s| - 1]};
      assert s[|s| - 1] !in Elements(init);
    }
  }

  /**
   * The loop `if x and x not in seen: keep x` over `xs`: the non-empty
   * strings of `xs`, each once, in the order they first appear.
   */
  function FirstSeen(xs: seq<string>): seq<string> {
    if xs == [] then []
    else
      var r := FirstSeen(xs[..|xs| - 1]);
      var x := xs[|xs| - 1];
      if x != "" && x !in r then r + [x] else r
  }

  lemma FirstSeenStep(xs: seq<string>, i: nat)
    requires i < |xs|
    ensures FirstSeen(xs[..i + 1]) ==
      var r := FirstSeen(xs[..i]); if xs[i] != "" && xs[i] !in r then r + [xs[i]] else r
  {
    assert xs[..i + 1][..i] == xs[..i];
  }

  /** Exactly the non-empty strings of `xs` are kept. */
  lemma {:induction false} FirstSeenElements(xs: seq<string>)
    ensures forall y :: y in FirstSeen(xs) <==> y in xs && y != ""
    decreases |xs|
  {
    if xs != [] {
      var init := xs[..|xs| - 1];
      FirstSeenElements(init);
      assert xs == init + [xs[|xs| - 1]];
    }
  }

  /** Nothing is kept twice. */
  lemma {:induction false} FirstSeenDistinct(xs: seq<string>)
    ensures Distinct(FirstSeen(xs))
    decreases |xs|
  {
    if xs != [] {
      FirstSeenDistinct(xs[..|xs| - 1]);
    }
  }

  /** As many strings are kept as `xs` has distinct non-empty ones. */
  lemma FirstSeenSize(xs: seq<string>)
    ensures |FirstSeen(xs)| == |Elements(xs) - {""}|
  {
    FirstSeenDistinct(xs);
    FirstSeenElements(xs);
    DistinctSize(FirstSeen(xs));
    assert Elements(FirstSeen(xs)) == Elements(xs) - {""};
  }

  /** The index of the first occurrence of `y` in `xs`. */
  function FirstIndex(xs: seq<string>, y: string): (i: nat)
    requires y in xs
    ensures i < |xs| && xs[i] == y
    ensures forall k :: 0 <= k < i ==> xs[k] != y
  {
    if xs[0] == y then 0 else 1 + FirstIndex(xs[1..], y)
  }

  lemma FirstIndexPrefix(xs: seq<string>, n: nat, y: string)
    requires n <= |xs| && y in xs[..n]
    ensures FirstIndex(xs, y) == FirstIndex(xs[..n], y)
  {
    var j := FirstIndex(xs[..n], y);
    assert xs[j] == y;
  }

  /** A string appended to a list without it first occurs at the end. */
  lemma FirstIndexAppend(xs: seq<string>, y: string)
    requires y !in xs
    ensures y in xs + [y] && FirstIndex(xs + [y], y) == |xs|
  {
    var ys := xs + [y];
    assert forall k :: 0 <= k < |xs| ==> ys[k] == xs[k];
  }

  /** The kept strings are in the order of their first occurrences in `xs`. */
  lemma {:induction false} FirstSeenOrder(xs: seq<string>)
    ensures forall i, j :: 0 <= i < j < |FirstSeen(xs)| ==>
      && FirstSeen(xs)[i] in xs && FirstSeen(xs)[j] in xs
      && FirstIndex(xs, FirstSeen(xs)[i]) < FirstIndex(xs, FirstSeen(xs)[j])
    decreases |xs|
  {
    if xs == [] {
      assert FirstSeen(xs) == [];
    } else {
      var n := |xs| - 1;
      var init, x := xs[..n], xs[n];
      var r0 := FirstSeen(init);
      var r := FirstSeen(xs);
      FirstSeenOrder(init);
      FirstSeenElements(init);
      assert init + [x] == xs;
      forall i, j | 0 <= i < j < |FirstSeen(xs)|
        ensures FirstSeen(xs)[i] in xs && FirstSeen(xs)[j] in xs
        ensures FirstIndex(xs, FirstSeen(xs)[i]) < FirstIndex(xs, FirstSeen(xs)[j])
      {
        assert r[i] in init && r[i] == r0[i];
        FirstIndexPrefix(xs, n, r[i]);
        assert FirstIndex(xs, r[i]) == FirstIndex(init, r0[i]) < n;
        if j < |r0| {
          assert r[j] == r0[j] && r[j] in init;
          FirstIndexPrefix(xs, n, r[j]);
          assert FirstIndex(init, r0[i]) < FirstIndex(init, r0[j]);
        } else {
          assert r[j] == x && x !in init;
          assert forall k :: 0 <= k < n ==> xs[k] == init[k];
          assert FirstIndex(xs, x) == n;
        }
      }
    }
  }

  lemma ValuesAppend(items: seq<Record>, x: Record, key: string)
    ensures Values(items + [x], key) == Values(items, key) + [Get(x, key)]
  {
  }

  lemma FirstSeenAppend(xs: seq<string>, v: string)
    ensures FirstSeen(xs + [v]) ==
      var r := FirstSeen(xs); if v != "" && v !in r then r + [v] else r
  {
    assert (xs + [v])[..|xs|] == xs;
  }

  /**
   * The scan `if link and link not in links: links.append(link)` over the
   * items of the successful results: the first-seen list of the `key` values.
   */
  method CollectFirstSeen(results: seq<CrawlResult>, key: string) returns (links: seq<string>)
    ensures links == FirstSeen(Values(SuccessItems(results), key))
  {
    links := [];
    for i := 0 to |results|
      invariant links == FirstSeen(Values(SuccessItems(results[..i]), key))
    {
      SuccessItemsStep(results, i);
      if results[i].success {
        var items := Items(results[i]);
        ghost var before := SuccessItems(results[..i]);
        assert before + items[..0] == before;
        for j := 0 to |items|
          invariant links == FirstSeen(Values(before + items[..j], key))
        {
          PrefixStep(before, items, j);
          ValuesAppend(before + items[..j], items[j], key);
          FirstSeenAppend(Values(before + items[..j], key), Get(items[j], key));
          var link := Get(items[j], key);
          if link != "" && link !in links {
            links := links + [link];
          }
        }
        assert items[..|items|] == items;
      }
    }
    SuccessItemsAll(results);
  }

  /** `list(s)`: the elements of a set, each once, in an order the model leaves open. */
  method ListOfSet(s: set<string>) returns (xs: seq<string>)
    ensures Distinct(xs) && Elements(xs) == s
  {
    xs := [];
    var rest := s;
    while rest != {}
      invariant Distinct(xs)
      invariant Elements(xs) + rest == s && Elements(xs) !! rest
      decreases rest
    {
      var x :| x in rest;
      assert Elements(xs + [x]) == Elements(xs) + {x};
      xs := xs + [x];
      rest := rest - {x};
    }
  }
}
