/**
  The URL side of serpapi_search.py: the `original` filter of `image_lookup`
  and `count_urls`. The search request itself is left to the caller: the
  model starts from the decoded response dictionary.
*/
module ImageSearch {
  import opened Wrappers
  import BatchEmbed

  /** One entry of `images_results`; only its `original` key is read. */
  type SearchResult = map<string, string>

  /** The response dictionary; `images_results` may be missing. */
  datatype SearchResponse = SearchResponse(imagesResults: Option<seq<SearchResult>>)

  /** `[result['original'] for result in results if 'original' in result]`. */
  function OriginalUrls(results: seq<SearchResult>): (urls: seq<BatchEmbed.Url>)
    ensures |urls| <= |results|
    ensures forall u :: u in urls ==> exists j :: 0 <= j < |results| && "original" in results[j] && results[j]["original"] == u
    decreases |results|
  {
    if results == [] then []
    else
      var init := results[..|results| - 1];
      var last := results[|results| - 1];
      assert forall j :: 0 <= j < |init| ==> init[j] == results[j];
      OriginalUrls(init) + (if "original" in last then [last["original"]] else [])
  }

  /** `image_lookup` after the search call: `results.get("images_results", [])`, filtered. */
  function ImageLookup(response: SearchResponse): (urls: seq<BatchEmbed.Url>)
    ensures response.imagesResults.None? ==> urls == []
    ensures |urls| <= |response.imagesResults.GetOr([])|
  {
    OriginalUrls(response.imagesResults.GetOr([]))
  }

  /** The positions of the results that have an `original` key, in increasing order. */
  ghost function WithOriginal(results: seq<SearchResult>): seq<nat> {
    if results == [] then []
    else
      WithOriginal(results[..|results| - 1])
      + (if "original" in results[|results| - 1] then [|results| - 1] else [])
  }

  /**
    The comprehension keeps exactly the results with an `original` key, in
    input order, and yields that key's value for each of them.
  */
  lemma {:induction false} OriginalUrlsAligned(results: seq<SearchResult>)
    ensures var urls, ps := OriginalUrls(results), WithOriginal(results);
      && |ps| == |urls|
      && (forall i, j :: 0 <= i < j < |ps| ==> ps[i] < ps[j])
      && (forall j :: 0 <= j < |ps| ==>
            ps[j] < |results| && "original" in results[ps[j]] && urls[j] == results[ps[j]]["original"])
      && (forall p :: 0 <= p < |results| ==> ("original" in results[p] <==> p in ps))
    decreases |results|
  {
    if results != [] {
      var init := results[..|results| - 1];
      assert forall j :: 0 <= j < |init| ==> init[j] == results[j];
      OriginalUrlsAligned(init);
    }
  }

  /** The set of distinct elements of a sequence. */
  function Distinct(s: seq<BatchEmbed.Url>): (r: set<BatchEmbed.Url>)
    ensures forall x :: x in r <==> x in s
  {
    if s == [] then {} else {s[0]} + Distinct(s[1..])
  }

  ghost predicate NoDuplicates<T>(s: seq<T>) {
    forall i, j :: 0 <= i < j < |s| ==> s[i] != s[j]
  }

  lemma NoDuplicatesCons(s: seq<BatchEmbed.Url>)
    requires s != []
    ensures NoDuplicates(s) <==> s[0] !in s[1..] && NoDuplicates(s[1..])
  {
    var t := s[1..];
    if s[0] !in t && NoDuplicates(t) {
      forall i, j | 0 <= i < j < |s|
        ensures s[i] != s[j]
      {
        assert s[j] == t[j - 1];
        if i > 0 {
          assert s[i] == t[i - 1];
        }
      }
    }
    if NoDuplicates(s) {
      forall i, j | 0 <= i < j < |t|
        ensures t[i] != t[j]
      {
        assert t[i] == s[i + 1] && t[j] == s[j + 1];
      }
      forall j | 0 <= j < |t|
        ensures t[j] != s[0]
      {
        assert t[j] == s[j + 1];
      }
    }
  }

  lemma {:induction false} DistinctSize(s: seq<BatchEmbed.Url>)
    ensures |Distinct(s)| <= |s|
    ensures |Distinct(s)| == |s| <==> NoDuplicates(s)
    decreases |s|
  {
    if s != [] {
      var t := s[1..];
      DistinctSize(t);
      NoDuplicatesCons(s);
      assert Distinct(s) == {s[0]} + Distinct(t);
      if s[0] in t {
        assert Distinct(s) == Distinct(t);
      } else {
        assert |Distinct(s)| == |Distinct(t)| + 1;
      }
    }
  }

  /**
    `count_urls` as written: the length of the list. It counts a URL once per
    occurrence, so it equals the number of distinct URLs only when there are
    no duplicates, and exceeds it otherwise.
  */
  function CountUrls(urls: seq<BatchEmbed.Url>): (n: nat)
    ensures n == |urls|
    ensures n >= |Distinct(urls)|
    ensures n == |Distinct(urls)| <==> NoDuplicates(urls)
  {
    DistinctSize(urls);
    |urls|
  }

  /** What the docstring and the caller's message announce: the number of unique URLs. */
  function CountUniqueUrls(urls: seq<BatchEmbed.Url>): (n: nat)
    ensures n == |set u | u in urls|
    ensures n <= |urls|
    ensures n == |urls| <==> NoDuplicates(urls)
    ensures urls != [] ==> n >= 1
  {
    DistinctSize(urls);
    assert Distinct(urls) == set u | u in urls;
    |Distinct(urls)|
  }

  /** A list holding one URL twice is counted as two URLs, though only one is unique. */
  lemma CountUrlsCountsDuplicates()
    ensures CountUrls(["u", "u"]) == 2
    ensures CountUniqueUrls(["u", "u"]) == 1
  {
    assert Distinct(["u", "u"]) == {"u"};
  }
}
