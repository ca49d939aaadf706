/**
  The image loader and batch embedder of utils.py: `check_valid_URL` and
  `get_all_image_embeddings_from_urls`.

  Everything that touches the outside world is an oracle held in `World`:
  the two HTTP GETs issued per candidate, PIL's header check (`Image.open`),
  PIL's full decode (`.convert("RGB")`) and the CLIP encoder. A GET is
  answered per position in the truncated URL list, so the validation request
  and the download request for one URL, or two occurrences of the same URL,
  may be answered differently, as a real network may.
*/
module BatchEmbed {
  import opened Wrappers

  type Url = string
  type Bytes = seq<bv8>

  /** A decoded RGB image; the model never looks inside it. */
  datatype Image = Image(width: nat, height: nat, pixels: Bytes)

  /** The flattened CLIP feature vector; the model never looks inside it. */
  type Embedding = seq<real>

  /** What one `requests.get` produced: an exception, or a response with a status and body. */
  datatype Response = RequestRaised | Http(status: int, body: Bytes)

  datatype World = World(
    probe: (nat, Url) -> Response,      // the GET inside check_valid_URL for the URL at a position
    download: (nat, Url) -> Response,   // the second GET, in the loop body
    opens: Bytes -> bool,               // Image.open(BytesIO(body)) does not raise
    decodeRgb: Bytes -> Option<Image>,  // Image.open(...).convert("RGB"), None when it raises
    embed: Image -> Option<Embedding>   // get_single_image_embedding, None when it raises
  )

  /** `check_valid_URL` given the answer to its GET: any exception or non-200 status means false. */
  function CheckValidUrl(resp: Response, opens: Bytes -> bool): (ok: bool)
    ensures ok <==> resp.Http? && resp.status == 200 && opens(resp.body)
    ensures resp.RequestRaised? ==> !ok
    ensures resp.Http? && resp.status != 200 ==> !ok
  {
    match resp
    case RequestRaised => false
    case Http(status, body) =>
      if status != 200 then false
      else opens(body)
  }

  /**
    One iteration of the loop for the URL `u` at position `p`: the embedding
    when validation passes and nothing in the `try` block raises, else None.
    The download's status code is not inspected, as in the source.
  */
  function Attempt(w: World, p: nat, u: Url): (r: Option<Embedding>)
    ensures r.Some? <==>
      && CheckValidUrl(w.probe(p, u), w.opens)
      && w.download(p, u).Http?
      && w.decodeRgb(w.download(p, u).body).Some?
      && w.embed(w.decodeRgb(w.download(p, u).body).value).Some?
    ensures r.Some? ==> w.embed(w.decodeRgb(w.download(p, u).body).value) == r
  {
    if !CheckValidUrl(w.probe(p, u), w.opens) then None
    else
      match w.download(p, u)
      case RequestRaised => None
      case Http(_, body) =>
        match w.decodeRgb(body)
        case None => None
        case Some(img) => w.embed(img)
  }

  /** Python's `s[:n]`: a negative `n` counts from the end, a large one stops at the end. */
  function SlicePrefix<T>(s: seq<T>, n: int): (r: seq<T>)
    ensures r <= s
    ensures n >= 0 ==> |r| == if n < |s| then n else |s|
    ensures n < 0 ==> |r| == if |s| + n > 0 then |s| + n else 0
  {
    if n >= 0 then (if n < |s| then s[..n] else s)
    else (if |s| + n > 0 then s[..|s| + n] else [])
  }

  /** The two lists the function returns: `embeddings` and `working_urls`. */
  datatype Batch = Batch(embeddings: seq<Embedding>, workingUrls: seq<Url>)

  /** The state of the loop after its first `k` iterations over `urls`. */
  function Scan(w: World, urls: seq<Url>, k: nat): (b: Batch)
    requires k <= |urls|
    ensures |b.embeddings| == |b.workingUrls| <= k
  {
    if k == 0 then Batch([], [])
    else
      var b := Scan(w, urls, k - 1);
      match Attempt(w, k - 1, urls[k - 1])
      case None => b
      case Some(e) => Batch(b.embeddings + [e], b.workingUrls + [urls[k - 1]])
  }

  /**
    `get_all_image_embeddings_from_urls(dataset, ..., num_images)`: the two
    lists always have equal length, at most the length of `dataset[:num_images]`.
  */
  function EmbedBatch(w: World, dataset: seq<Url>, numImages: int): (b: Batch)
    ensures |b.embeddings| == |b.workingUrls| <= |SlicePrefix(dataset, numImages)|
    ensures 0 <= numImages ==> |b.workingUrls| <= numImages && |b.workingUrls| <= |dataset|
    ensures dataset == [] ==> b == Batch([], [])
  {
    var urls := SlicePrefix(dataset, numImages);
    Scan(w, urls, |urls|)
  }

  /** The positions, among the first `k`, whose attempt succeeded, in increasing order. */
  ghost function Kept(w: World, urls: seq<Url>, k: nat): seq<nat>
    requires k <= |urls|
  {
    if k == 0 then []
    else Kept(w, urls, k - 1) + (if Attempt(w, k - 1, urls[k - 1]).Some? then [k - 1] else [])
  }

  ghost predicate StrictlyIncreasing(ps: seq<nat>) {
    forall i, j :: 0 <= i < j < |ps| ==> ps[i] < ps[j]
  }

  lemma {:induction false} ScanKeptAligned(w: World, urls: seq<Url>, k: nat)
    requires k <= |urls|
    ensures var b, ps := Scan(w, urls, k), Kept(w, urls, k);
      && |ps| == |b.workingUrls| == |b.embeddings|
      && (forall j :: 0 <= j < |ps| ==>
            && ps[j] < k
            && b.workingUrls[j] == urls[ps[j]]
            && Attempt(w, ps[j], urls[ps[j]]) == Some(b.embeddings[j]))
  {
    if k > 0 {
      ScanKeptAligned(w, urls, k - 1);
    }
  }

  lemma {:induction false} KeptExactly(w: World, urls: seq<Url>, k: nat)
    requires k <= |urls|
    ensures var ps := Kept(w, urls, k);
      && (forall j :: 0 <= j < |ps| ==> ps[j] < k)
      && StrictlyIncreasing(ps)
      && (forall p :: 0 <= p < k ==> (Attempt(w, p, urls[p]).Some? <==> p in ps))
  {
    if k > 0 {
      KeptExactly(w, urls, k - 1);
    }
  }

  /**
    The loop's output is the order-preserving subsequence of the URLs whose
    attempt succeeded, paired index by index with the embedding computed for
    that very URL: the positions kept are exactly the successful ones.
  */
  lemma {:induction false} ScanAligned(w: World, urls: seq<Url>, k: nat)
    requires k <= |urls|
    ensures var b, ps := Scan(w, urls, k), Kept(w, urls, k);
      && |ps| == |b.workingUrls| == |b.embeddings|
      && StrictlyIncreasing(ps)
      && (forall j :: 0 <= j < |ps| ==>
            && ps[j] < k
            && b.workingUrls[j] == urls[ps[j]]
            && Attempt(w, ps[j], urls[ps[j]]) == Some(b.embeddings[j]))
      && (forall p :: 0 <= p < k ==> (Attempt(w, p, urls[p]).Some? <==> p in ps))
  {
    ScanKeptAligned(w, urls, k);
    KeptExactly(w, urls, k);
  }

  /** The same statement for the whole call, over `dataset[:num_images]`. */
  lemma EmbedBatchAligned(w: World, dataset: seq<Url>, numImages: int)
    ensures var urls := SlicePrefix(dataset, numImages);
      var b, ps := EmbedBatch(w, dataset, numImages), Kept(w, urls, |urls|);
      && |ps| == |b.workingUrls| == |b.embeddings|
      && StrictlyIncreasing(ps)
      && (forall j :: 0 <= j < |ps| ==>
            && ps[j] < |urls|
            && b.workingUrls[j] == dataset[ps[j]]
            && Attempt(w, ps[j], dataset[ps[j]]) == Some(b.embeddings[j]))
      && (forall p :: 0 <= p < |urls| ==> (Attempt(w, p, dataset[p]).Some? <==> p in ps))
  {
    var urls := SlicePrefix(dataset, numImages);
    ScanAligned(w, urls, |urls|);
  }

  /** Two worlds that answer every request for the first `k` positions alike. */
  ghost predicate AgreeBelow(w: World, w': World, k: nat) {
    && w.opens == w'.opens
    && w.decodeRgb == w'.decodeRgb
    && w.embed == w'.embed
    && (forall p: nat, u :: p < k ==> w.probe(p, u) == w'.probe(p, u))
    && (forall p: nat, u :: p < k ==> w.download(p, u) == w'.download(p, u))
  }

  lemma {:induction false} ScanFrame(w: World, w': World, urls: seq<Url>, urls': seq<Url>, k: nat)
    requires k <= |urls| && k <= |urls'| && urls[..k] == urls'[..k]
    requires AgreeBelow(w, w', k)
    ensures Scan(w, urls, k) == Scan(w', urls', k)
  {
    if k > 0 {
      assert urls[..k - 1] == urls'[..k - 1] by {
        assert urls[..k - 1] == urls[..k][..k - 1];
        assert urls'[..k - 1] == urls'[..k][..k - 1];
      }
      assert urls[k - 1] == urls[..k][k - 1] == urls'[k - 1];
      ScanFrame(w, w', urls, urls', k - 1);
    }
  }

  /**
    Only the first `num_images` URLs are examined: the result does not depend
    on the URLs past the cut, nor on any answer the network would give for
    them, so they are never checked or fetched.
  */
  lemma OnlyPrefixExamined(w: World, w': World, dataset: seq<Url>, dataset': seq<Url>, numImages: int)
    requires SlicePrefix(dataset, numImages) == SlicePrefix(dataset', numImages)
    requires AgreeBelow(w, w', |SlicePrefix(dataset, numImages)|)
    ensures EmbedBatch(w, dataset, numImages) == EmbedBatch(w', dataset', numImages)
  {
    var urls := SlicePrefix(dataset, numImages);
    ScanFrame(w, w', urls, urls, |urls|);
  }
}
