# Image-similarity pipeline core, modelled in Dafny

This project models the sequential logic of a small image-similarity tool. The tool searches the web for images matching a keyword. It embeds the images with CLIP and stores the vectors in a Pinecone index. Then it ranks the index's answers to a query image. The model covers:

- **Batch embedder** (`utils.py`). `check_valid_URL` and `get_all_image_embeddings_from_urls`: the URL list is cut to `num_images`, each URL is validated, downloaded, decoded and embedded, and the URLs that fail are skipped.
- **Record assembler** (`utils.py`). `create_data_to_upsert_from_urls`: the `(str(i), embedding, {'ID': i, 'image': url})` triples sent to the index.
- **Match selection** (`utils.py`). `extract_highest_score` and the top-5 selection `sorted(..., reverse=True)[:5]` inside `plot_top_matches_seaborn`.
- **Page metadata and search results** (`serpapi_search.py`). The `<meta>` tag fold and `<time>` fallback of `fetch_metadata`, the `original` filter of `image_lookup`, and `count_urls`.

Everything outside the process is an oracle passed in as a value.

- `BatchEmbed.World` holds two HTTP GET oracles: the validation request and the download request. Both are answered per position in the truncated list, so repeated requests for one URL may get different answers. It also holds PIL's header check (`Image.open`), PIL's full decode (`.convert("RGB")`), and the CLIP encoder. Each of these returns "raised" or a value.
- `MetaTags` receives the page already parsed: its title, its `<meta>` tags and its `<time>` tags, in document order. `datetime.fromisoformat(...).isoformat()` and `datetime.now()` are parameters too.
- `ImageSearch` starts from the decoded search-response dictionary.

Modules: `Wrappers` (Option, Result), `Text` (`str.lower`, `str(int)` and its inverse), `BatchEmbed`, `Records`, `Ranking` (a generic stable descending sort, Python's `max` scan, and the take), `Matches`, `MetaTags` and `ImageSearch`.

Behaviour of the code that the model keeps as it is:

- The records are zipped, so lists of unequal length are silently truncated, not rejected; `num_images` is never read.
- The line-114 selection reads only `score`, so it raises `KeyError` only for a missing score; `metadata['image']` is read later, while plotting.
- The metadata stores the URL under the key `image`.
- The download step does not check the HTTP status. Only the validation request does, so a non-200 download whose body still decodes is embedded.

## Model

| member | source | states |
|---|---|---|
| BatchEmbed.CheckValidUrl | utils.py:45-53 | the check is true exactly when the GET returned status 200 and PIL recognised the body; a raised request or any other status gives false |
| BatchEmbed.Attempt | utils.py:64-75 | an embedding is produced for a URL iff its validation passed, its download returned a response, the body decoded to RGB and the encoder did not raise; the embedding is the encoder's answer on that image |
| BatchEmbed.SlicePrefix | utils.py:59 | `dataset[:num_images]` is a prefix of the dataset, of length min(n, len) for n >= 0 and max(0, len + n) for negative n |
| BatchEmbed.Scan | utils.py:63-77 | after k iterations the embeddings and working URLs lists have equal length, at most k |
| BatchEmbed.EmbedBatch | utils.py:55-79 | the two returned lists have equal length, at most len(dataset[:num_images]), so at most num_images; an empty dataset gives two empty lists |
| BatchEmbed.ScanAligned | utils.py:63-77 | the working URLs are the URLs at strictly increasing positions, duplicates kept; a position is kept iff its attempt succeeds; embeddings[j] is the embedding computed for workingUrls[j] |
| BatchEmbed.EmbedBatchAligned | utils.py:55-79 | the same alignment and iff-inclusion statement for the whole call, over `dataset[:num_images]` |
| BatchEmbed.OnlyPrefixExamined | utils.py:59-64 | the result depends only on `dataset[:num_images]` and on the network's answers for those positions: URLs past the cut are never checked or fetched |
| Text.DecimalString | utils.py:89 | `str(index)` is a non-empty digit string with no leading zero unless it is "0" |
| Text.ParseDecimalString | utils.py:89 | reading the digits of `str(n)` back gives n |
| Text.DecimalStringInjective | utils.py:89 | distinct indices give distinct id strings |
| Records.Zip3 | utils.py:92 | `zip` stops at the shortest list and pairs up equal positions |
| Records.CreateDataToUpsert | utils.py:81-93 | min(len(dataset), len(embeddings)) records; record i carries embeddings[i], metadata {ID: i, image: dataset[i]} and the id `str(i)`, which parses back to i; ids are pairwise distinct |
| Records.NumImagesIgnored | utils.py:81-93 | the `num_images` argument never changes the records |
| Matches.NonEmptyMatches | utils.py:97 | the guard holds exactly when `matches` is present, is a list and is non-empty |
| Ranking.MaxFrom | utils.py:99 | the left-to-right scan of `max` ends on a greatest-key element, with every earlier element strictly smaller |
| Ranking.ArgMaxFirst | utils.py:99 | `max(key=...)` picks a greatest-key element, the first one among ties |
| Matches.ExtractHighestScore | utils.py:95-109 | None iff matches is missing, not a list or empty; KeyError iff some match lacks a score or the best match lacks id, metadata or image; otherwise the score bounds every match and id, score and image are copied from the first match attaining it |
| Ranking.StableSortDesc | utils.py:114 | the sorted list is a permutation of the input |
| Ranking.SortIsSorted | utils.py:114 | `sorted(..., reverse=True)` yields non-increasing keys |
| Ranking.SortIsStable | utils.py:114 | for every key value, the elements with that key keep their original relative order |
| Ranking.SortedDeterminedByKeys | utils.py:114 | two non-increasing sequences with the same per-key subsequences are equal |
| Ranking.StableSortCharacterized | utils.py:114 | any non-increasing arrangement keeping each key's elements in input order is exactly the sort's result |
| Ranking.TopN | utils.py:114 | the take has length min(n, len), is sorted, is a sub-multiset of the input, keeps a prefix of each key's elements, and no omitted element has a greater key than a selected one |
| Matches.TopMatches | utils.py:114 | KeyError iff some match has no score; otherwise min(5, n) matches, best first, ties in input order, drawn from the input, none omitted scoring higher |
| Matches.TopMatchesIsStableOrderPrefix | utils.py:114 | the top-5 are the first five of the unique stable non-increasing arrangement of the matches |
| Ranking.SortHeadIsFirstMax | utils.py:99-114 | the stable sort's first element is the element `max` returns |
| Matches.HighestIsFirstOfTop | utils.py:95-114 | on a well-formed result, the highest-score match reported is the first of the top matches |
| Text.Lower | serpapi_search.py:32-39 | `.lower()` keeps the length, leaves no ASCII capital, and changes exactly the capitals, each to its small letter |
| MetaTags.ApplyMeta | serpapi_search.py:31-40 | one tag raises iff it sets a field but has no content; otherwise it sets exactly the fields it names (lowercased name or property) to its content and leaves the others |
| MetaTags.FoldMetas | serpapi_search.py:30-40 | the loop raises iff some tag sets a field without having content; the title is untouched |
| MetaTags.FoldLastWins | serpapi_search.py:30-40 | each field ends as the content of the last tag that sets it, or keeps its initial value if none does |
| MetaTags.ExtractMetadata | serpapi_search.py:22-46 | the result is None exactly when a matching meta tag lacks content (no partial record); the title is the title string or "No title" |
| MetaTags.TextFieldLastWins | serpapi_search.py:24-40 | description, keywords and location are the content of the last tag setting them, else "" |
| MetaTags.TimeFromLastMeta | serpapi_search.py:36-38 | the time is the content of the last tag with a time property, and the `<time>` fallback is not used |
| MetaTags.TimeFallback | serpapi_search.py:43-46 | with no time meta tag, the time is the first `<time>` tag's datetime attribute, else its text; None without a `<time>` tag |
| MetaTags.NormalizeTime | serpapi_search.py:49-53 | only a non-empty time changes: to its ISO form, or to the current time when parsing fails; all other fields are kept |
| MetaTags.FetchMetadata | serpapi_search.py:15-58 | None when the page cannot be fetched or a matching meta tag lacks content; otherwise a record with the page's title |
| ImageSearch.OriginalUrls | serpapi_search.py:79 | at most one URL per result, each the `original` value of some result |
| ImageSearch.ImageLookup | serpapi_search.py:76-79 | a missing `images_results` gives no URLs; never more URLs than results |
| ImageSearch.OriginalUrlsAligned | serpapi_search.py:79 | exactly the results with an `original` key contribute, in input order, each yielding that key's value |
| ImageSearch.DistinctSize | serpapi_search.py:60-62 | a list has at most as many distinct elements as entries, with equality iff it has no duplicates |
| ImageSearch.CountUrls | serpapi_search.py:60-62 | the count is the list length, duplicates included; it is at least the number of distinct URLs and equals it iff there are no duplicates |
| ImageSearch.CountUniqueUrls | serpapi_search.py:60-62 | the unique count is the number of distinct URLs in the list; it is at most the list length, equal iff no duplicates, and positive for a non-empty list |
| ImageSearch.CountUrlsCountsDuplicates | serpapi_search.py:60-62 | a list with one URL twice counts 2 although it holds one unique URL |

## Left out

- Network and file I/O are not modelled; their answers are oracle parameters. This covers `requests.get`, `read_image_url`, `read_local_image`, the urllib opener and cookie jar, and the JSON dumps. Side effects are invisible to the properties.
- CLIP is not modelled; the `embed` oracle stands in for it. This covers `get_model_info` and the tensor computation inside `get_single_image_embedding`. It is floating-point inference, and the embedding is opaque, so its 512-element length is not stated.
- PIL decoding is not modelled; the `opens` and `decodeRgb` oracles stand in for it. Plotting and image resizing in `plot_top_matches_seaborn` (utils.py:115-141) are left out as presentation.
- BeautifulSoup parsing is left out; the document arrives as title, meta tags and time tags. `fromisoformat` and the clock are parameters, since one is a library parser and the other is nondeterministic.
- The SerpApi request in `image_lookup` and everything in main.py are left out. That includes the prompts, Pinecone index creation, upsert and query, and the script wiring. All of it is external service calls or interactive I/O.
- Logging `print` calls are not modelled; they do not affect results.
- Scores are integers. Float scores, NaN and mixed-type comparisons that would raise `TypeError` in `max`/`sorted` are not modelled.
- Text.Lower: maps only ASCII letters. Python's `str.lower` also maps non-ASCII characters, some onto ASCII (the Kelvin sign becomes `k`). A tag named with such characters would match in Python but not in the model.
- MetaTags.ApplyMeta: attribute values are strings. BeautifulSoup's multi-valued attributes, on which `.lower()` would raise, are not modelled.

## Findings

| source | as written | input that shows it | evidently intended | confidence | as-written member | corrected member |
|---|---|---|---|---|---|---|
| serpapi_search.py:60-62 | `count_urls` returns `len(urls)`, while its docstring and its caller's message announce the number of unique URLs | `["u", "u"]` gives 2, but there is one unique URL | count distinct URLs (1 here) | medium, not executed | ImageSearch.CountUrlsCountsDuplicates | ImageSearch.CountUniqueUrls |
