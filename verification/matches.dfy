/**
  Match selection over a vector-index query result (utils.py):
  `extract_highest_score` and the top-5 selection of `plot_top_matches_seaborn`.
  A match field that the code reads but the payload lacks raises `KeyError`.
*/
module Matches {
  import opened Wrappers
  import opened Ranking

  /** One entry of `matches`: `id`, `score` and `metadata` may each be missing. */
  datatype Match = Match(id: Option<string>, score: Option<int>, metadata: Option<map<string, string>>)

  /** The `matches` field of a query result: missing, some non-list value, or a list. */
  datatype MatchesField = Absent | NotAList | List(items: seq<Match>)

  datatype QueryResult = QueryResult(matches: MatchesField)

  /** The dictionary `{'id': ..., 'score': ..., 'image_url': ...}` built for the best match. */
  datatype Highest = Highest(id: string, score: int, imageUrl: string)

  /** The exception raised by a missing dictionary key. */
  datatype KeyError = KeyError(key: string)

  const TopCount: nat := 5

  /** The guard shared by both functions: `matches` is present, is a list and is not empty. */
  function NonEmptyMatches(q: QueryResult): (r: Option<seq<Match>>)
    ensures r.Some? <==> q.matches.List? && q.matches.items != []
    ensures r.Some? ==> r.value == q.matches.items
  {
    match q.matches
    case List(items) => if |items| > 0 then Some(items) else None
    case _ => None
  }

  predicate AllScored(ms: seq<Match>) {
    forall i :: 0 <= i < |ms| ==> ms[i].score.Some?
  }

  /** The sort and `max` key `x['score']`; only consulted once every match has a score. */
  function ScoreOf(m: Match): int {
    m.score.GetOr(0)
  }

  /** The best match carries everything the result dictionary reads from it. */
  predicate Complete(m: Match) {
    m.id.Some? && m.metadata.Some? && "image" in m.metadata.value
  }

  /**
    `extract_highest_score`: None exactly when there is no non-empty match
    list; otherwise the id, score and metadata image of the FIRST match with
    the greatest score, or the KeyError for the first key that is missing.
  */
  function ExtractHighestScore(q: QueryResult): (r: Result<Option<Highest>, KeyError>)
    ensures r == Ok(None) <==> NonEmptyMatches(q).None?
    ensures NonEmptyMatches(q).Some? && !AllScored(q.matches.items) ==> r == Err(KeyError("score"))
    ensures r.Err? <==>
      && NonEmptyMatches(q).Some?
      && (!AllScored(q.matches.items) || !Complete(q.matches.items[ArgMaxFirst(q.matches.items, ScoreOf)]))
    ensures r.Ok? && r.value.Some? ==>
      var ms, h := q.matches.items, r.value.value;
      && q.matches.List?
      && (forall j :: 0 <= j < |ms| ==> ms[j].score.Some? && ms[j].score.value <= h.score)
      && (exists k :: 0 <= k < |ms|
            && (forall j :: 0 <= j < k ==> ms[j].score.value < h.score)
            && ms[k].score == Some(h.score)
            && ms[k].id == Some(h.id)
            && ms[k].metadata.Some? && "image" in ms[k].metadata.value
            && ms[k].metadata.value["image"] == h.imageUrl)
  {
    match NonEmptyMatches(q)
    case None => Ok(None)
    case Some(ms) =>
      if !AllScored(ms) then Err(KeyError("score"))
      else
        var m := ms[ArgMaxFirst(ms, ScoreOf)];
        if m.id.None? then Err(KeyError("id"))
        else if m.metadata.None? then Err(KeyError("metadata"))
        else if "image" !in m.metadata.value then Err(KeyError("image"))
        else Ok(Some(Highest(m.id.value, m.score.value, m.metadata.value["image"])))
  }

  /**
    `sorted(matches, key=lambda x: x['score'], reverse=True)[:5]`: at most five
    matches, best first, ties in their original order, no omitted match
    scoring above a selected one; KeyError when some match has no score.
  */
  function TopMatches(ms: seq<Match>): (r: Result<seq<Match>, KeyError>)
    ensures r.Ok? <==> AllScored(ms)
    ensures r.Err? ==> r.error == KeyError("score")
    ensures r.Ok? ==>
      && |r.value| == (if |ms| < TopCount then |ms| else TopCount)
      && SortedDesc(r.value, ScoreOf)
      && multiset(r.value) <= multiset(ms)
      && (forall k :: WithKey(r.value, ScoreOf, k) <= WithKey(ms, ScoreOf, k))
      && (forall i, x :: 0 <= i < |r.value| && x in multiset(ms) - multiset(r.value) ==>
            ScoreOf(x) <= ScoreOf(r.value[i]))
  {
    if !AllScored(ms) then Err(KeyError("score"))
    else Ok(TopN(ms, ScoreOf, TopCount))
  }

  /**
    The selection is the first five of the one arrangement of the matches
    that is in non-increasing score order and keeps equal scores in their
    original order.
  */
  lemma TopMatchesIsStableOrderPrefix(ms: seq<Match>, arranged: seq<Match>)
    requires AllScored(ms)
    requires SortedDesc(arranged, ScoreOf)
    requires forall k :: WithKey(arranged, ScoreOf, k) == WithKey(ms, ScoreOf, k)
    ensures TopMatches(ms) == Ok(Take(arranged, TopCount))
  {
    StableSortCharacterized(ms, arranged, ScoreOf);
  }

  /**
    The two selections agree: on a well-formed result, the match
    `extract_highest_score` reports is the first of the top matches.
  */
  lemma HighestIsFirstOfTop(q: QueryResult)
    requires NonEmptyMatches(q).Some? && AllScored(q.matches.items)
    requires Complete(TopMatches(q.matches.items).value[0])
    ensures var top := TopMatches(q.matches.items).value[0];
      ExtractHighestScore(q) == Ok(Some(Highest(top.id.value, top.score.value, top.metadata.value["image"])))
  {
    SortHeadIsFirstMax(q.matches.items, ScoreOf);
  }
}
