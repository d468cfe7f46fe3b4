/**
 * `RAGService.get_relevant_context`: the texts of the search results, one
 * per line, best first.
 */
module Rag {
  import opened Wrappers
  import opened Text
  import opened Search

  /** The default `top_k` of `get_relevant_context`, passed on to the searcher unchanged. */
  const DefaultTopK: int := 3

  /** `[r['text'] for r in results]`. */
  function Texts(rs: seq<SearchResult>): (ts: seq<string>)
    ensures |ts| == |rs| && forall i :: 0 <= i < |rs| ==> ts[i] == rs[i].text
  {
    seq(|rs|, i requires 0 <= i < |rs| => rs[i].text)
  }

  /**
   * `"\n".join(...)` of the result texts: a failing search raises through
   * unchanged; no results give the empty context, and otherwise the context
   * starts with the text of the best result.
   */
  function Context(results: Result<seq<SearchResult>, SearchError>): (r: Result<string, SearchError>)
    ensures r.Ok? <==> results.Ok?
    ensures results.Err? ==> r.error == results.error
    ensures results.Ok? && results.value == [] ==> r.value == ""
    ensures results.Ok? && results.value != [] ==>
      |results.value[0].text| <= |r.value| && r.value[..|results.value[0].text|] == results.value[0].text
  {
    match results
    case Ok(rs) => Ok(JoinWith("\n", Texts(rs)))
    case Err(e) => Err(e)
  }

  /**
   * `get_relevant_context(query, top_k)` for a searcher whose rows score
   * `scores` against the query and which `np.argsort` orders as `order`.
   */
  function RelevantContext(searcher: EmbeddingSearcher, scores: seq<real>, order: seq<int>, topK: int): (r: Result<string, SearchError>)
    requires |scores| == |searcher.embeddings| && IsArgsort(scores, order)
    ensures r.Ok? <==> |searcher.embeddings| > 0 && Covered(searcher.metadata, TopIndices(order, topK))
    ensures |searcher.embeddings| == 0 ==> r == Err(EmptyStore)
    ensures r.Err? && |searcher.embeddings| > 0 ==> r == Err(MissingMetadata)
  {
    Context(searcher.Answer(scores, order, topK))
  }

  /** No results give the empty context, and one result gives its text alone. */
  lemma ContextOfFewResults(rs: seq<SearchResult>)
    ensures rs == [] ==> Context(Ok(rs)) == Ok("")
    ensures |rs| == 1 ==> Context(Ok(rs)) == Ok(rs[0].text)
  {
  }

  /** When no result text holds a newline, splitting the context on newlines gives the texts back in ranked order. */
  lemma ContextSplitsBack(rs: seq<SearchResult>)
    requires rs != []
    requires forall i :: 0 <= i < |rs| ==> Excludes('\n', rs[i].text)
    ensures Context(Ok(rs)).Ok? && SplitOn('\n', Context(Ok(rs)).value) == Texts(rs)
  {
    SplitJoin('\n', Texts(rs));
  }

  /** Whatever the texts, splitting and re-joining the context on newlines reproduces it. */
  lemma ContextRejoins(rs: seq<SearchResult>)
    ensures JoinWith("\n", SplitOn('\n', Context(Ok(rs)).value)) == Context(Ok(rs)).value
  {
    JoinSplit('\n', Context(Ok(rs)).value);
  }

  /**
   * With the default `top_k`, at least one stored row, metadata for every row
   * and no newline in any stored text, the context has `min(3, n)` lines:
   * the texts of the best rows, best first.
   */
  lemma DefaultContextLines(searcher: EmbeddingSearcher, scores: seq<real>, order: seq<int>)
    requires |scores| == |searcher.embeddings| && IsArgsort(scores, order)
    requires |searcher.embeddings| >= 1 && |searcher.metadata| >= |searcher.embeddings|
    requires forall i :: 0 <= i < |searcher.metadata| ==> Excludes('\n', searcher.metadata[i].text)
    ensures RelevantContext(searcher, scores, order, DefaultTopK).Ok?
    ensures var lines := SplitOn('\n', RelevantContext(searcher, scores, order, DefaultTopK).value);
      var idxs := TopIndices(order, DefaultTopK);
      |lines| == (if |scores| < 3 then |scores| else 3) &&
      IsTopK(scores, idxs, DefaultTopK) &&
      forall t :: 0 <= t < |lines| ==> lines[t] == searcher.metadata[idxs[t]].text
  {
    var rs := searcher.Answer(scores, order, DefaultTopK).value;
    ContextSplitsBack(rs);
  }
}
