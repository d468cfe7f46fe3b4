/**
 * `EmbeddingSearcher.search`: rank the stored rows by their similarity to a
 * query and return the metadata of the best `top_k` of them.
 *
 * The similarity scores (cosine similarity of fastText vectors) and the
 * ascending order `np.argsort` puts them in are inputs of the model: the
 * scores are any sequence of reals, and the order is any permutation of the
 * row indices that sorts them ascending. `np.argsort` sorts with an unstable
 * algorithm, so among equal scores every such permutation is possible.
 */
module Search {
  import opened Wrappers
  import opened Seqs
  import Ingestion

  // ----- Index sequences -------------------------------------------------

  /** No index occurs twice. */
  predicate Distinct(xs: seq<int>) {
    forall i, j :: 0 <= i < j < |xs| ==> xs[i] != xs[j]
  }

  /** Every index addresses one of `n` rows. */
  predicate InRange(xs: seq<int>, n: int) {
    forall i :: 0 <= i < |xs| ==> 0 <= xs[i] < n
  }

  /** The row indices `0..n-1` as a set. */
  function Indices(n: nat): (r: set<int>)
    ensures forall i :: i in r <==> 0 <= i < n
  {
    if n == 0 then {} else Indices(n - 1) + {n - 1}
  }

  /** `np.argsort(scores)`: a permutation of the row indices under which the scores ascend. */
  predicate IsArgsort(scores: seq<real>, order: seq<int>) {
    |order| == |scores| && InRange(order, |scores|) && Distinct(order) &&
    (forall j :: 0 <= j < |scores| ==> j in order) &&
    forall i, j :: 0 <= i < j < |order| ==> scores[order[i]] <= scores[order[j]]
  }

  /** `xs[::-1]`. */
  function Reversed<T>(xs: seq<T>): (r: seq<T>)
    ensures |r| == |xs| && forall i :: 0 <= i < |xs| ==> r[i] == xs[|xs| - 1 - i]
  {
    seq(|xs|, i requires 0 <= i < |xs| => xs[|xs| - 1 - i])
  }

  /** Where a Python slice `xs[start:]` of a sequence of length `n` begins. */
  function SliceStart(n: nat, start: int): (s: nat)
    ensures s <= n
  {
    if start < 0 then (if start + n < 0 then 0 else start + n)
    else if start > n then n
    else start
  }

  /**
   * `np.argsort(similarities)[-top_k:][::-1]`: the last `ResultCount` entries
   * of `order`, read from the back.
   */
  function TopIndices(order: seq<int>, topK: int): (xs: seq<int>)
    ensures |xs| == ResultCount(|order|, topK)
    ensures forall t :: 0 <= t < |xs| ==> xs[t] == order[|order| - 1 - t]
  {
    Reversed(order[SliceStart(|order|, -topK)..])
  }

  /**
   * How many rows the slice keeps, as the slice rules give it: `min(k, n)`
   * for a positive `k`; all `n` rows for `k == 0`, because `-0` is `0`; and
   * for a negative `k` all but the `-k` lowest-ranked rows.
   */
  function ResultCount(n: nat, k: int): (r: nat)
    ensures r <= n && r == n - SliceStart(n, -k)
  {
    if k >= 1 then (if k < n then k else n)
    else if k == 0 then n
    else if n + k > 0 then n + k
    else 0
  }

  // ----- What a top-k answer is --------------------------------------------

  /** The scores of `xs` never increase along it. */
  predicate NonIncreasing(scores: seq<real>, xs: seq<int>)
    requires InRange(xs, |scores|)
  {
    forall i, j :: 0 <= i < j < |xs| ==> scores[xs[i]] >= scores[xs[j]]
  }

  /**
   * `xs` is a ranked selection from `pool`: distinct members of the pool in
   * non-increasing score order, and no member of the pool left out scores
   * above any member taken.
   */
  predicate RankedFrom(scores: seq<real>, pool: set<int>, xs: seq<int>) {
    pool <= Indices(|scores|) && InRange(xs, |scores|) &&
    (forall i :: 0 <= i < |xs| ==> xs[i] in pool) &&
    Distinct(xs) && NonIncreasing(scores, xs) &&
    forall j, t :: j in pool && j !in xs && 0 <= t < |xs| ==> scores[j] <= scores[xs[t]]
  }

  /** A correct answer for `k` over all rows: `ResultCount(n, k)` best rows, best first. */
  predicate IsTopK(scores: seq<real>, xs: seq<int>, k: int) {
    |xs| == ResultCount(|scores|, k) && RankedFrom(scores, Indices(|scores|), xs)
  }

  /** No two rows share a score. */
  predicate Injective(scores: seq<real>) {
    forall i, j :: 0 <= i < |scores| && 0 <= j < |scores| && i != j ==> scores[i] != scores[j]
  }

  /** Whatever order `np.argsort` picks among ties, the selection is a correct top-k answer. */
  lemma TopIndicesCorrect(scores: seq<real>, order: seq<int>, k: int)
    requires IsArgsort(scores, order)
    ensures IsTopK(scores, TopIndices(order, k), k)
  {
    TopIndicesSorted(scores, order, k);
    TopIndicesDominate(scores, order, k);
  }

  /** The selected rows are distinct, in range and non-increasing by score. */
  lemma TopIndicesSorted(scores: seq<real>, order: seq<int>, k: int)
    requires IsArgsort(scores, order)
    ensures var xs := TopIndices(order, k);
      InRange(xs, |scores|) && Distinct(xs) && NonIncreasing(scores, xs)
  {
  }

  /** No row left out of the selection scores above a selected one. */
  lemma TopIndicesDominate(scores: seq<real>, order: seq<int>, k: int)
    requires IsArgsort(scores, order)
    ensures var xs := TopIndices(order, k);
      forall j, t :: j in Indices(|scores|) && j !in xs && 0 <= t < |xs| ==> scores[j] <= scores[xs[t]]
  {
    var start := SliceStart(|order|, -k);
    var xs := TopIndices(order, k);
    forall q | start <= q < |order|
      ensures order[q] in xs
    {
      assert xs[|order| - 1 - q] == order[q];
    }
    forall j, t | j in Indices(|scores|) && j !in xs && 0 <= t < |xs|
      ensures scores[j] <= scores[xs[t]]
    {
      assert j in order;
      var p :| 0 <= p < |order| && order[p] == j;
      assert p < |order| - 1 - t;
    }
  }

  /**
   * With distinct scores there is only one correct answer for a given pool and
   * length: the first element must be the pool's best row, and the rest is an
   * answer for the pool without it.
   */
  lemma {:induction false} RankedUnique(scores: seq<real>, pool: set<int>, xs: seq<int>, ys: seq<int>)
    requires Injective(scores)
    requires RankedFrom(scores, pool, xs) && RankedFrom(scores, pool, ys) && |xs| == |ys|
    ensures xs == ys
    decreases |xs|
  {
    if xs != [] {
      var x, y := xs[0], ys[0];
      assert x == y by {
        FirstIsBest(scores, pool, xs, y);
        FirstIsBest(scores, pool, ys, x);
      }
      RankedTail(scores, pool, xs);
      RankedTail(scores, pool, ys);
      RankedUnique(scores, pool - {x}, xs[1..], ys[1..]);
      SameHeadAndTail(xs, ys);
    }
  }

  /** The first row of a nonempty ranked selection scores at least as high as any row of its pool. */
  lemma FirstIsBest(scores: seq<real>, pool: set<int>, xs: seq<int>, j: int)
    requires RankedFrom(scores, pool, xs) && xs != [] && j in pool
    ensures scores[j] <= scores[xs[0]]
  {
    if j in xs {
      var t :| 0 <= t < |xs| && xs[t] == j;
      if t > 0 {
        assert scores[xs[0]] >= scores[xs[t]];
      }
    }
  }

  /** Dropping the best row of a ranked selection leaves a ranked selection of the remaining pool. */
  lemma RankedTail(scores: seq<real>, pool: set<int>, xs: seq<int>)
    requires RankedFrom(scores, pool, xs) && xs != []
    ensures RankedFrom(scores, pool - {xs[0]}, xs[1..])
  {
    var rest := pool - {xs[0]};
    var tl := xs[1..];
    forall j, t | j in rest && j !in tl && 0 <= t < |tl|
      ensures scores[j] <= scores[tl[t]]
    {
      assert j != xs[0];
      assert j !in xs;
      assert tl[t] == xs[t + 1];
    }
  }

  /** When all scores differ, every correct answer is the one the slice gives. */
  lemma TopKUnique(scores: seq<real>, order: seq<int>, k: int, xs: seq<int>)
    requires Injective(scores) && IsArgsort(scores, order)
    requires IsTopK(scores, xs, k)
    ensures xs == TopIndices(order, k)
  {
    TopIndicesCorrect(scores, order, k);
    RankedUnique(scores, Indices(|scores|), xs, TopIndices(order, k));
  }

  /** With a tie `np.argsort` may put either of two equal rows first ... */
  lemma TieSortsBothWays()
    ensures IsArgsort([0.5, 0.5], [0, 1]) && IsArgsort([0.5, 0.5], [1, 0])
  {
    var up, down := [0, 1], [1, 0];
    assert up[0] == 0 && up[1] == 1 && down[0] == 1 && down[1] == 0;
    assert 0 in up && 1 in up && 0 in down && 1 in down;
  }

  /** ... and the two rows then come back in opposite orders, so the answer's order is not determined. */
  lemma TieRanksBothWays()
    ensures TopIndices([0, 1], 2) == [1, 0] && TopIndices([1, 0], 2) == [0, 1]
  {
    var up, down := [0, 1], [1, 0];
    assert up[0..] == up && down[0..] == down;
    var a, b := TopIndices(up, 2), TopIndices(down, 2);
    assert a[0] == 1 && a[1] == 0;
    assert b[0] == 0 && b[1] == 1;
  }

  // ----- The searcher --------------------------------------------------------

  /** One entry of the list `search` returns. */
  datatype SearchResult = SearchResult(similarity: real, text: string, company: string, category: string, fileName: string)

  /** Why `search` raises. */
  datatype SearchError =
    | EmptyStore        // cosine similarity against a matrix of no rows is refused
    | MissingMetadata   // `metadata.iloc[idx]` past the end of a shorter metadata table

  /** The result for row `idx`: its score and the fields of metadata row `idx`. */
  function Hit(scores: seq<real>, meta: seq<Ingestion.Metadata>, idx: int): SearchResult
    requires 0 <= idx < |scores| && 0 <= idx < |meta|
  {
    SearchResult(scores[idx], meta[idx].text, meta[idx].company, meta[idx].category, meta[idx].fileName)
  }

  /** Every selected row has a metadata row. */
  predicate Covered(meta: seq<Ingestion.Metadata>, idxs: seq<int>) {
    forall t :: 0 <= t < |idxs| ==> idxs[t] < |meta|
  }

  /**
   * The result list for the selected rows: it fails, with `MissingMetadata`,
   * exactly when a selected row has no metadata row; otherwise entry `t` is
   * the hit of the `t`-th selected row.
   */
  function Assemble(scores: seq<real>, meta: seq<Ingestion.Metadata>, idxs: seq<int>): (r: Result<seq<SearchResult>, SearchError>)
    requires InRange(idxs, |scores|)
    ensures r.Ok? <==> Covered(meta, idxs)
    ensures r.Err? ==> r.error == MissingMetadata
    ensures r.Ok? ==> |r.value| == |idxs| && forall t :: 0 <= t < |idxs| ==> r.value[t] == Hit(scores, meta, idxs[t])
  {
    if Covered(meta, idxs) then Ok(seq(|idxs|, t requires 0 <= t < |idxs| && Covered(meta, idxs) => Hit(scores, meta, idxs[t])))
    else Err(MissingMetadata)
  }

  /**
   * The two tables loaded in `__init__`; nothing assigns them afterwards.
   * They are read from separate files, so their lengths need not agree.
   */
  class EmbeddingSearcher {
    const embeddings: seq<Ingestion.Vector>
    const metadata: seq<Ingestion.Metadata>

    constructor (embeddings: seq<Ingestion.Vector>, metadata: seq<Ingestion.Metadata>)
      ensures this.embeddings == embeddings && this.metadata == metadata
    {
      this.embeddings := embeddings;
      this.metadata := metadata;
    }

    /**
     * What `search` returns for the given scores and argsort order. It fails
     * exactly when the store is empty or a selected row has no metadata row,
     * which cannot happen when the metadata table is as long as the matrix.
     * A success holds `ResultCount(n, top_k)` results, best first, each
     * carrying its row's score and metadata, and no left-out row scores
     * above a returned one.
     */
    function Answer(scores: seq<real>, order: seq<int>, topK: int): (r: Result<seq<SearchResult>, SearchError>)
      requires |scores| == |embeddings| && IsArgsort(scores, order)
      ensures r.Ok? <==> |embeddings| > 0 && Covered(metadata, TopIndices(order, topK))
      ensures |embeddings| == 0 ==> r == Err(EmptyStore)
      ensures |embeddings| > 0 && |metadata| >= |embeddings| ==> r.Ok?
      ensures r.Ok? ==>
        var idxs := TopIndices(order, topK);
        |r.value| == |idxs| == ResultCount(|scores|, topK) && IsTopK(scores, idxs, topK) &&
        forall t :: 0 <= t < |r.value| ==> r.value[t] == Hit(scores, metadata, idxs[t])
    {
      if |embeddings| == 0 then Err(EmptyStore)
      else
        TopIndicesCorrect(scores, order, topK);
        Assemble(scores, metadata, TopIndices(order, topK))
    }

    /**
     * `search(query, top_k)` with `scores` the cosine similarities of the
     * query to each stored row and `order` the result of `np.argsort(scores)`.
     */
    method Search(scores: seq<real>, order: seq<int>, topK: int) returns (r: Result<seq<SearchResult>, SearchError>)
      requires |scores| == |embeddings| && IsArgsort(scores, order)
      ensures r == Answer(scores, order, topK)
    {
      if |embeddings| == 0 {
        return Err(EmptyStore);
      }
      var start := SliceStart(|order|, -topK);
      var topIndices := Reversed(order[start..]);
      TopIndicesCorrect(scores, order, topK);
      var results: seq<SearchResult> := [];
      for t := 0 to |topIndices|
        invariant forall s :: 0 <= s < t ==> topIndices[s] < |metadata|
        invariant |results| == t
        invariant forall s :: 0 <= s < t ==> results[s] == Hit(scores, metadata, topIndices[s])
      {
        var idx := topIndices[t];
        if idx >= |metadata| {
          return Err(MissingMetadata);
        }
        results := results + [Hit(scores, metadata, idx)];
      }
      assert Covered(metadata, topIndices);
      assert Assemble(scores, metadata, topIndices).value == results;
      return Ok(results);
    }
  }
}
