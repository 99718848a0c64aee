/** The reranker: re-scores retrieval candidates with a cross-encoder and
    orders them by the new score. The cross-encoder is abstract: a scoring
    function from a (query, document) pair to a real score. */
module Reranker {
  import opened Base
  import opened StableSort

  /** A registry entry: the full model name, a description, and the model's
      maximum input length. */
  datatype ModelInfo = ModelInfo(name: string, description: string, maxLength: nat)

  /** The models the reranker knows by short name. */
  const Registry: map<string, ModelInfo> := map[
    "ms-marco-MiniLM-L-6-v2" := ModelInfo("cross-encoder/ms-marco-MiniLM-L-6-v2",
                                          "Fast and efficient, good for general use (22M params)", 512),
    "ms-marco-MiniLM-L-12-v2" := ModelInfo("cross-encoder/ms-marco-MiniLM-L-12-v2",
                                           "Better accuracy than L-6, still fast (33M params)", 512),
    "bge-reranker-base" := ModelInfo("BAAI/bge-reranker-base",
                                     "Good balance of performance and accuracy (278M params)", 512),
    "bge-reranker-large" := ModelInfo("BAAI/bge-reranker-large",
                                      "High accuracy, suitable for quality-critical applications (560M params)", 512),
    "bge-reranker-v2-m3" := ModelInfo("BAAI/bge-reranker-v2-m3",
                                      "Multilingual support, good for Chinese and other languages", 8192)
  ]

  const DefaultModel: string := "ms-marco-MiniLM-L-6-v2"

  /** What a constructed reranker remembers about its model: the name it was
      asked for, the registry entry (or a custom one), the name handed to the
      cross-encoder loader, and the maximum input length. */
  datatype Config = Config(modelName: string, info: ModelInfo, fullModelName: string, maxLength: nat)

  /** The information `get_model_info` returns: `model_name` merged with the
      model's entry. */
  datatype ModelInfoView = ModelInfoView(modelName: string, name: string, description: string, maxLength: nat)

  /** The lookup `Reranker.__init__` performs: a registered name yields its
      entry and that entry's full name; any other name is used directly, with
      a "Custom model" entry of maximum length 512. */
  function NewReranker(modelName: string): (c: Config)
    ensures c.modelName == modelName
    ensures modelName in Registry ==> c.info == Registry[modelName] && c.fullModelName == Registry[modelName].name
    ensures modelName !in Registry ==> c.info == ModelInfo(modelName, "Custom model", 512) && c.fullModelName == modelName
    ensures c.maxLength == c.info.maxLength
  {
    var info := if modelName in Registry then Registry[modelName] else ModelInfo(modelName, "Custom model", 512);
    Config(modelName, info, info.name, info.maxLength)
  }

  /** `Reranker.get_model_info`. */
  function GetModelInfo(c: Config): (v: ModelInfoView)
    ensures v.modelName == c.modelName
    ensures v.name == c.info.name && v.description == c.info.description && v.maxLength == c.info.maxLength
  {
    ModelInfoView(c.modelName, c.info.name, c.info.description, c.info.maxLength)
  }

  /** `Reranker.list_available_models`: a copy of the registry. */
  function ListAvailableModels(): map<string, ModelInfo>
  {
    Registry
  }

  /** The default model is registered, so a reranker built with no name asked
      for loads the registry's full name and reports its entry. */
  lemma DefaultModelInfo()
    ensures var v := GetModelInfo(NewReranker(DefaultModel));
            v == ModelInfoView(DefaultModel, "cross-encoder/ms-marco-MiniLM-L-6-v2",
                               "Fast and efficient, good for general use (22M params)", 512)
  {
  }

  /** For every model name: a registered one reports its registry entry
      under the name asked for; any other reports itself as a custom model
      of maximum length 512. */
  lemma ModelInfoOfNewReranker(modelName: string)
    ensures var v := GetModelInfo(NewReranker(modelName));
            && v.modelName == modelName
            && (modelName in Registry ==>
                  v == ModelInfoView(modelName, Registry[modelName].name, Registry[modelName].description,
                                     Registry[modelName].maxLength))
            && (modelName !in Registry ==> v == ModelInfoView(modelName, modelName, "Custom model", 512))
  {
  }

  /** The length of `s[:top_k]` under the guard `top_k is not None and
      top_k < len(s)`, with Python's slicing of a negative bound (counted
      from the end, clamped at 0). */
  function PrefixLength(n: nat, topK: Option<int>): (k: nat)
    ensures k <= n
    ensures topK.None? ==> k == n
    ensures topK.Some? && topK.value >= 0 ==> k == if topK.value < n then topK.value else n
  {
    if topK.None? || topK.value >= n then n
    else if topK.value >= 0 then topK.value
    else if n + topK.value >= 0 then n + topK.value
    else 0
  }

  /** `if top_k is not None and top_k < len(s): s = s[:top_k]`. */
  function Truncate<T>(s: seq<T>, topK: Option<int>): (r: seq<T>)
    ensures |r| == PrefixLength(|s|, topK)
    ensures r == s[..|r|]
  {
    s[..PrefixLength(|s|, topK)]
  }

  lemma PrefixIsRanking<D>(s: seq<Ranked<D>>, k: nat)
    requires IsRanking(s) && k <= |s|
    ensures IsRanking(s[..k])
  {
    forall i, j | 0 <= i < j < k ensures Before(s[..k][i], s[..k][j]) {
      assert Before(s[i], s[j]);
    }
  }

  /** A ranking of the enumerated documents holds each document exactly once,
      each carrying its own score. */
  lemma {:induction false} EnumeratedRanking<D>(score: D -> real, docs: seq<D>, r: seq<Ranked<D>>)
    requires multiset(r) == multiset(Enumerate(score, docs))
    ensures |r| == |docs|
    ensures forall k :: 0 <= k < |r| ==> r[k].index < |docs| && r[k] == Ranked(r[k].index, score(docs[r[k].index]), docs[r[k].index])
    ensures forall i :: 0 <= i < |docs| ==> HasIndex(r, i)
  {
    var e := Enumerate(score, docs);
    assert |r| == |multiset(r)| == |multiset(e)| == |docs|;
    forall k | 0 <= k < |r|
      ensures r[k].index < |docs| && r[k] == Ranked(r[k].index, score(docs[r[k].index]), docs[r[k].index])
    {
      assert r[k] in multiset(e);
      var j :| 0 <= j < |e| && e[j] == r[k];
    }
    forall i | 0 <= i < |docs| ensures HasIndex(r, i) {
      assert e[i] in multiset(r);
      var k :| 0 <= k < |r| && r[k] == e[i];
    }
  }

  /** The full ranking: every document scored against the query and stably
      sorted by score, descending. */
  function FullRanking<D>(predict: (string, D) -> real, query: string, documents: seq<D>): (r: seq<Ranked<D>>)
    ensures IsRanking(r)
    ensures multiset(r) == multiset(Enumerate(d => predict(query, d), documents))
  {
    Sort(Enumerate(d => predict(query, d), documents))
  }

  /** `Reranker.rerank`: the documents ordered by cross-encoder score, highest
      first, equal scores in input order, cut to `top_k`. Each entry carries
      its original index, its score and its document. */
  function Rerank<D>(predict: (string, D) -> real, query: string, documents: seq<D>, topK: Option<int>): (r: seq<Ranked<D>>)
    ensures |documents| == 0 ==> r == []
    ensures |r| == PrefixLength(|documents|, topK)
    ensures IsRanking(r)
    ensures forall k :: 0 <= k < |r| ==>
              && r[k].index < |documents|
              && r[k].doc == documents[r[k].index]
              && r[k].score == predict(query, documents[r[k].index])
  {
    if |documents| == 0 then []
    else
      var full := FullRanking(predict, query, documents);
      EnumeratedRanking(d => predict(query, d), documents, full);
      var r := Truncate(full, topK);
      PrefixIsRanking(full, |r|);
      r
  }

  /** With no `top_k`, the output indices are a permutation of `0..n-1`. */
  lemma RerankIsPermutation<D>(predict: (string, D) -> real, query: string, documents: seq<D>)
    ensures var r := Rerank(predict, query, documents, None);
            && |r| == |documents|
            && (forall i :: 0 <= i < |documents| ==> HasIndex(r, i))
            && (forall k, j :: 0 <= k < j < |r| ==> r[k].index != r[j].index)
  {
    var r := Rerank(predict, query, documents, None);
    if |documents| > 0 {
      var full := FullRanking(predict, query, documents);
      EnumeratedRanking(d => predict(query, d), documents, full);
      assert r == full;
    }
    forall k, j | 0 <= k < j < |r| ensures r[k].index != r[j].index {
      assert Before(r[k], r[j]);
    }
  }

  /** A `top_k` of zero or more keeps a prefix of the full ranking. */
  lemma RerankTopKIsPrefix<D>(predict: (string, D) -> real, query: string, documents: seq<D>, k: int)
    requires k >= 0
    ensures var full := Rerank(predict, query, documents, None);
            Rerank(predict, query, documents, Some(k)) == full[..if k < |full| then k else |full|]
  {
  }

  /** The reranked list is a prefix of the full ranking. */
  lemma RerankIsPrefix<D>(predict: (string, D) -> real, query: string, documents: seq<D>, topK: Option<int>)
    requires |documents| > 0
    ensures var r := Rerank(predict, query, documents, topK);
            r == FullRanking(predict, query, documents)[..|r|]
  {
  }

  /** Truncation keeps the best: a document left out scores no higher than
      any document kept (and, on a tie, comes later in the input). */
  lemma RerankKeepsBest<D>(predict: (string, D) -> real, query: string, documents: seq<D>, topK: Option<int>, i: nat)
    requires i < |documents|
    requires forall k :: 0 <= k < |Rerank(predict, query, documents, topK)| ==>
               Rerank(predict, query, documents, topK)[k].index != i
    ensures forall k :: 0 <= k < |Rerank(predict, query, documents, topK)| ==>
              Before(Rerank(predict, query, documents, topK)[k], Ranked(i, predict(query, documents[i]), documents[i]))
  {
    var r := Rerank(predict, query, documents, topK);
    var full := FullRanking(predict, query, documents);
    RerankIsPrefix(predict, query, documents, topK);
    EnumeratedRanking(d => predict(query, d), documents, full);
    assert HasIndex(full, i);
    var p :| 0 <= p < |full| && full[p].index == i;
    forall k | 0 <= k < |r| ensures full[k].index != i {
      assert r[k] == full[k];
    }
    assert p >= |r|;
    assert full[p] == Ranked(i, predict(query, documents[i]), documents[i]);
    forall k | 0 <= k < |r| ensures Before(r[k], full[p]) {
      assert r[k] == full[k];
    }
  }

  /** The text `rerank_results` scores for each result: the value under
      `content_key`, or "" when the key is missing. */
  function ContentsOf(results: seq<Dict>, contentKey: string): (docs: seq<Value>)
    ensures |docs| == |results|
    ensures forall i :: 0 <= i < |results| ==> docs[i] == Get(results[i], contentKey, VStr(""))
  {
    seq(|results|, i requires 0 <= i < |results| => Get(results[i], contentKey, VStr("")))
  }

  /** A reranked copy of one result: `original_score` is the previous score
      (0 when there was none), `score` is the new score, `reranked` is true,
      and every other key keeps its value. */
  function Stamp(d: Dict, newScore: real): (out: Dict)
    ensures out.Keys == d.Keys + {"original_score", "score", "reranked"}
    ensures out["original_score"] == (if "score" in d then d["score"] else VInt(0))
    ensures out["score"] == VFloat(newScore)
    ensures out["reranked"] == VBool(true)
    ensures forall k :: k in d && k != "original_score" && k != "score" && k != "reranked" ==> out[k] == d[k]
  {
    d["original_score" := Get(d, "score", VInt(0))]["score" := VFloat(newScore)]["reranked" := VBool(true)]
  }

  /** `Reranker.rerank_results`: the results reranked by the score of their
      content, each stamped by `Stamp`, cut to `top_k`. The input results are
      values and so are never changed. */
  function RerankResults(predict: (string, Value) -> real, query: string, results: seq<Dict>,
                         contentKey: string, topK: Option<int>): (out: seq<Dict>)
    ensures |results| == 0 ==> out == []
    ensures |out| == PrefixLength(|results|, topK)
    ensures var ranking := Rerank(predict, query, ContentsOf(results, contentKey), None);
            |ranking| == |results| &&
            forall k :: 0 <= k < |out| ==> ranking[k].index < |results| && out[k] == Stamp(results[ranking[k].index], ranking[k].score)
  {
    if |results| == 0 then []
    else
      var ranking := Rerank(predict, query, ContentsOf(results, contentKey), None);
      var stamped := seq(|ranking|, k requires 0 <= k < |ranking| => Stamp(results[ranking[k].index], ranking[k].score));
      Truncate(stamped, topK)
  }

  /** What `rerank_results` promises about its output in terms of the input:
      each entry is a stamped copy of a distinct input result scored on its
      content, every entry is marked reranked, and the new scores are
      non-increasing with ties in input order. */
  lemma RerankResultsMeaning(predict: (string, Value) -> real, query: string, results: seq<Dict>,
                             contentKey: string, topK: Option<int>)
    ensures var out := RerankResults(predict, query, results, contentKey, topK);
            var ranking := Rerank(predict, query, ContentsOf(results, contentKey), None);
            && (forall k :: 0 <= k < |out| ==>
                  var i := ranking[k].index;
                  && i < |results|
                  && out[k] == Stamp(results[i], predict(query, Get(results[i], contentKey, VStr(""))))
                  && out[k]["reranked"] == VBool(true))
            && (forall k, j :: 0 <= k < j < |out| ==>
                  && ranking[k].index != ranking[j].index
                  && ranking[k].score >= ranking[j].score
                  && (ranking[k].score == ranking[j].score ==> ranking[k].index < ranking[j].index))
  {
    var out := RerankResults(predict, query, results, contentKey, topK);
    var ranking := Rerank(predict, query, ContentsOf(results, contentKey), None);
    forall k, j | 0 <= k < j < |out|
      ensures ranking[k].index != ranking[j].index
      ensures ranking[k].score >= ranking[j].score
      ensures ranking[k].score == ranking[j].score ==> ranking[k].index < ranking[j].index
    {
      assert Before(ranking[k], ranking[j]);
    }
  }
}
