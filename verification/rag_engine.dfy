/** The retrieval orchestrator: document ingestion into both stores,
    retrieval with optional reranking, the combined vector-and-graph mode,
    and context packing.

    The embedding model, the cross-encoder and the index engine's search are
    inputs: `embed` maps text to a vector, `predict` scores a (query,
    content) pair, and `hits` is what the index engine answered for the
    embedded query. Python's salted `hash` is the input `hashId`. */
module RagEngine {
  import opened Base
  import VS = VectorStore
  import GS = GraphStore
  import RR = Reranker
  import CP = ContextPack

  datatype Engine = Engine(vectors: VS.Store, graph: GS.Graph, useReranker: bool, reranker: Option<RR.Config>)

  /** `RAGEngine.__init__`: a reranker is built when reranking is on by
      default or a reranker model is named; the named model wins over the
      default model. */
  function NewEngine(vectors: VS.Store, graph: GS.Graph, rerankerModel: Option<string>, useReranker: bool): (e: Engine)
    ensures e.vectors == vectors && e.graph == graph && e.useReranker == useReranker
    ensures e.reranker.Some? <==> useReranker || Truthy(rerankerModel)
    ensures Truthy(rerankerModel) ==> e.reranker == Some(RR.NewReranker(rerankerModel.value))
    ensures useReranker && !Truthy(rerankerModel) ==> e.reranker == Some(RR.NewReranker(RR.DefaultModel))
  {
    var reranker :=
      if useReranker || Truthy(rerankerModel) then
        Some(RR.NewReranker(if Truthy(rerankerModel) then rerankerModel.value else RR.DefaultModel))
      else None;
    Engine(vectors, graph, useReranker, reranker)
  }

  // ---------------------------------------------------------------- ingestion

  /** One entity dictionary passed to `add_document`: `id` and `name` are
      required keys, `type` and `description` optional ones. */
  datatype EntitySpec = EntitySpec(id: string, name: string, entityType: Option<string>, description: Option<string>)

  /** One write `add_document` performs, in the order it performs them. */
  datatype Step =
    | GraphDocument(docId: string, title: string, content: string, url: Option<string>)
    | VectorInsert(vector: VS.Vector, text: string, key: int)
    | GraphEntity(entityId: string, name: string, entityType: string, description: Option<string>)
    | GraphMention(mentionDoc: string, mentionEntity: string)

  /** The vector id of a document: its hash reduced into `[0, 10^9)`. Python's
      `%` with a positive divisor agrees with Dafny's. */
  function VectorKey(hashId: string -> int, docId: string): (k: int)
    ensures 0 <= k < 1000000000
  {
    hashId(docId) % 1000000000
  }

  /** The upsert and link for each entity, in list order; a missing `type`
      defaults to "Unknown". */
  function EntitySteps(docId: string, entities: seq<EntitySpec>): (steps: seq<Step>)
    ensures |steps| == 2 * |entities|
    ensures forall i :: 0 <= i < |steps| ==> steps[i].GraphEntity? || steps[i].GraphMention?
  {
    if |entities| == 0 then []
    else
      var x := entities[0];
      [GraphEntity(x.id, x.name, x.entityType.GetOr("Unknown"), x.description), GraphMention(docId, x.id)]
        + EntitySteps(docId, entities[1..])
  }

  /** The writes of `add_document`: the graph node first, the vector entry
      second, then the entities. */
  function Plan(embed: string -> VS.Vector, hashId: string -> int, docId: string, title: string, content: string,
                url: Option<string>, entities: Option<seq<EntitySpec>>): (steps: seq<Step>)
    ensures |steps| >= 2
    ensures steps[0] == GraphDocument(docId, title, content, url)
    ensures steps[1] == VectorInsert(embed(content), content, VectorKey(hashId, docId))
    ensures forall i :: 2 <= i < |steps| ==> steps[i].GraphEntity? || steps[i].GraphMention?
  {
    [GraphDocument(docId, title, content, url), VectorInsert(embed(content), content, VectorKey(hashId, docId))]
      + EntitySteps(docId, entities.GetOr([]))
  }

  function Apply(e: Engine, step: Step): Engine
  {
    match step
    case GraphDocument(d, t, c, u) => e.(graph := GS.AddDocument(e.graph, d, t, c, u))
    case VectorInsert(v, text, key) => e.(vectors := VS.Add(e.vectors, [v], Some([text]), Some([key])).store)
    case GraphEntity(id, n, t, desc) => e.(graph := GS.AddEntity(e.graph, id, n, t, desc))
    case GraphMention(d, id) => e.(graph := GS.LinkDocumentEntity(e.graph, d, id))
  }

  /** Whether a write raises: the index engine refuses a vector whose width
      is not its dimension and a key it already holds. The graph writes never
      raise. */
  predicate Raises(e: Engine, step: Step) {
    step.VectorInsert? && !(VS.FitsDimension(e.vectors, [step.vector]) && VS.AcceptsKeys(e.vectors, [step.key]))
  }

  /** The state after a sequence of writes, and whether one of them raised. */
  datatype Run = Run(engine: Engine, raised: bool)

  /** Performs the writes in order, stopping at the first that raises; the
      writes before it stay done. */
  function ApplyAll(e: Engine, steps: seq<Step>): Run
    decreases |steps|
  {
    if |steps| == 0 then Run(e, false)
    else if Raises(e, steps[0]) then Run(e, true)
    else ApplyAll(Apply(e, steps[0]), steps[1..])
  }

  /** Row an entity gets from its specification. */
  function SpecRow(x: EntitySpec): GS.EntityRow
  {
    GS.EntityRow(x.id, x.name, x.entityType.GetOr("Unknown"), OrEmpty(x.description))
  }

  /** Entity `i` is the last one in the list carrying its id. */
  ghost predicate LastSpec(entities: seq<EntitySpec>, i: int)
    requires 0 <= i < |entities|
  {
    forall j :: i < j < |entities| ==> entities[j].id != entities[i].id
  }

  /** The first entity's two writes, then the rest. */
  lemma EntityStepsUnfold(e: Engine, docId: string, entities: seq<EntitySpec>)
    requires |entities| > 0
    ensures var x := entities[0];
            ApplyAll(e, EntitySteps(docId, entities))
              == ApplyAll(Apply(Apply(e, GraphEntity(x.id, x.name, x.entityType.GetOr("Unknown"), x.description)),
                                GraphMention(docId, x.id)),
                          EntitySteps(docId, entities[1..]))
  {
    var steps := EntitySteps(docId, entities);
    assert steps[1..][1..] == EntitySteps(docId, entities[1..]);
  }

  /** The entity writes leave the vector store, the documents and the
      relations alone, only add mentions, and keep the edge invariant. */
  lemma {:induction false} EntityStepsFrame(e: Engine, docId: string, entities: seq<EntitySpec>)
    ensures var run := ApplyAll(e, EntitySteps(docId, entities));
            var r := run.engine;
            && !run.raised
            && r.vectors == e.vectors
            && r.graph.documents == e.graph.documents
            && r.graph.relations == e.graph.relations
            && (forall m :: m in e.graph.mentions ==> m in r.graph.mentions)
            && (GS.Valid(e.graph) ==> GS.Valid(r.graph))
    decreases |entities|
  {
    if |entities| > 0 {
      EntityStepsUnfold(e, docId, entities);
      var x := entities[0];
      var e1 := Apply(e, GraphEntity(x.id, x.name, x.entityType.GetOr("Unknown"), x.description));
      EntityStepsFrame(Apply(e1, GraphMention(docId, x.id)), docId, entities[1..]);
    }
  }

  /** Entities the list does not name read back as before. */
  lemma {:induction false} EntityStepsOthers(e: Engine, docId: string, entities: seq<EntitySpec>, id: string)
    requires forall i :: 0 <= i < |entities| ==> entities[i].id != id
    ensures GS.GetEntity(ApplyAll(e, EntitySteps(docId, entities)).engine.graph, id) == GS.GetEntity(e.graph, id)
    decreases |entities|
  {
    if |entities| > 0 {
      EntityStepsUnfold(e, docId, entities);
      var x := entities[0];
      var e1 := Apply(e, GraphEntity(x.id, x.name, x.entityType.GetOr("Unknown"), x.description));
      forall k | 0 <= k < |entities[1..]| ensures entities[1..][k].id != id {
        assert entities[1..][k] == entities[k + 1];
      }
      EntityStepsOthers(Apply(e1, GraphMention(docId, x.id)), docId, entities[1..], id);
    }
  }

  /** An entity's last listing decides its properties. */
  lemma {:induction false} EntityStepsLast(e: Engine, docId: string, entities: seq<EntitySpec>, i: int)
    requires 0 <= i < |entities| && LastSpec(entities, i)
    ensures GS.GetEntity(ApplyAll(e, EntitySteps(docId, entities)).engine.graph, entities[i].id) == Some(SpecRow(entities[i]))
    decreases |entities|
  {
    EntityStepsUnfold(e, docId, entities);
    var x := entities[0];
    var e1 := Apply(e, GraphEntity(x.id, x.name, x.entityType.GetOr("Unknown"), x.description));
    var e2 := Apply(e1, GraphMention(docId, x.id));
    if i == 0 {
      assert GS.GetEntity(e2.graph, x.id) == Some(SpecRow(x));
      forall k | 0 <= k < |entities[1..]| ensures entities[1..][k].id != x.id {
        assert entities[1..][k] == entities[k + 1];
      }
      EntityStepsOthers(e2, docId, entities[1..], x.id);
    } else {
      assert entities[i] == entities[1..][i - 1];
      assert LastSpec(entities[1..], i - 1);
      EntityStepsLast(e2, docId, entities[1..], i - 1);
    }
  }

  /** Every listed entity ends up mentioned by the document. */
  lemma {:induction false} EntityStepsMentionAll(e: Engine, docId: string, entities: seq<EntitySpec>, r: Engine)
    requires docId in e.graph.documents
    requires r == ApplyAll(e, EntitySteps(docId, entities)).engine
    ensures forall x :: x in entities ==> GS.Mention(docId, x.id) in r.graph.mentions
    decreases |entities|
  {
    if |entities| > 0 {
      EntityStepsUnfold(e, docId, entities);
      var x := entities[0];
      var e1 := Apply(e, GraphEntity(x.id, x.name, x.entityType.GetOr("Unknown"), x.description));
      var e2 := Apply(e1, GraphMention(docId, x.id));
      assert GS.Mention(docId, x.id) in e2.graph.mentions;
      EntityStepsFrame(e2, docId, entities[1..]);
      EntityStepsMentionAll(e2, docId, entities[1..], r);
      assert entities == [x] + entities[1..];
    }
  }

  /** Every listed entity holds the properties of its last listing. */
  lemma EntityStepsLastAll(e: Engine, docId: string, entities: seq<EntitySpec>, r: Engine)
    requires r == ApplyAll(e, EntitySteps(docId, entities)).engine
    ensures forall i :: 0 <= i < |entities| && LastSpec(entities, i) ==>
              GS.GetEntity(r.graph, entities[i].id) == Some(SpecRow(entities[i]))
  {
    forall i | 0 <= i < |entities| && LastSpec(entities, i)
      ensures GS.GetEntity(r.graph, entities[i].id) == Some(SpecRow(entities[i]))
    {
      EntityStepsLast(e, docId, entities, i);
    }
  }

  /** `RAGEngine.add_document`: performs the planned writes in order. The
      graph node is always written; the call raises exactly when the
      embedding's width is not the index's dimension or the index already
      holds the document's vector key, and then nothing else is written. Otherwise one vector entry is added and the entities linked. */
  function AddDocument(e: Engine, embed: string -> VS.Vector, hashId: string -> int, docId: string, title: string,
                       content: string, url: Option<string>, entities: Option<seq<EntitySpec>>): (run: Run)
    ensures var r := run.engine;
            && GS.GetDocument(r.graph, docId) == Some(GS.DocumentRow(docId, title, content, OrEmpty(url)))
            && (forall d :: d != docId ==> GS.GetDocument(r.graph, d) == GS.GetDocument(e.graph, d))
            && r.graph.documents.Keys == e.graph.documents.Keys + {docId}
            && (GS.Valid(e.graph) ==> GS.Valid(r.graph))
    ensures run.raised <==> |embed(content)| != e.vectors.dimension || VectorKey(hashId, docId) in VS.Keys(e.vectors.index)
    ensures run.raised ==> run.engine == e.(graph := GS.AddDocument(e.graph, docId, title, content, url))
    ensures !run.raised ==> var r := run.engine;
              && VS.Len(r.vectors) == VS.Len(e.vectors) + 1
              && r.vectors.index == e.vectors.index + [VS.Entry(VectorKey(hashId, docId), embed(content))]
              && VectorKey(hashId, docId) in r.vectors.texts && r.vectors.texts[VectorKey(hashId, docId)] == content
              && r.vectors.nextId == e.vectors.nextId
    ensures !run.raised && entities.Some? ==> forall i :: 0 <= i < |entities.value| ==>
              GS.Mention(docId, entities.value[i].id) in run.engine.graph.mentions
    ensures !run.raised && entities.Some? ==> forall i :: 0 <= i < |entities.value| && LastSpec(entities.value, i) ==>
              GS.GetEntity(run.engine.graph, entities.value[i].id) == Some(SpecRow(entities.value[i]))
  {
    var steps := Plan(embed, hashId, docId, title, content, url, entities);
    var key := VectorKey(hashId, docId);
    var e1 := Apply(e, steps[0]);
    assert e1.vectors == e.vectors;
    if Raises(e1, steps[1]) then
      assert ApplyAll(e, steps) == Run(e1, true);
      ApplyAll(e, steps)
    else
      var e2 := Apply(e1, steps[1]);
      assert steps[1..][1..] == EntitySteps(docId, entities.GetOr([]));
      assert ApplyAll(e, steps) == ApplyAll(e2, EntitySteps(docId, entities.GetOr([])));
      VS.AddRecordsTexts(e1.vectors, [embed(content)], [content], Some([key]));
      assert [key][..1] == [key];
      var r := ApplyAll(e2, EntitySteps(docId, entities.GetOr([]))).engine;
      EntityStepsFrame(e2, docId, entities.GetOr([]));
      EntityStepsMentionAll(e2, docId, entities.GetOr([]), r);
      EntityStepsLastAll(e2, docId, entities.GetOr([]), r);
      ApplyAll(e, steps)
  }

  /** The graph write comes first: if the writes stop after it, the
      document is in the graph and the vector store is as it was. */
  lemma GraphWrittenBeforeVector(e: Engine, embed: string -> VS.Vector, hashId: string -> int, docId: string,
                                 title: string, content: string, url: Option<string>, entities: Option<seq<EntitySpec>>)
    ensures var partial := ApplyAll(e, Plan(embed, hashId, docId, title, content, url, entities)[..1]).engine;
            && GS.GetDocument(partial.graph, docId) == Some(GS.DocumentRow(docId, title, content, OrEmpty(url)))
            && partial.vectors == e.vectors
  {
    var steps := Plan(embed, hashId, docId, title, content, url, entities);
    assert steps[..1][1..] == [];
  }

  /** Ingesting the same document a second time upserts its graph node, then
      raises on the vector key the first call stored, so the vector store and
      the entities stay as the first call left them. */
  lemma AddDocumentTwiceRaises(e: Engine, embed: string -> VS.Vector, hashId: string -> int, docId: string,
                               title: string, content: string, url: Option<string>, entities: Option<seq<EntitySpec>>)
    requires !AddDocument(e, embed, hashId, docId, title, content, url, entities).raised
    ensures var once := AddDocument(e, embed, hashId, docId, title, content, url, entities).engine;
            var twice := AddDocument(once, embed, hashId, docId, title, content, url, entities);
            && twice.raised
            && twice.engine.vectors == once.vectors
            && twice.engine.graph.entities == once.graph.entities
            && twice.engine.graph.mentions == once.graph.mentions
            && forall d :: GS.GetDocument(twice.engine.graph, d) == GS.GetDocument(once.graph, d)
  {
    var once := AddDocument(e, embed, hashId, docId, title, content, url, entities).engine;
    var key := VectorKey(hashId, docId);
    assert once.vectors.index[VS.Len(e.vectors)] == VS.Entry(key, embed(content));
    assert once.vectors.index[VS.Len(e.vectors)] in once.vectors.index;
  }

  // ---------------------------------------------------------------- retrieval

  /** Whether `retrieve` reranks: the explicit flag, or the engine default
      when the flag is None, and only when a reranker exists. */
  predicate ShouldRerank(e: Engine, useReranker: Option<bool>)
    ensures ShouldRerank(e, useReranker) ==> e.reranker.Some?
    ensures useReranker == Some(false) ==> !ShouldRerank(e, useReranker)
    ensures useReranker == Some(true) ==> (ShouldRerank(e, useReranker) <==> e.reranker.Some?)
    ensures useReranker.None? ==> (ShouldRerank(e, useReranker) <==> e.useReranker && e.reranker.Some?)
  {
    useReranker.GetOr(e.useReranker) && e.reranker.Some?
  }

  /** An engine built with reranking off and no reranker model never
      reranks, even when a call asks for it; one built with reranking on
      reranks whenever a call leaves the choice to it. */
  lemma RerankNeedsReranker(vectors: VS.Store, graph: GS.Graph, rerankerModel: Option<string>,
                            useReranker: Option<bool>)
    ensures !ShouldRerank(NewEngine(vectors, graph, None, false), useReranker)
    ensures ShouldRerank(NewEngine(vectors, graph, rerankerModel, true), None)
  {
  }

  /** How many candidates `retrieve` asks the index for: `rerank_top_k`
      (when given and non-zero) or three times `top_k` when reranking,
      otherwise `top_k`. */
  function FetchCount(e: Engine, topK: int, useReranker: Option<bool>, rerankTopK: Option<int>): (k: int)
    ensures !ShouldRerank(e, useReranker) ==> k == topK
    ensures ShouldRerank(e, useReranker) && rerankTopK.Some? && rerankTopK.value != 0 ==> k == rerankTopK.value
    ensures ShouldRerank(e, useReranker) && (rerankTopK.None? || rerankTopK.value == 0) ==> k == 3 * topK
  {
    if ShouldRerank(e, useReranker) then
      (if rerankTopK.Some? && rerankTopK.value != 0 then rerankTopK.value else topK * 3)
    else topK
  }

  /** The `content` value of a result: the text, or None. */
  function TextValue(text: Option<string>): Value
  {
    match text
    case Some(t) => VStr(t)
    case None => VNone
  }

  /** The dictionary built for one search match: the id, the distance
      turned into a similarity `1 - distance`, the content, and an empty
      entity list when graph context is requested. */
  function ToResult(m: VS.Match, includeGraph: bool): (d: Dict)
    ensures d.Keys == {"id", "score", "content"} + (if includeGraph then {"entities"} else {})
    ensures d["id"] == VInt(m.key) && d["score"] == VFloat(1.0 - m.distance)
    ensures d["content"] == if m.text.Some? then VStr(m.text.value) else VNone
    ensures includeGraph ==> d["entities"] == VList([])
  {
    var d := map["id" := VInt(m.key), "score" := VFloat(1.0 - m.distance), "content" := TextValue(m.text)];
    if includeGraph then d["entities" := VList([])] else d
  }

  /** The search matches as result dictionaries, before any reranking. */
  function Candidates(e: Engine, includeGraph: bool, hits: seq<VS.Hit>): (results: seq<Dict>)
    ensures |results| == |hits|
    ensures forall i :: 0 <= i < |hits| ==>
              && "id" in results[i] && "score" in results[i] && "content" in results[i]
              && results[i]["id"] == VInt(hits[i].key)
              && results[i]["score"] == VFloat(1.0 - hits[i].distance)
              && results[i]["content"] == (if hits[i].key in e.vectors.texts then VStr(e.vectors.texts[hits[i].key]) else VNone)
              && ("entities" in results[i] <==> includeGraph)
    ensures forall i :: 0 <= i < |hits| ==> results[i] == ToResult(VS.Search(e.vectors, hits)[i], includeGraph)
  {
    var matches := VS.Search(e.vectors, hits);
    seq(|matches|, i requires 0 <= i < |matches| => ToResult(matches[i], includeGraph))
  }

  /** The content the reranker scores for a candidate is a string exactly
      when the hit's key still has a text; otherwise it is None, which the
      cross-encoder cannot score. */
  lemma CandidateContentIsText(e: Engine, includeGraph: bool, hits: seq<VS.Hit>)
    ensures var docs := RR.ContentsOf(Candidates(e, includeGraph, hits), "content");
            && |docs| == |hits|
            && forall i :: 0 <= i < |hits| ==> (docs[i].VStr? <==> hits[i].key in e.vectors.texts)
  {
  }

  /** Reranking keeps the graph-context key of every result as it was. */
  lemma RerankKeepsEntities(predict: (string, Value) -> real, query: string, results: seq<Dict>, topK: int,
                            includeGraph: bool)
    requires forall i :: 0 <= i < |results| ==> ("entities" in results[i] <==> includeGraph)
    requires includeGraph ==> forall i :: 0 <= i < |results| ==> results[i]["entities"] == VList([])
    ensures var out := RR.RerankResults(predict, query, results, "content", Some(topK));
            && (forall k :: 0 <= k < |out| ==> ("entities" in out[k] <==> includeGraph))
            && (includeGraph ==> forall k :: 0 <= k < |out| ==> out[k]["entities"] == VList([]))
  {
    var out := RR.RerankResults(predict, query, results, "content", Some(topK));
    var ranking := RR.Rerank(predict, query, RR.ContentsOf(results, "content"), None);
    forall k | 0 <= k < |out|
      ensures "entities" in out[k] <==> includeGraph
      ensures includeGraph ==> out[k]["entities"] == VList([])
    {
      assert out[k] == RR.Stamp(results[ranking[k].index], ranking[k].score);
    }
  }

  /** `RAGEngine.retrieve`: the search matches as result dictionaries,
      reranked down to `top_k` when reranking is on and there is at least
      one match. */
  function Retrieve(e: Engine, predict: (string, Value) -> real, query: string, topK: int, includeGraph: bool,
                    useReranker: Option<bool>, rerankTopK: Option<int>, hits: seq<VS.Hit>): (r: seq<Dict>)
    requires VS.ValidHits(e.vectors, hits, FetchCount(e, topK, useReranker, rerankTopK))
    ensures |r| <= |hits|
    ensures forall i :: 0 <= i < |r| ==> ("entities" in r[i] <==> includeGraph)
    ensures includeGraph ==> forall i :: 0 <= i < |r| ==> r[i]["entities"] == VList([])
  {
    var results := Candidates(e, includeGraph, hits);
    if ShouldRerank(e, useReranker) && |results| > 0 then
      RerankKeepsEntities(predict, query, results, topK, includeGraph);
      RR.RerankResults(predict, query, results, "content", Some(topK))
    else results
  }

  /** Without reranking, results match the index hits one to one and in
      order: the hit's key, similarity `1 - distance`, the text looked up for
      the key, and no reranking marks. */
  lemma RetrieveWithoutRerank(e: Engine, predict: (string, Value) -> real, query: string, topK: int,
                              includeGraph: bool, useReranker: Option<bool>, rerankTopK: Option<int>,
                              hits: seq<VS.Hit>)
    requires VS.ValidHits(e.vectors, hits, FetchCount(e, topK, useReranker, rerankTopK))
    requires !ShouldRerank(e, useReranker)
    ensures var r := Retrieve(e, predict, query, topK, includeGraph, useReranker, rerankTopK, hits);
            && |r| == |hits|
            && |hits| <= topK
            && forall i :: 0 <= i < |r| ==>
                 && r[i]["id"] == VInt(hits[i].key)
                 && r[i]["score"] == VFloat(1.0 - hits[i].distance)
                 && r[i]["content"] == (if hits[i].key in e.vectors.texts then VStr(e.vectors.texts[hits[i].key]) else VNone)
                 && "reranked" !in r[i] && "original_score" !in r[i]
  {
  }

  /** Reranked candidates: each output is marked, and keeps the id and the
      similarity of the candidate it was made from as its original score. */
  lemma RerankedCandidates(predict: (string, Value) -> real, query: string, results: seq<Dict>, topK: int,
                           hits: seq<VS.Hit>)
    requires |results| == |hits|
    requires forall j :: 0 <= j < |results| ==>
               && "id" in results[j] && "score" in results[j]
               && results[j]["id"] == VInt(hits[j].key)
               && results[j]["score"] == VFloat(1.0 - hits[j].distance)
    ensures var out := RR.RerankResults(predict, query, results, "content", Some(topK));
            forall i :: 0 <= i < |out| ==>
              && out[i]["reranked"] == VBool(true)
              && out[i]["score"].VFloat?
              && exists j :: 0 <= j < |hits| && out[i]["id"] == VInt(hits[j].key)
                   && out[i]["original_score"] == VFloat(1.0 - hits[j].distance)
  {
    var out := RR.RerankResults(predict, query, results, "content", Some(topK));
    var ranking := RR.Rerank(predict, query, RR.ContentsOf(results, "content"), None);
    forall i | 0 <= i < |out|
      ensures out[i]["reranked"] == VBool(true) && out[i]["score"].VFloat?
      ensures exists j :: 0 <= j < |hits| && out[i]["id"] == VInt(hits[j].key)
                && out[i]["original_score"] == VFloat(1.0 - hits[j].distance)
    {
      var j := ranking[i].index;
      assert out[i] == RR.Stamp(results[j], ranking[i].score);
      assert out[i]["id"] == VInt(hits[j].key);
    }
  }

  /** With reranking and at least one hit, every result is marked reranked
      and carries, as its original score, the similarity of one of the hits
      under that hit's id; a non-negative `top_k` bounds the count. */
  lemma RetrieveWithRerank(e: Engine, predict: (string, Value) -> real, query: string, topK: int,
                           includeGraph: bool, useReranker: Option<bool>, rerankTopK: Option<int>,
                           hits: seq<VS.Hit>)
    requires VS.ValidHits(e.vectors, hits, FetchCount(e, topK, useReranker, rerankTopK))
    requires ShouldRerank(e, useReranker) && |hits| > 0
    ensures var r := Retrieve(e, predict, query, topK, includeGraph, useReranker, rerankTopK, hits);
            && (topK >= 0 ==> |r| == if topK < |hits| then topK else |hits|)
            && forall i :: 0 <= i < |r| ==>
                 && r[i]["reranked"] == VBool(true)
                 && r[i]["score"].VFloat?
                 && exists j :: 0 <= j < |hits| && r[i]["id"] == VInt(hits[j].key)
                      && r[i]["original_score"] == VFloat(1.0 - hits[j].distance)
  {
    var results := Candidates(e, includeGraph, hits);
    assert Retrieve(e, predict, query, topK, includeGraph, useReranker, rerankTopK, hits)
        == RR.RerankResults(predict, query, results, "content", Some(topK));
    RerankedCandidates(predict, query, results, topK, hits);
  }

  /** Whatever the flags, the results carry the graph-context key exactly
      when it was asked for, and reranking is visible in the results exactly
      when it was decided on. */
  lemma RerankedIffDecided(e: Engine, predict: (string, Value) -> real, query: string, topK: int,
                           includeGraph: bool, useReranker: Option<bool>, rerankTopK: Option<int>,
                           hits: seq<VS.Hit>, i: int)
    requires VS.ValidHits(e.vectors, hits, FetchCount(e, topK, useReranker, rerankTopK))
    requires 0 <= i < |Retrieve(e, predict, query, topK, includeGraph, useReranker, rerankTopK, hits)|
    ensures ("reranked" in Retrieve(e, predict, query, topK, includeGraph, useReranker, rerankTopK, hits)[i])
              == ShouldRerank(e, useReranker)
  {
    if ShouldRerank(e, useReranker) {
      RetrieveWithRerank(e, predict, query, topK, includeGraph, useReranker, rerankTopK, hits);
    } else {
      RetrieveWithoutRerank(e, predict, query, topK, includeGraph, useReranker, rerankTopK, hits);
    }
  }

  /** An entity found by the graph search together with its one-hop neighbours. */
  datatype EntityWithRelated = EntityWithRelated(entity: GS.EntityRow, related: set<GS.RelatedRow>)

  /** Both signals, unmerged. `graphResults` is None when no entity name was given. */
  datatype Combined = Combined(vectorResults: seq<Dict>, graphResults: Option<set<EntityWithRelated>>)

  /** `RAGEngine.retrieve_with_graph`: vector retrieval without graph context,
      and, for a non-empty entity name, the entities whose name contains it,
      each with its related entities of every relation type. */
  function RetrieveWithGraph(e: Engine, predict: (string, Value) -> real, query: string, entityName: Option<string>,
                             topK: int, hits: seq<VS.Hit>): (c: Combined)
    requires VS.ValidHits(e.vectors, hits, FetchCount(e, topK, None, None))
    ensures forall i :: 0 <= i < |c.vectorResults| ==> "entities" !in c.vectorResults[i]
    ensures |c.vectorResults| <= |hits|
    ensures c.graphResults.Some? <==> Truthy(entityName)
    ensures c.graphResults.Some? ==> forall x :: x in c.graphResults.value ==>
              && x.entity in GS.SearchEntities(e.graph, entityName.value, None)
              && x.related == GS.GetRelatedEntities(e.graph, x.entity.id, None)
    ensures c.graphResults.Some? ==> forall row :: row in GS.SearchEntities(e.graph, entityName.value, None) ==>
              EntityWithRelated(row, GS.GetRelatedEntities(e.graph, row.id, None)) in c.graphResults.value
  {
    var vectorResults := Retrieve(e, predict, query, topK, false, None, None, hits);
    var graphResults :=
      if Truthy(entityName) then
        Some(set row | row in GS.SearchEntities(e.graph, entityName.value, None)
               :: EntityWithRelated(row, GS.GetRelatedEntities(e.graph, row.id, None)))
      else None;
    Combined(vectorResults, graphResults)
  }

  // ---------------------------------------------------------------- context

  /** `result.get("content", "")` as the packing loop sees it: a missing or
      None content is falsy, like the empty string. */
  function ContentText(d: Dict): string
  {
    if "content" in d && d["content"].VStr? then d["content"].s else ""
  }

  function Contents(results: seq<Dict>): (cs: seq<string>)
    ensures |cs| == |results|
    ensures forall i :: 0 <= i < |results| ==> cs[i] == ContentText(results[i])
  {
    seq(|results|, i requires 0 <= i < |results| => ContentText(results[i]))
  }

  /** `RAGEngine.get_context`: retrieves with the default flags, packs the
      contents into four characters per token, and joins the parts. */
  method GetContext(e: Engine, predict: (string, Value) -> real, query: string, topK: int, maxTokens: int,
                    hits: seq<VS.Hit>) returns (context: string, parts: seq<string>)
    requires VS.ValidHits(e.vectors, hits, FetchCount(e, topK, None, None))
    ensures parts == CP.Pack(Contents(Retrieve(e, predict, query, topK, true, None, None, hits)), 0, CP.CharLimit(maxTokens))
    ensures context == Join(parts, CP.Separator)
    ensures TotalLength(parts) <= if maxTokens < 0 then 0 else 4 * maxTokens
    ensures |parts| > 0 ==> |context| == TotalLength(parts) + (|parts| - 1) * |CP.Separator|
  {
    var results := Retrieve(e, predict, query, topK, true, None, None, hits);
    parts := CP.PackParts(Contents(results), CP.CharLimit(maxTokens));
    context := Join(parts, CP.Separator);
    if |parts| > 0 {
      JoinLength(parts, CP.Separator);
    }
  }

  /** When the budget fits every retrieved content, the context is all the
      non-empty contents in ranking order, joined by the separator. */
  lemma ContextWhenAllFit(e: Engine, predict: (string, Value) -> real, query: string, topK: int, maxTokens: int,
                          hits: seq<VS.Hit>)
    requires VS.ValidHits(e.vectors, hits, FetchCount(e, topK, None, None))
    requires TotalLength(CP.NonEmpty(Contents(Retrieve(e, predict, query, topK, true, None, None, hits)))) <= 4 * maxTokens
    ensures CP.Pack(Contents(Retrieve(e, predict, query, topK, true, None, None, hits)), 0, CP.CharLimit(maxTokens))
              == CP.NonEmpty(Contents(Retrieve(e, predict, query, topK, true, None, None, hits)))
  {
    CP.PackAllFit(Contents(Retrieve(e, predict, query, topK, true, None, None, hits)), 0, CP.CharLimit(maxTokens));
  }
}
