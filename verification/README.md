# Knowledge server core, modelled in Dafny

This project models the retrieval core of a small knowledge server. The server keeps every document in two places:

- a vector index, which holds an embedding per document plus its text;
- a property graph of documents and entities, linked by MENTIONS and RELATED_TO edges.

It answers queries by vector similarity. The answer can optionally be reranked by a cross-encoder, joined with an entity lookup in the graph, or packed into a character-budgeted context string. A URL safety gate guards the crawler that feeds it.

There is one module per concern:

- `Base`: Python-flavoured helpers.
  - `Option`, `x or ""`, `dict.get`, `startswith`, `endswith`, substring containment, ASCII `lower`, `str.join`.
  - Result dictionaries as `map<string, Value>`.
- `VectorStore`: the index as a sequence of (key, vector) entries, a key→text map and the next-id counter.
  - The index engine's nearest-neighbour answer is an input (`hits`). It is constrained to at most `k` hits whose keys are in the index.
- `GraphStore`: documents and entities as maps keyed by id, and edges as sequences.
  - Query results are sets of rows, because the database returns rows in no specified order.
  - `Valid` is the invariant the link guards maintain:
    - edge endpoints exist;
    - no duplicate MENTIONS edge;
    - at most one RELATED_TO edge per ordered pair.
- `StableSort`: the `sort(key=score, reverse=True)` step.
  - It is an insertion sort proved to produce a ranking. A ranking means scores are non-increasing and ties stay in input order.
  - It is proved to produce a permutation.
  - The stable ranking of a collection is proved unique.
- `Reranker`:
  - the model registry;
  - `rerank`, with the cross-encoder as an abstract scoring function;
  - `rerank_results`, with the exact `top_k` slicing semantics, including negative `top_k`.
- `ContextPack`: the packing loop of `get_context`, as a method proved equal to a recursive reference definition.
- `RagEngine`: engine construction, `add_document` as an ordered list of writes, `retrieve`, `retrieve_with_graph` and `get_context`.
- `UrlSafety`: `is_private_ip` and `validate_url`.
  - The URL parser and the IP-address classifier are inputs.
  - The private-prefix list is proved equal to an independent description of the networks it names.

Foreign components are parameters:

- the sentence-embedding model (`embed`);
- the cross-encoder (`predict`);
- the index engine's search result (`hits`);
- Python's salted `hash` (`hashId`), followed by the source's own `% 10**9`;
- `urlparse` (`parse`);
- `ipaddress.ip_address` (`classify`).

Behaviour of the code that a reader might not expect, and that the model keeps:

- The store does not check vector widths itself. The index engine it calls does: it raises on a vector whose width is not the dimension it was built with. A batch of vectors of different widths raises earlier, when it is turned into a matrix.
- The store does not check ids itself either. The index is built without multi-key support (`vector_db/vector_store.py:33`), so it raises on a key it already holds. This includes a generated id that collides with one a caller supplied earlier. It also happens when `add_document` runs twice for one document: the graph node is written, and the vector write then raises.
- Deleting ids removes only their texts. The index entries stay, so search can still return a deleted key, with no text.
- A self-link is allowed.
- Linking to a missing endpoint silently does nothing.
- A RELATED_TO edge between an ordered pair that already has one is not added, whatever its relation type.

## Model

| member | source | states |
|---|---|---|
| Base.LowerIdempotent | knowledge_server/scrapy_server/runner.py:38 | lower-casing leaves no ASCII capital letter, so lower-casing again changes nothing |
| Base.JoinLength | knowledge_server/rag/rag_engine.py:241 | the joined context is as long as its parts plus one separator between each pair |
| VectorStore.AssignTextsMeaning | knowledge_server/vector_db/vector_store.py:65-67 | pairing ids with texts by `zip` records exactly the paired ids; a repeated id keeps its last text; other ids keep theirs |
| VectorStore.Add | knowledge_server/vector_db/vector_store.py:40-69 | a batch of vectors of different widths raises with nothing changed; without ids the store counts the next ids up from its counter and advances the counter by the batch size, even when the index then raises; with ids it uses them as given and keeps the counter; the index raises exactly when a vector's width is not its dimension or a key is already held or repeats in the batch, and then neither the index nor the texts change; otherwise the index grows by exactly the (id, vector) pairs; texts are untouched when none are given |
| VectorStore.AddKeys | knowledge_server/vector_db/vector_store.py:59-63 | after a successful add the index keys are the old keys plus the returned ids; after a refused one they are the old keys |
| VectorStore.AddRecordsTexts | knowledge_server/vector_db/vector_store.py:65-67 | after a successful add every id paired with a text maps to that text; texts of ids not paired are unchanged |
| VectorStore.AddFreshIdsRecordTexts | knowledge_server/vector_db/vector_store.py:59-67 | with generated ids, the add succeeds exactly when every vector has the index's width and no counted id is already held; then the i-th returned id is the counter plus i and maps to the i-th text |
| VectorStore.Len | knowledge_server/vector_db/vector_store.py:137-139 | the length is the number of index entries, which is the number of distinct keys while no key is held twice |
| VectorStore.KeysCount | knowledge_server/vector_db/vector_store.py:137-139 | an index with unique keys holds one key per entry |
| VectorStore.AddKeepsKeysUnique | knowledge_server/vector_db/vector_store.py:33-63 | no add, refused or not, makes the index hold a key twice |
| VectorStore.AddHeldKeyRefused | knowledge_server/vector_db/vector_store.py:63 | adding a key the index already holds raises and leaves the store as it was; with a vector of the right width the error is the held key |
| VectorStore.DeleteTextsRemovesListed | knowledge_server/vector_db/vector_store.py:104-106 | the delete loop leaves exactly the texts whose ids were not listed; unknown ids are skipped |
| VectorStore.Delete | knowledge_server/vector_db/vector_store.py:97-106 | the listed ids lose their texts and nothing else changes: the index entries, the length, the counter and the other texts stay |
| VectorStore.DeleteIdempotent | knowledge_server/vector_db/vector_store.py:97-106 | deleting the same ids twice equals deleting them once |
| VectorStore.Search | knowledge_server/vector_db/vector_store.py:88-95 | one result per engine hit, in order, with the hit's key and distance; the text is present exactly when the key still has one |
| VectorStore.DeletedKeyStillReturned | knowledge_server/vector_db/vector_store.py:97-106 | after delete, a hit on a deleted key still comes back, with no text |
| VectorStore.AddedTextFoundBySearch | knowledge_server/vector_db/vector_store.py:57-95 | a vector added with a text under a fresh generated id is in the index, and a hit on its id returns that text; the add is refused exactly when the vector's width is not the dimension or that id is already held |
| GraphStore.EmptyGraph | knowledge_server/graph_db/graph_store.py:88-126 | the empty graph has no nodes or edges and satisfies the edge invariant |
| GraphStore.AddDocument | knowledge_server/graph_db/graph_store.py:88-126 | upsert: afterwards the document reads back with the new title, content and `url or ""`; other documents, all entities and all edges are unchanged; the edge invariant is preserved |
| GraphStore.AddEntity | knowledge_server/graph_db/graph_store.py:128-166 | upsert of an entity with `description or ""`; other entities, documents and edges unchanged; invariant preserved |
| GraphStore.LinkDocumentEntity | knowledge_server/graph_db/graph_store.py:168-192 | afterwards the MENTIONS edge exists exactly when it existed before or both endpoints exist; no other edge changes; at most one edge is added; invariant preserved |
| GraphStore.LinkEntities | knowledge_server/graph_db/graph_store.py:194-224 | when the ordered pair already has an edge or an endpoint is missing, nothing changes; otherwise exactly the new typed edge is appended |
| GraphStore.GetDocument | knowledge_server/graph_db/graph_store.py:226-242 | present exactly when the id is a document, and then the row carries that id |
| GraphStore.GetEntity | knowledge_server/graph_db/graph_store.py:244-260 | present exactly when the id is an entity, and then the row carries that id |
| GraphStore.GetDocumentEntities | knowledge_server/graph_db/graph_store.py:262-280 | every row returned is an existing entity the document has a MENTIONS edge to |
| GraphStore.GetRelatedEntities | knowledge_server/graph_db/graph_store.py:282-315 | every row returned is an existing entity, reached by an edge whose type passes the filter (None and "" mean no filter) |
| GraphStore.SearchEntities | knowledge_server/graph_db/graph_store.py:317-351 | every row returned is an entity whose name contains the pattern and whose type passes the filter |
| GraphStore.AddDocumentIdempotent | knowledge_server/graph_db/graph_store.py:88-126 | adding the same document twice equals adding it once |
| GraphStore.AddDocumentTwiceKeepsLatest | knowledge_server/graph_db/graph_store.py:104-126 | re-adding a document keeps one node with the latest fields |
| GraphStore.LinkDocumentEntityIdempotent | knowledge_server/graph_db/graph_store.py:176-192 | linking twice equals linking once: no duplicate MENTIONS edge |
| GraphStore.LinkEntitiesOtherTypeIsNoop | knowledge_server/graph_db/graph_store.py:208-224 | once a pair is linked, linking it again with any relation type changes nothing |
| GraphStore.GetDocumentEntitiesExactly | knowledge_server/graph_db/graph_store.py:262-280 | a row is returned if and only if the document mentions that entity and the row holds its fields |
| GraphStore.GetRelatedEntitiesExactly | knowledge_server/graph_db/graph_store.py:282-315 | a (row, type) pair is returned if and only if there is an outgoing edge of that type to that entity and a non-empty filter, when given, equals the type |
| GraphStore.RelatedAfterLink | knowledge_server/graph_db/graph_store.py:194-315 | after linking two entities, the target is related without filter and under its own type, and not under another type |
| GraphStore.SearchEntitiesExactly | knowledge_server/graph_db/graph_store.py:317-351 | a row is returned if and only if its entity's name contains the pattern and a non-empty type filter, when given, equals its type |
| GraphStore.SearchEmptyPatternFindsAll | knowledge_server/graph_db/graph_store.py:342-351 | the empty pattern matches every entity |
| GraphStore.SearchFindsUpsertedEntity | knowledge_server/graph_db/graph_store.py:128-166 | an entity just added is found by searching its own name |
| StableSort.Insert | knowledge_server/rag/reranker.py:111 | inserting a later candidate into a ranking yields a ranking of the items plus it |
| StableSort.Sort | knowledge_server/rag/reranker.py:111 | the result is a ranking (scores non-increasing, ties in input order) and a permutation of the input |
| StableSort.RankingUnique | knowledge_server/rag/reranker.py:111 | two rankings of the same items are equal, so the stable descending order is determined by the items alone |
| StableSort.RankingIndicesDistinct | knowledge_server/rag/reranker.py:107-111 | no candidate appears twice in a ranking |
| Reranker.NewReranker | knowledge_server/rag/reranker.py:64-78 | a registered name loads its registry entry and full model name; any other name is used directly as a "Custom model" with maximum length 512 |
| Reranker.GetModelInfo | knowledge_server/rag/reranker.py:172-182 | the model name asked for, merged with its entry's name, description and maximum length |
| Reranker.DefaultModelInfo | knowledge_server/rag/reranker.py:12-41 | the default model is the registered MiniLM-L-6 cross-encoder with maximum length 512 |
| Reranker.ModelInfoOfNewReranker | knowledge_server/rag/reranker.py:64-78 | for every model name, a registered one reports its registry entry under the name asked for, and any other reports itself as a custom model of maximum length 512 |
| Reranker.PrefixLength | knowledge_server/rag/reranker.py:114-115 | the length `s[:top_k]` keeps under the guard: all for None or a large `top_k`, `top_k` items for a smaller non-negative one |
| Reranker.Truncate | knowledge_server/rag/reranker.py:114-115 | the result is a prefix of the input of that length |
| Reranker.EnumeratedRanking | knowledge_server/rag/reranker.py:107-111 | a permutation of the enumerated documents contains every index exactly once, each with its own document and score |
| Reranker.FullRanking | knowledge_server/rag/reranker.py:100-111 | the scored documents form a ranking that is a permutation of the enumeration |
| Reranker.Rerank | knowledge_server/rag/reranker.py:80-117 | no documents give no results; the length is what `top_k` slicing keeps; the results are a ranking; every entry's index, document and score agree with the input and the scoring function |
| Reranker.RerankIsPermutation | knowledge_server/rag/reranker.py:80-117 | without `top_k`, each original index appears exactly once |
| Reranker.RerankTopKIsPrefix | knowledge_server/rag/reranker.py:113-115 | a non-negative `top_k` keeps a prefix of the full ranking |
| Reranker.RerankIsPrefix | knowledge_server/rag/reranker.py:111-115 | the reranked list is a prefix of the full stable ranking |
| Reranker.RerankKeepsBest | knowledge_server/rag/reranker.py:111-115 | a document left out by `top_k` ranks after every document kept |
| Reranker.Stamp | knowledge_server/rag/reranker.py:150-153 | the copy has `original_score` set to the old score (0 if none), `score` set to the new score and `reranked` set to true; every other key is kept |
| Reranker.RerankResults | knowledge_server/rag/reranker.py:119-160 | empty in, empty out; the length is what `top_k` slicing keeps; the k-th output is the stamped copy of the k-th ranked input |
| Reranker.RerankResultsMeaning | knowledge_server/rag/reranker.py:138-160 | each output is a stamped copy of a distinct input scored on its content; new scores are non-increasing, with ties in input order |
| ContextPack.NonEmpty | knowledge_server/rag/rag_engine.py:230-231 | the kept contents are exactly the non-empty contents of the input: every kept one is a non-empty input, and every non-empty input is kept |
| ContextPack.PackShape | knowledge_server/rag/rag_engine.py:229-239 | the reference packing yields no more parts than contents, and every part is a non-empty prefix of some content |
| ContextPack.PackWithinBudget | knowledge_server/rag/rag_engine.py:225-239 | the packed characters never exceed the character limit (nothing when it is negative) |
| ContextPack.PackAllFit | knowledge_server/rag/rag_engine.py:229-233 | when all non-empty contents fit, all of them are packed, whole and in order |
| ContextPack.PackStopsAtFirstMisfit | knowledge_server/rag/rag_engine.py:229-239 | packing takes whole contents up to the first non-empty one that does not fit, then at most its truncated prefix, and nothing after |
| ContextPack.PackParts | knowledge_server/rag/rag_engine.py:225-239 | the loop with its running total and `break` computes the reference packing and stays within the limit |
| RagEngine.NewEngine | knowledge_server/rag/rag_engine.py:37-47 | a reranker exists exactly when reranking is on by default or a model is named; the named model wins over the default |
| RagEngine.VectorKey | knowledge_server/rag/rag_engine.py:96 | the vector id of a document lies in [0, 10^9) |
| RagEngine.Plan | knowledge_server/rag/rag_engine.py:91-112 | the graph node is written first, the vector second, and only entity and mention writes follow |
| RagEngine.EntityStepsFrame | knowledge_server/rag/rag_engine.py:104-112 | the entity writes leave the vector store, the documents and the relations unchanged, only add mentions, and preserve the edge invariant |
| RagEngine.EntityStepsMentionAll | knowledge_server/rag/rag_engine.py:104-112 | once the document exists, every listed entity is mentioned by it afterwards |
| RagEngine.EntityStepsLast | knowledge_server/rag/rag_engine.py:105-111 | an entity reads back with the name, type (defaulting to "Unknown") and `description or ""` of its last listing |
| RagEngine.EntityStepsLastAll | knowledge_server/rag/rag_engine.py:104-112 | every listed entity holds the properties of its last listing |
| RagEngine.EntityStepsOthers | knowledge_server/rag/rag_engine.py:104-112 | entities the list does not name read back as before |
| RagEngine.AddDocument | knowledge_server/rag/rag_engine.py:73-112 | the document always reads back from the graph and the edge invariant is preserved; the call raises exactly when the embedding's width is not the index's dimension or the index already holds the document's vector key, and then nothing but the graph node was written; otherwise the vector store gains exactly one entry, keyed by the reduced hash, whose text is the content, and the entities are linked with their last listing's properties |
| RagEngine.GraphWrittenBeforeVector | knowledge_server/rag/rag_engine.py:91-101 | if ingestion stops after the graph write, the document is in the graph and the vector store is unchanged |
| RagEngine.AddDocumentTwiceRaises | knowledge_server/rag/rag_engine.py:91-112 | ingesting a document a second time upserts its graph node and then raises on the vector key the first call stored, so the vectors, entities and mentions stay as the first call left them |
| RagEngine.FetchCount | knowledge_server/rag/rag_engine.py:135-142 | reranking fetches `rerank_top_k` when it is given and non-zero, otherwise three times `top_k`; without reranking it fetches `top_k` |
| RagEngine.ShouldRerank | knowledge_server/rag/rag_engine.py:136-137 | an explicit flag decides, the engine default decides when the flag is None, and there is never reranking without a reranker |
| RagEngine.RerankNeedsReranker | knowledge_server/rag/rag_engine.py:44-47 | an engine built with reranking off and no model never reranks, even when asked; one built with reranking on reranks when the call leaves the choice to it |
| RagEngine.Candidates | knowledge_server/rag/rag_engine.py:148-161 | one result per hit, in hit order, with the hit's key as id, `1 - distance` as score, the text stored for the key or None as content, and an entity list exactly when graph context is requested |
| RagEngine.CandidateContentIsText | knowledge_server/rag/rag_engine.py:148-165 | the content handed to the reranker for a hit is a string exactly when the hit's key still has a text, and None otherwise |
| RagEngine.Retrieve | knowledge_server/rag/rag_engine.py:114-167 | no more results than hits; the entity key is present exactly when graph context is requested |
| RagEngine.RetrieveWithoutRerank | knowledge_server/rag/rag_engine.py:140-167 | without reranking, results follow the hits one to one, at most `top_k`, carrying key, similarity and current text, and no rerank marks |
| RagEngine.RerankKeepsEntities | knowledge_server/rag/rag_engine.py:156-165 | reranking keeps each result's graph-context key and its empty entity list |
| RagEngine.RerankedCandidates | knowledge_server/rag/rag_engine.py:149-165 | each reranked result is marked and keeps the id and `1 - distance` of the hit it came from as its original score |
| RagEngine.RetrieveWithRerank | knowledge_server/rag/rag_engine.py:163-165 | with reranking and some hits, a non-negative `top_k` bounds the count, and every result is marked reranked and keeps the id and `1 - distance` of one of the hits as its original score |
| RagEngine.RerankedIffDecided | knowledge_server/rag/rag_engine.py:135-165 | a result carries the rerank mark if and only if the flag (or the engine default) asks for it and a reranker exists |
| RagEngine.RetrieveWithGraph | knowledge_server/rag/rag_engine.py:169-204 | vector results come without graph context; graph results exist exactly for a non-empty entity name, and they are exactly the name matches, each with all its related entities |
| RagEngine.GetContext | knowledge_server/rag/rag_engine.py:206-241 | the parts are the packing of the retrieved contents and total at most four characters per token; the context joins them, so its length is their total plus one separator between each pair |
| RagEngine.ContextWhenAllFit | knowledge_server/rag/rag_engine.py:223-241 | when the budget holds every retrieved content, the context contains all non-empty contents in result order |
| UrlSafety.PrivatePrefixesMeaning | knowledge_server/scrapy_server/runner.py:48-55 | a hostname starts with a listed prefix if and only if it starts with "10.", "192.168.", "169.254." or "172.N." with N from 16 to 31 |
| UrlSafety.IsPrivateIp | knowledge_server/scrapy_server/runner.py:25-57 | a listed name, in any case, is private; otherwise an IP literal is private exactly as the classifier says; otherwise the prefix test decides |
| UrlSafety.NonNumericPrivatePrefix | knowledge_server/scrapy_server/runner.py:48-55 | "10.example.com" is private although it is a domain name |
| UrlSafety.LocalhostAnyCase | knowledge_server/scrapy_server/runner.py:37-39 | "LocalHost" is private |
| UrlSafety.ValidateUrl | knowledge_server/scrapy_server/runner.py:60-110 | an accepted URL is returned unchanged; the empty URL and unparsable URLs are refused; a URL is accepted if and only if its scheme is allowed, its host is present and not private, and its domain passes the whitelist |
| UrlSafety.SchemeCheckedFirst | knowledge_server/scrapy_server/runner.py:81-83 | a scheme outside http/https is refused for its scheme, before any host check |
| UrlSafety.HostRequired | knowledge_server/scrapy_server/runner.py:85-88 | an allowed scheme with no host is refused for the missing host |
| UrlSafety.PrivateCheckedBeforeDomain | knowledge_server/scrapy_server/runner.py:90-95 | a private host is refused as private even when its domain is whitelisted |
| UrlSafety.AcceptedDomainIsListed | knowledge_server/scrapy_server/runner.py:94-102 | with a non-empty whitelist, an accepted host equals a listed domain or ends with "." plus one; no whitelist and an empty one behave alike |
| UrlSafety.AcceptedIsSafe | knowledge_server/scrapy_server/runner.py:22-110 | an accepted URL has scheme http or https and a non-empty host that is not a listed private name; an IP-literal host is one the classifier does not block, and any other host is under no private prefix |
| UrlSafety.PrivateNetworkHostIsPrivate | knowledge_server/scrapy_server/runner.py:40-55 | when the classifier blocks IP literals inside the listed networks, as the IP-address library does, every host in those networks is private, literal or not |
| UrlSafety.AcceptedOutsidePrivateNetworks | knowledge_server/scrapy_server/runner.py:22-110 | under that classifier, no accepted URL has a host in 10/8, 172.16/12, 192.168/16 or 169.254/16 |
| UrlSafety.MetadataAddressRefused | knowledge_server/scrapy_server/runner.py:40-95 | under that classifier, a URL whose host is the metadata address 169.254.169.254 is refused as private, whatever the whitelist |

## Left out

- The HTTP API server, the command-line entry point and configuration loading are outside the retrieval core.
- The crawler's spiders, `ScrapyRunner` and `AsyncScrapyRunner` are left out because they do network I/O through foreign libraries.
- `VectorStore.save`/`load` and the `db_path` loading in the constructor are left out because they are file I/O. Saving writes two files one after the other, so it is not atomic.
- `GraphStore.close`, schema creation and the row-to-dictionary conversion of query results are left out. The database connection is not modelled; query rows are returned as typed rows.
- The distance metric and the nearest-neighbour computation are left out because they belong to the index engine. Its answer is an input.
- Float32 conversion, NaN scores and floating-point rounding are left out. Scores and distances are exact reals.
- `embed_text` and `embed_texts` are the abstract `embed` function, and the embedding model name is not modelled.
- The cross-encoder's batched `predict` over all pairs is modelled as one score per (query, document) pair.
- The `device` argument of the reranker is not modelled.
- `Reranker.ListAvailableModels` returns the registry. It is not a model member because it only returns the constant.
- VectorStore.Add: requires that caller-supplied ids match the vectors in number, because the index engine raises on a mismatch. When the engine refuses a width or a key, the model leaves the index unchanged. The engine may already have inserted other vectors of the batch before it raised; that is not modelled.
- UrlSafety.AcceptedIsSafe: does not compute the IP-address library's private, loopback and reserved classification. The classifier is an input. The lemmas about the listed networks assume that the classifier blocks IP literals inside them, which is what the library does.
- UrlSafety.IsPrivateIp: lower-cases ASCII letters only. Python's `str.lower` also folds non-ASCII letters, but the listed names are ASCII.
- UrlSafety.ValidateUrl: the `isinstance(url, str)` check is implied by the types. Any exception the parser raises is the single `InvalidUrl` refusal.
- GraphStore.GetDocumentEntities: returns a set of rows rather than a list. The database gives no order, and the edge invariant rules out duplicate rows.
- RagEngine.Retrieve: the index answer (`hits`) must respect the fetch count and the index's keys. A negative fetch count is excluded. That happens with a negative `top_k` without reranking, or a negative `rerank_top_k`. The engine refuses such a search, and that refusal is not modelled. The same applies to RagEngine.RetrieveWithGraph and RagEngine.GetContext.
- RagEngine.Retrieve: on the reranking path, a hit whose key has no text gives a None content, and the cross-encoder raises on it; the model scores it with the total `predict` and returns a reranked result instead. RagEngine.CandidateContentIsText states exactly when this happens: some hit's key has no text. The same holds for Reranker.RerankResults, RagEngine.RetrieveWithRerank and the reranking path of RagEngine.GetContext.
- RagEngine.AddDocument: entities are records, so `entity["id"]` and `entity["name"]` always exist. The source raises KeyError on a missing one after the graph node and the vector are written. An explicit `"type": None` is read as a missing type ("Unknown"), where `.get` would return None.
- RagEngine.GetContext: a content value that is not a string (for instance None) counts as empty, as Python's truthiness test does.
