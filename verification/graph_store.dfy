/** The knowledge graph: Document and Entity nodes keyed by id, MENTIONS
    edges (Document -> Entity) and RELATED_TO edges (Entity -> Entity, with a
    relation type). Each operation mirrors what its Cypher statements do to
    the graph; the graph engine itself is not modelled. Query results are
    sets of rows, since the engine promises no row order. */
module GraphStore {
  import opened Base

  datatype DocNode = DocNode(title: string, content: string, url: string)
  datatype EntityNode = EntityNode(name: string, entityType: string, description: string)
  datatype Mention = Mention(docId: string, entityId: string)
  datatype Relation = Relation(source: string, target: string, relationType: string)

  datatype Graph = Graph(
    documents: map<string, DocNode>,
    entities: map<string, EntityNode>,
    mentions: seq<Mention>,
    relations: seq<Relation>)

  /** The row `MATCH (d:Document) RETURN d.id, d.title, d.content, d.url` yields. */
  datatype DocumentRow = DocumentRow(id: string, title: string, content: string, url: string)
  /** The row `RETURN e.id, e.name, e.entity_type, e.description` yields. */
  datatype EntityRow = EntityRow(id: string, name: string, entityType: string, description: string)
  /** An entity row extended with the `r.relation_type` of the edge that reached it. */
  datatype RelatedRow = RelatedRow(entity: EntityRow, relationType: string)

  /** A freshly initialised database: the schema and no data. */
  function EmptyGraph(): (g: Graph)
    ensures Valid(g)
  {
    Graph(map[], map[], [], [])
  }

  /** What the operations below keep true: every edge joins existing nodes,
      no (document, entity) pair is mentioned twice, and no (source, target)
      pair carries two RELATED_TO edges. */
  ghost predicate Valid(g: Graph) {
    && (forall m :: m in g.mentions ==> m.docId in g.documents && m.entityId in g.entities)
    && (forall r :: r in g.relations ==> r.source in g.entities && r.target in g.entities)
    && (forall i, j :: 0 <= i < j < |g.mentions| ==> g.mentions[i] != g.mentions[j])
    && (forall i, j :: 0 <= i < j < |g.relations| ==>
          g.relations[i].source != g.relations[j].source || g.relations[i].target != g.relations[j].target)
  }

  /** `GraphStore.add_document`: an upsert. The existing node's properties are
      overwritten, or a new node is created; a missing url is stored as "". */
  function AddDocument(g: Graph, docId: string, title: string, content: string, url: Option<string>): (r: Graph)
    ensures GetDocument(r, docId) == Some(DocumentRow(docId, title, content, OrEmpty(url)))
    ensures forall d :: d != docId ==> GetDocument(r, d) == GetDocument(g, d)
    ensures r.documents.Keys == g.documents.Keys + {docId}
    ensures r.entities == g.entities && r.mentions == g.mentions && r.relations == g.relations
    ensures Valid(g) ==> Valid(r)
  {
    if docId in g.documents then
      g.(documents := g.documents[docId := g.documents[docId].(title := title, content := content, url := OrEmpty(url))])
    else
      g.(documents := g.documents[docId := DocNode(title, content, OrEmpty(url))])
  }

  /** `GraphStore.add_entity`: the same upsert for Entity nodes; a missing
      description is stored as "". */
  function AddEntity(g: Graph, entityId: string, name: string, entityType: string, description: Option<string>): (r: Graph)
    ensures GetEntity(r, entityId) == Some(EntityRow(entityId, name, entityType, OrEmpty(description)))
    ensures forall e :: e != entityId ==> GetEntity(r, e) == GetEntity(g, e)
    ensures r.entities.Keys == g.entities.Keys + {entityId}
    ensures r.documents == g.documents && r.mentions == g.mentions && r.relations == g.relations
    ensures Valid(g) ==> Valid(r)
  {
    if entityId in g.entities then
      g.(entities := g.entities[entityId := g.entities[entityId].(name := name, entityType := entityType, description := OrEmpty(description))])
    else
      g.(entities := g.entities[entityId := EntityNode(name, entityType, OrEmpty(description))])
  }

  /** `GraphStore.link_document_entity`. The first query finds an existing
      MENTIONS edge for the pair; only when there is none does the CREATE run,
      and its MATCH creates nothing unless both endpoints exist. */
  function LinkDocumentEntity(g: Graph, docId: string, entityId: string): (r: Graph)
    ensures r.documents == g.documents && r.entities == g.entities && r.relations == g.relations
    ensures Mention(docId, entityId) in r.mentions <==>
              Mention(docId, entityId) in g.mentions || (docId in g.documents && entityId in g.entities)
    ensures forall m :: m != Mention(docId, entityId) ==> (m in r.mentions <==> m in g.mentions)
    ensures |r.mentions| <= |g.mentions| + 1
    ensures Valid(g) ==> Valid(r)
  {
    if Mention(docId, entityId) in g.mentions then g
    else if docId in g.documents && entityId in g.entities then
      g.(mentions := g.mentions + [Mention(docId, entityId)])
    else g
  }

  /** True if some RELATED_TO edge, of any relation type, joins `source` to `target`. */
  predicate HasRelation(g: Graph, source: string, target: string) {
    exists r :: r in g.relations && r.source == source && r.target == target
  }

  /** `GraphStore.link_entities`. The existence query ignores the relation
      type, so a pair that is already joined gets no second edge whatever
      type is asked for; the CREATE needs both endpoints. Self-links are not
      rejected. */
  function LinkEntities(g: Graph, source: string, target: string, relationType: string): (r: Graph)
    ensures r.documents == g.documents && r.entities == g.entities && r.mentions == g.mentions
    ensures HasRelation(g, source, target) || source !in g.entities || target !in g.entities ==> r == g
    ensures !HasRelation(g, source, target) && source in g.entities && target in g.entities ==>
              r.relations == g.relations + [Relation(source, target, relationType)]
    ensures Valid(g) ==> Valid(r)
  {
    if HasRelation(g, source, target) then g
    else if source in g.entities && target in g.entities then
      g.(relations := g.relations + [Relation(source, target, relationType)])
    else g
  }

  function DocumentRowOf(g: Graph, docId: string): DocumentRow
    requires docId in g.documents
  {
    var d := g.documents[docId];
    DocumentRow(docId, d.title, d.content, d.url)
  }

  function EntityRowOf(g: Graph, entityId: string): EntityRow
    requires entityId in g.entities
  {
    var e := g.entities[entityId];
    EntityRow(entityId, e.name, e.entityType, e.description)
  }

  /** `GraphStore.get_document`: the document's row, or None. */
  function GetDocument(g: Graph, docId: string): (r: Option<DocumentRow>)
    ensures r.Some? <==> docId in g.documents
    ensures r.Some? ==> r.value.id == docId
  {
    if docId in g.documents then Some(DocumentRowOf(g, docId)) else None
  }

  /** `GraphStore.get_entity`: the entity's row, or None. */
  function GetEntity(g: Graph, entityId: string): (r: Option<EntityRow>)
    ensures r.Some? <==> entityId in g.entities
    ensures r.Some? ==> r.value.id == entityId
  {
    if entityId in g.entities then Some(EntityRowOf(g, entityId)) else None
  }

  /** `GraphStore.get_document_entities`: the rows of the entities the
      document has a MENTIONS edge to. */
  function GetDocumentEntities(g: Graph, docId: string): (r: set<EntityRow>)
    ensures forall row :: row in r ==> row.id in g.entities && Mention(docId, row.id) in g.mentions
  {
    set m | m in g.mentions && m.docId == docId && docId in g.documents && m.entityId in g.entities
          :: EntityRowOf(g, m.entityId)
  }

  /** Whether an edge passes the optional relation-type filter; `None` and ""
      both mean no filter. */
  predicate PassesFilter(relationType: string, filter: Option<string>) {
    !Truthy(filter) || relationType == filter.value
  }

  /** `GraphStore.get_related_entities`: one hop along outgoing RELATED_TO
      edges, each target row carrying its edge's relation type. */
  function GetRelatedEntities(g: Graph, entityId: string, relationType: Option<string>): (r: set<RelatedRow>)
    ensures forall row :: row in r ==> row.entity.id in g.entities && PassesFilter(row.relationType, relationType)
  {
    set e | e in g.relations && e.source == entityId && entityId in g.entities && e.target in g.entities
                 && PassesFilter(e.relationType, relationType)
          :: RelatedRow(EntityRowOf(g, e.target), e.relationType)
  }

  /** Whether an entity passes `search_entities`' filters: the name contains
      the pattern, and the type matches when a non-empty type is given. */
  predicate Matches(e: EntityNode, namePattern: string, entityType: Option<string>) {
    Contains(e.name, namePattern) && (!Truthy(entityType) || e.entityType == entityType.value)
  }

  /** `GraphStore.search_entities`. */
  function SearchEntities(g: Graph, namePattern: string, entityType: Option<string>): (r: set<EntityRow>)
    ensures forall row :: row in r ==> row.id in g.entities && Contains(row.name, namePattern)
  {
    set id | id in g.entities && Matches(g.entities[id], namePattern, entityType) :: EntityRowOf(g, id)
  }

  /** A second identical upsert changes nothing. */
  lemma AddDocumentIdempotent(g: Graph, docId: string, title: string, content: string, url: Option<string>)
    ensures var once := AddDocument(g, docId, title, content, url);
            AddDocument(once, docId, title, content, url) == once
  {
  }

  /** Upserting the same id twice leaves one node for it, holding the
      latest properties; the node count grows by at most one. */
  lemma AddDocumentTwiceKeepsLatest(g: Graph, docId: string, t1: string, c1: string, u1: Option<string>,
                                     t2: string, c2: string, u2: Option<string>)
    ensures var r := AddDocument(AddDocument(g, docId, t1, c1, u1), docId, t2, c2, u2);
            && GetDocument(r, docId) == Some(DocumentRow(docId, t2, c2, OrEmpty(u2)))
            && |r.documents| == |g.documents| + (if docId in g.documents then 0 else 1)
  {
    var r := AddDocument(AddDocument(g, docId, t1, c1, u1), docId, t2, c2, u2);
    if docId !in g.documents {
      assert r.documents.Keys == g.documents.Keys + {docId};
      assert |g.documents.Keys + {docId}| == |g.documents.Keys| + 1;
    } else {
      assert r.documents.Keys == g.documents.Keys;
    }
  }

  /** Linking a document to an entity twice adds at most one edge. */
  lemma LinkDocumentEntityIdempotent(g: Graph, docId: string, entityId: string)
    ensures var once := LinkDocumentEntity(g, docId, entityId);
            LinkDocumentEntity(once, docId, entityId) == once
  {
  }

  /** Once two entities are related, relating them again under any other
      type is a no-op: the existence check ignores the type. */
  lemma LinkEntitiesOtherTypeIsNoop(g: Graph, source: string, target: string, t1: string, t2: string)
    ensures var once := LinkEntities(g, source, target, t1);
            LinkEntities(once, source, target, t2) == once
  {
    var once := LinkEntities(g, source, target, t1);
    if !HasRelation(g, source, target) && source in g.entities && target in g.entities {
      assert once.relations[|g.relations|] == Relation(source, target, t1);
      assert HasRelation(once, source, target);
    }
  }

  /** The rows `get_document_entities` returns are exactly the current rows of
      the entities the document mentions. */
  lemma GetDocumentEntitiesExactly(g: Graph, docId: string, row: EntityRow)
    ensures row in GetDocumentEntities(g, docId) <==>
              docId in g.documents && GetEntity(g, row.id) == Some(row) && Mention(docId, row.id) in g.mentions
  {
    if docId in g.documents && GetEntity(g, row.id) == Some(row) && Mention(docId, row.id) in g.mentions {
      var m := Mention(docId, row.id);
      assert EntityRowOf(g, m.entityId) == row;
    }
  }

  /** The rows `get_related_entities` returns are exactly the current rows of
      the targets of the entity's outgoing RELATED_TO edges that pass the
      relation-type filter, each paired with its edge's type. */
  lemma GetRelatedEntitiesExactly(g: Graph, entityId: string, filter: Option<string>, row: EntityRow, t: string)
    ensures RelatedRow(row, t) in GetRelatedEntities(g, entityId, filter) <==>
              && entityId in g.entities
              && GetEntity(g, row.id) == Some(row)
              && Relation(entityId, row.id, t) in g.relations
              && PassesFilter(t, filter)
  {
    if entityId in g.entities && GetEntity(g, row.id) == Some(row) && Relation(entityId, row.id, t) in g.relations
       && PassesFilter(t, filter) {
      var e := Relation(entityId, row.id, t);
      assert RelatedRow(EntityRowOf(g, e.target), e.relationType) == RelatedRow(row, t);
    }
  }

  /** After relating `a` to `b` under type `t` (with no earlier edge between
      them), `b` is among `a`'s neighbours under `t` and under no filter, and
      absent under any other non-empty type. */
  lemma RelatedAfterLink(g: Graph, a: string, b: string, t: string, other: string)
    requires a in g.entities && b in g.entities && !HasRelation(g, a, b)
    requires other != "" && other != t
    ensures var r := LinkEntities(g, a, b, t);
            && RelatedRow(EntityRowOf(g, b), t) in GetRelatedEntities(r, a, Some(t))
            && RelatedRow(EntityRowOf(g, b), t) in GetRelatedEntities(r, a, None)
            && forall row :: row in GetRelatedEntities(r, a, Some(other)) ==> row.entity.id != b
  {
    var r := LinkEntities(g, a, b, t);
    var e := Relation(a, b, t);
    assert r.relations[|g.relations|] == e;
    GetRelatedEntitiesExactly(r, a, Some(t), EntityRowOf(g, b), t);
    GetRelatedEntitiesExactly(r, a, None, EntityRowOf(g, b), t);
    forall row | row in GetRelatedEntities(r, a, Some(other)) ensures row.entity.id != b {
      GetRelatedEntitiesExactly(r, a, Some(other), row.entity, row.relationType);
    }
  }

  /** `search_entities` returns exactly the current rows of the entities whose
      name contains the pattern and, when a non-empty type is given, whose
      type equals it. */
  lemma SearchEntitiesExactly(g: Graph, namePattern: string, entityType: Option<string>, row: EntityRow)
    ensures row in SearchEntities(g, namePattern, entityType) <==>
              && GetEntity(g, row.id) == Some(row)
              && Contains(row.name, namePattern)
              && (!Truthy(entityType) || row.entityType == entityType.value)
  {
  }

  /** The empty pattern matches every entity. */
  lemma SearchEmptyPatternFindsAll(g: Graph, entityId: string)
    requires entityId in g.entities
    ensures EntityRowOf(g, entityId) in SearchEntities(g, "", None)
  {
    ContainsEmpty(g.entities[entityId].name);
  }

  /** An entity is found by its own name right after it is upserted. */
  lemma SearchFindsUpsertedEntity(g: Graph, entityId: string, name: string, entityType: string, description: Option<string>)
    ensures EntityRow(entityId, name, entityType, OrEmpty(description))
              in SearchEntities(AddEntity(g, entityId, name, entityType, description), name, Some(entityType))
  {
    var r := AddEntity(g, entityId, name, entityType, description);
    ContainsSelf(name);
    SearchEntitiesExactly(r, name, Some(entityType), EntityRow(entityId, name, entityType, OrEmpty(description)));
  }
}
