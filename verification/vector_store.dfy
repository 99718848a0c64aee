/** The vector store's bookkeeping around an approximate-neighbour index.

    The index engine is abstract: it is an append-only sequence of
    (key, vector) entries, and a search is represented by the hits the
    engine returned for a query. The store itself keeps an id -> text side
    map and a monotonic id counter. */
module VectorStore {
  import opened Base

  type Vector = seq<real>

  /** One entry handed to the index engine. */
  datatype Entry = Entry(key: int, vector: Vector)

  /** `dimension` is the width the index engine was built for; the store
      itself never compares inserted vectors with it. */
  datatype Store = Store(dimension: nat, index: seq<Entry>, texts: map<int, string>, nextId: int)

  /** One (key, distance) pair returned by the index engine's search. */
  datatype Hit = Hit(key: int, distance: real)

  /** One search result: key, distance and the text looked up for the key. */
  datatype Match = Match(key: int, distance: real, text: Option<string>)

  /** The outcome of `add`: the ids it returns, or the index engine raising
      on a key it refuses. The store is the state afterwards in both cases. */
  datatype AddResult = Added(store: Store, ids: seq<int>) | Refused(store: Store, error: AddError)

  /** Why `add` raises: vectors of different widths cannot form a matrix;
      the index engine refuses a width other than its dimension, and a key
      it already holds or that repeats in the batch. */
  datatype AddError = Ragged | WrongDimension | KeyHeld

  /** A freshly constructed store: empty index, empty text map, counter 0. */
  function Empty(dimension: nat): (s: Store)
    ensures Len(s) == 0 && s.texts == map[] && s.nextId == 0
    ensures UniqueKeys(s.index)
  {
    Store(dimension, [], map[], 0)
  }

  /** The set of keys the index holds. */
  function Keys(index: seq<Entry>): set<int>
  {
    set e | e in index :: e.key
  }

  /** The keys of a non-empty index: the first entry's and the rest's. */
  lemma KeysCons(index: seq<Entry>)
    requires |index| > 0
    ensures Keys(index) == {index[0].key} + Keys(index[1..])
  {
    var rest := index[1..];
    forall k | k in Keys(index) ensures k in {index[0].key} + Keys(rest) {
      var e :| e in index && e.key == k;
      var j :| 0 <= j < |index| && index[j] == e;
      if j > 0 { assert rest[j - 1] == e; }
    }
    forall k | k in Keys(rest) ensures k in Keys(index) {
      var e :| e in rest && e.key == k;
      var j :| 0 <= j < |rest| && rest[j] == e;
      assert index[j + 1] == e;
    }
  }

  /** An index whose keys are unique has one key per entry. */
  lemma {:induction false} KeysCount(index: seq<Entry>)
    ensures UniqueKeys(index) ==> |Keys(index)| == |index|
    decreases |index|
  {
    if |index| > 0 && UniqueKeys(index) {
      var rest := index[1..];
      assert UniqueKeys(rest) by {
        forall i, j | 0 <= i < j < |rest| ensures rest[i].key != rest[j].key {
          assert rest[i] == index[i + 1] && rest[j] == index[j + 1];
        }
      }
      KeysCount(rest);
      KeysCons(index);
      assert index[0].key !in Keys(rest) by {
        forall e | e in rest ensures e.key != index[0].key {
          var j :| 0 <= j < |rest| && rest[j] == e;
          assert index[j + 1] == e;
        }
      }
    }
  }

  /** `len(store)`: the number of entries in the index; while no key occurs
      twice, that is the number of keys the index holds. */
  function Len(s: Store): (n: nat)
    ensures UniqueKeys(s.index) ==> n == |Keys(s.index)|
  {
    KeysCount(s.index);
    |s.index|
  }

  /** No key occurs twice in the index: the engine is built without
      multi-key support, so this is what it maintains. */
  predicate UniqueKeys(index: seq<Entry>) {
    forall i, j :: 0 <= i < j < |index| ==> index[i].key != index[j].key
  }

  /** All vectors of the batch have the same width. */
  predicate Rectangular(vectors: seq<Vector>) {
    forall i :: 0 <= i < |vectors| ==> |vectors[i]| == |vectors[0]|
  }

  /** All vectors of the batch have the index's width. */
  predicate FitsDimension(s: Store, vectors: seq<Vector>) {
    forall i :: 0 <= i < |vectors| ==> |vectors[i]| == s.dimension
  }

  /** Whether the index engine takes a batch of keys: none is already held
      and none repeats within the batch. */
  predicate AcceptsKeys(s: Store, ids: seq<int>) {
    && (forall i :: 0 <= i < |ids| ==> ids[i] !in Keys(s.index))
    && (forall i, j :: 0 <= i < j < |ids| ==> ids[i] != ids[j])
  }

  /** `list(range(start, start + n))`. */
  function Range(start: int, n: nat): (r: seq<int>)
    ensures |r| == n
    ensures forall i :: 0 <= i < n ==> r[i] == start + i
  {
    seq(n, i requires 0 <= i < n => start + i)
  }

  /** Pairs keys with vectors positionally, as the index engine's `add` does. */
  function Entries(ids: seq<int>, vectors: seq<Vector>): (r: seq<Entry>)
    requires |ids| == |vectors|
    ensures |r| == |ids|
    ensures forall i :: 0 <= i < |r| ==> r[i] == Entry(ids[i], vectors[i])
  {
    seq(|ids|, i requires 0 <= i < |ids| => Entry(ids[i], vectors[i]))
  }

  /** The `for i, text in zip(ids, texts): m[i] = text` loop, as a left fold. */
  function AssignTexts(m: map<int, string>, ids: seq<int>, texts: seq<string>): map<int, string>
    decreases |ids|
  {
    if |ids| == 0 || |texts| == 0 then m
    else AssignTexts(m[ids[0] := texts[0]], ids[1..], texts[1..])
  }

  /** Position `i` is the last position among the first `n` that carries key `ids[i]`. */
  ghost predicate LastOccurrence(ids: seq<int>, n: int, i: int)
    requires 0 <= i < n <= |ids|
  {
    forall j :: i < j < n ==> ids[j] != ids[i]
  }

  /** After the zip loop, a key that is paired with a text maps to the text of
      its last pairing; a key that is paired with no text keeps its old
      mapping (or stays absent). */
  lemma {:induction false} AssignTextsMeaning(m: map<int, string>, ids: seq<int>, texts: seq<string>)
    ensures var n := if |ids| < |texts| then |ids| else |texts|;
            var r := AssignTexts(m, ids, texts);
            && r.Keys == m.Keys + (set i | 0 <= i < n :: ids[i])
            && (forall i :: 0 <= i < n && LastOccurrence(ids, n, i) ==> r[ids[i]] == texts[i])
            && (forall k :: k in m && k !in ids[..n] ==> r[k] == m[k])
    decreases |ids|
  {
    var n := if |ids| < |texts| then |ids| else |texts|;
    if n > 0 {
      var m' := m[ids[0] := texts[0]];
      AssignTextsMeaning(m', ids[1..], texts[1..]);
      var r := AssignTexts(m, ids, texts);
      assert r == AssignTexts(m', ids[1..], texts[1..]);
      var n' := n - 1;
      assert (set i | 0 <= i < n :: ids[i]) == {ids[0]} + set i | 0 <= i < n' :: ids[1..][i] by {
        forall i | 0 <= i < n
          ensures ids[i] in {ids[0]} + set i | 0 <= i < n' :: ids[1..][i]
        {
          if i > 0 { assert ids[1..][i - 1] == ids[i]; }
        }
      }
      forall i | 0 <= i < n && LastOccurrence(ids, n, i)
        ensures r[ids[i]] == texts[i]
      {
        if i > 0 {
          assert LastOccurrence(ids[1..], n', i - 1);
        } else {
          forall j | 0 <= j < n' ensures ids[1..][..n'][j] != ids[0] {
            assert ids[j + 1] != ids[0];
          }
        }
      }
      forall k | k in m && k !in ids[..n]
        ensures r[k] == m[k]
      {
        assert ids[1..][..n'] == ids[..n][1..];
      }
    }
  }

  /** The ids `add` hands to the index: the caller's, or `n` fresh ones
      counted up from `nextId`. */
  function AssignedIds(s: Store, n: nat, ids: Option<seq<int>>): (r: seq<int>)
    requires ids.Some? ==> |ids.value| == n
    ensures |r| == n
  {
    if ids.Some? then ids.value else Range(s.nextId, n)
  }

  /** `VectorStore.add`. A batch of vectors of different widths raises
      before anything else. Without caller ids the ids `[nextId, nextId + n)`
      are assigned and the counter advances by `n`, before the index is
      touched; with caller ids those are used unchanged and the counter is
      left alone. The index engine raises on a vector whose width is not its
      dimension, and on a key it already holds or a key repeated in the
      batch; then neither the index nor the texts change. Otherwise the index
      grows by one entry per vector, and texts are recorded only when a
      non-empty text list is given. */
  function Add(s: Store, vectors: seq<Vector>, texts: Option<seq<string>>, ids: Option<seq<int>>): (r: AddResult)
    requires ids.Some? ==> |ids.value| == |vectors|
    ensures r.Added? <==> FitsDimension(s, vectors) && AcceptsKeys(s, AssignedIds(s, |vectors|, ids))
    ensures r.Refused? ==> (r.error == Ragged <==> !Rectangular(vectors))
    ensures r.Refused? && Rectangular(vectors) ==> (r.error == WrongDimension <==> !FitsDimension(s, vectors))
    ensures ids.None? && Rectangular(vectors) ==> r.store.nextId == s.nextId + |vectors|
    ensures ids.Some? || !Rectangular(vectors) ==> r.store.nextId == s.nextId
    ensures r.store.dimension == s.dimension
    ensures r.Refused? ==> r.store.index == s.index && r.store.texts == s.texts
    ensures r.Added? && ids.None? ==> r.ids == Range(s.nextId, |vectors|)
    ensures r.Added? && ids.Some? ==> r.ids == ids.value
    ensures r.Added? ==> Len(r.store) == Len(s) + |vectors|
    ensures r.Added? ==> r.store.index == s.index + Entries(r.ids, vectors)
    ensures texts.None? || texts.value == [] ==> r.store.texts == s.texts
  {
    var newIds := AssignedIds(s, |vectors|, ids);
    var next := if ids.Some? then s.nextId else s.nextId + |vectors|;
    if !Rectangular(vectors) then Refused(s, Ragged)
    else if !FitsDimension(s, vectors) then Refused(s.(nextId := next), WrongDimension)
    else if !AcceptsKeys(s, newIds) then Refused(s.(nextId := next), KeyHeld)
    else
      var textMap := if texts.Some? && texts.value != [] then AssignTexts(s.texts, newIds, texts.value) else s.texts;
      Added(Store(s.dimension, s.index + Entries(newIds, vectors), textMap, next), newIds)
  }

  /** Whatever the keys, the index never holds a key twice after `add`. */
  lemma AddKeepsKeysUnique(s: Store, vectors: seq<Vector>, texts: Option<seq<string>>, ids: Option<seq<int>>)
    requires ids.Some? ==> |ids.value| == |vectors|
    requires UniqueKeys(s.index)
    ensures UniqueKeys(Add(s, vectors, texts, ids).store.index)
  {
    var r := Add(s, vectors, texts, ids);
    if r.Added? {
      var index := r.store.index;
      var n := |s.index|;
      forall i, j | 0 <= i < j < |index| ensures index[i].key != index[j].key {
        if j >= n {
          if i < n {
            assert s.index[i] in s.index;
            assert index[i].key in Keys(s.index);
          }
          assert index[j].key == r.ids[j - n];
        }
      }
    }
  }

  /** Adding a key the index already holds raises and leaves the store as
      it was; with a vector of the index's width, the error is the key. */
  lemma AddHeldKeyRefused(s: Store, v: Vector, text: string, k: int)
    requires k in Keys(s.index)
    ensures var r := Add(s, [v], Some([text]), Some([k]));
            && r.Refused?
            && r.store == s
            && (|v| == s.dimension ==> r.error == KeyHeld)
  {
  }

  /** Appending entries adds exactly their keys. */
  lemma KeysAppend(index: seq<Entry>, ids: seq<int>, vectors: seq<Vector>)
    requires |ids| == |vectors|
    ensures Keys(index + Entries(ids, vectors)) == Keys(index) + (set i | 0 <= i < |ids| :: ids[i])
  {
    var all := index + Entries(ids, vectors);
    forall k | k in Keys(all) ensures k in Keys(index) + (set i | 0 <= i < |ids| :: ids[i]) {
      var e :| e in all && e.key == k;
      var j :| 0 <= j < |all| && all[j] == e;
      if j >= |index| { assert ids[j - |index|] == k; }
      else { assert index[j] == e; }
    }
    forall k | k in (set i | 0 <= i < |ids| :: ids[i]) ensures k in Keys(all) {
      var i :| 0 <= i < |ids| && ids[i] == k;
      assert all[|index| + i] in all;
    }
    forall k | k in Keys(index) ensures k in Keys(all) {
      var e :| e in index && e.key == k;
      var j :| 0 <= j < |index| && index[j] == e;
      assert all[j] in all;
    }
  }

  /** After `add` the index holds exactly the keys it held before plus the
      returned ids. */
  lemma AddKeys(s: Store, vectors: seq<Vector>, texts: Option<seq<string>>, ids: Option<seq<int>>)
    requires ids.Some? ==> |ids.value| == |vectors|
    ensures var r := Add(s, vectors, texts, ids);
            && (r.Refused? ==> Keys(r.store.index) == Keys(s.index))
            && (r.Added? ==> Keys(r.store.index) == Keys(s.index) + (set i | 0 <= i < |vectors| :: r.ids[i]))
  {
    var r := Add(s, vectors, texts, ids);
    if r.Added? {
      KeysAppend(s.index, r.ids, vectors);
    }
  }

  /** When the engine takes the batch, each id paired positionally with a
      text maps to that text afterwards, and ids paired with no text keep
      their previous mapping. */
  lemma AddRecordsTexts(s: Store, vectors: seq<Vector>, texts: seq<string>, ids: Option<seq<int>>)
    requires ids.Some? ==> |ids.value| == |vectors|
    requires texts != []
    ensures var r := Add(s, vectors, Some(texts), ids);
            var n := if |vectors| < |texts| then |vectors| else |texts|;
            r.Added? ==>
              (&& (forall i :: 0 <= i < n ==> r.ids[i] in r.store.texts && r.store.texts[r.ids[i]] == texts[i])
               && (forall k :: k in s.texts && k !in r.ids[..n] ==> k in r.store.texts && r.store.texts[k] == s.texts[k]))
  {
    var r := Add(s, vectors, Some(texts), ids);
    if r.Added? {
      var n := if |vectors| < |texts| then |vectors| else |texts|;
      AssignTextsMeaning(s.texts, r.ids, texts);
      forall i | 0 <= i < n ensures LastOccurrence(r.ids, n, i) {
        assert AcceptsKeys(s, r.ids);
      }
    }
  }

  /** Without caller ids every id is fresh-counted, so the add succeeds
      exactly when the vectors fit the index and no counted id is held, and
      then every assigned id maps to its own text. */
  lemma AddFreshIdsRecordTexts(s: Store, vectors: seq<Vector>, texts: seq<string>)
    requires |texts| == |vectors| && texts != []
    ensures var r := Add(s, vectors, Some(texts), None);
            && (r.Added? <==> FitsDimension(s, vectors) && forall k :: s.nextId <= k < s.nextId + |vectors| ==> k !in Keys(s.index))
            && (r.Added? ==> r.ids == Range(s.nextId, |vectors|))
            && (r.Added? ==> forall i :: 0 <= i < |r.ids| ==> r.ids[i] in r.store.texts && r.store.texts[r.ids[i]] == texts[i])
  {
    var r := Add(s, vectors, Some(texts), None);
    var counted := Range(s.nextId, |vectors|);
    if forall k :: s.nextId <= k < s.nextId + |vectors| ==> k !in Keys(s.index) {
      assert AcceptsKeys(s, counted);
    } else {
      var k :| s.nextId <= k < s.nextId + |vectors| && k in Keys(s.index);
      assert counted[k - s.nextId] == k;
    }
    if r.Refused? {
      return;
    }
    AssignTextsMeaning(s.texts, r.ids, texts);
    forall i | 0 <= i < |r.ids| ensures r.ids[i] in r.store.texts && r.store.texts[r.ids[i]] == texts[i] {
      assert LastOccurrence(r.ids, |vectors|, i);
    }
  }

  /** The `for id_ in ids: if id_ in m: del m[id_]` loop, as a left fold. */
  function DeleteTexts(m: map<int, string>, ids: seq<int>): map<int, string>
    decreases |ids|
  {
    if |ids| == 0 then m
    else DeleteTexts(if ids[0] in m then m - {ids[0]} else m, ids[1..])
  }

  /** The fold removes exactly the listed ids, unknown ids being ignored. */
  lemma {:induction false} DeleteTextsRemovesListed(m: map<int, string>, ids: seq<int>)
    ensures DeleteTexts(m, ids) == m - (set i | i in ids)
    decreases |ids|
  {
    if |ids| > 0 {
      var m' := if ids[0] in m then m - {ids[0]} else m;
      DeleteTextsRemovesListed(m', ids[1..]);
      assert m' - (set i | i in ids[1..]) == m - (set i | i in ids);
    }
  }

  /** `VectorStore.delete`: drops the text mappings of the listed ids and
      nothing else. The index is not touched, so the length is unchanged and
      a deleted key stays searchable. */
  function Delete(s: Store, ids: seq<int>): (r: Store)
    ensures r.texts.Keys == s.texts.Keys - (set i | i in ids)
    ensures forall k :: k in r.texts ==> r.texts[k] == s.texts[k]
    ensures r.index == s.index && Len(r) == Len(s)
    ensures r.nextId == s.nextId && r.dimension == s.dimension
  {
    DeleteTextsRemovesListed(s.texts, ids);
    s.(texts := DeleteTexts(s.texts, ids))
  }

  /** Deleting the same ids twice is the same as deleting them once. */
  lemma DeleteIdempotent(s: Store, ids: seq<int>)
    ensures Delete(Delete(s, ids), ids) == Delete(s, ids)
  {
    var once := Delete(s, ids);
    var twice := Delete(once, ids);
    assert twice.texts == once.texts;
  }

  /** What the index engine may answer for a search asking for `k` results:
      at most `k` hits, each for a key the index holds. */
  predicate ValidHits(s: Store, hits: seq<Hit>, k: int)
  {
    |hits| <= k && forall h :: h in hits ==> h.key in Keys(s.index)
  }

  /** `VectorStore.search`: the engine's hits in their order, each with the
      text-map lookup for its key (None when the key has no text). There is
      no filtering of deleted ids. */
  function Search(s: Store, hits: seq<Hit>): (r: seq<Match>)
    ensures |r| == |hits|
    ensures forall i :: 0 <= i < |r| ==> r[i].key == hits[i].key && r[i].distance == hits[i].distance
    ensures forall i :: 0 <= i < |r| ==> (r[i].text.Some? <==> hits[i].key in s.texts)
    ensures forall i :: 0 <= i < |r| && r[i].text.Some? ==> r[i].text.value == s.texts[hits[i].key]
  {
    seq(|hits|, i requires 0 <= i < |hits| =>
      Match(hits[i].key, hits[i].distance, if hits[i].key in s.texts then Some(s.texts[hits[i].key]) else None))
  }

  /** A deleted id is still in the index: the engine may still return it,
      and the store then reports it with no text. */
  lemma DeletedKeyStillReturned(s: Store, k: int, d: real)
    requires k in Keys(s.index)
    ensures var s' := Delete(s, [k]);
            && ValidHits(s', [Hit(k, d)], 1)
            && Search(s', [Hit(k, d)]) == [Match(k, d, None)]
  {
    var s' := Delete(s, [k]);
    assert k in set i | i in [k];
  }

  /** Text recorded by `add` without caller ids is what a search hit on that
      id reports. */
  lemma AddedTextFoundBySearch(s: Store, v: Vector, text: string, d: real)
    ensures var r := Add(s, [v], Some([text]), None);
            && (r.Added? <==> |v| == s.dimension && s.nextId !in Keys(s.index))
            && (r.Added? ==> r.ids == [s.nextId])
            && (r.Added? ==> ValidHits(r.store, [Hit(s.nextId, d)], 1))
            && (r.Added? ==> Search(r.store, [Hit(s.nextId, d)]) == [Match(s.nextId, d, Some(text))])
  {
    var r := Add(s, [v], Some([text]), None);
    if r.Refused? { return; }
    AddFreshIdsRecordTexts(s, [v], [text]);
    assert r.store.index[Len(s)] == Entry(s.nextId, v);
    assert r.store.index[Len(s)] in r.store.index;
  }
}
