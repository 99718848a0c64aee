/** The ranking step of reranking: a stable sort by score, descending.

    Python's `list.sort(key=..., reverse=True)` is stable, so items with
    equal scores keep their original (ascending index) order. That order is
    the strict relation `Before`, and a ranking is a sequence in which every
    earlier item is `Before` every later one. */
module StableSort {

  /** One scored candidate: its position in the input, its score, and the
      document itself. */
  datatype Ranked<D> = Ranked(index: nat, score: real, doc: D)

  /** `a` precedes `b`: a higher score, or an equal score and a smaller index. */
  predicate Before<D>(a: Ranked<D>, b: Ranked<D>) {
    a.score > b.score || (a.score == b.score && a.index < b.index)
  }

  /** Every earlier item precedes every later one: scores are non-increasing
      and equal scores appear in ascending original index. */
  ghost predicate IsRanking<D>(s: seq<Ranked<D>>) {
    forall i, j :: 0 <= i < j < |s| ==> Before(s[i], s[j])
  }

  /** Some entry of `s` is the candidate with original index `i`. */
  ghost predicate HasIndex<D>(s: seq<Ranked<D>>, i: nat) {
    exists k :: 0 <= k < |s| && s[k].index == i
  }

  /** The candidates in input order: item `i` is document `i` with its score. */
  function Enumerate<D>(score: D -> real, docs: seq<D>): (r: seq<Ranked<D>>)
    ensures |r| == |docs|
    ensures forall i :: 0 <= i < |r| ==> r[i] == Ranked(i, score(docs[i]), docs[i])
  {
    seq(|docs|, i requires 0 <= i < |docs| => Ranked(i, score(docs[i]), docs[i]))
  }

  /** Inserts `x`, whose index exceeds every index in `s`, after all items
      scoring at least as much as it. */
  function Insert<D>(x: Ranked<D>, s: seq<Ranked<D>>): (r: seq<Ranked<D>>)
    requires IsRanking(s)
    requires forall k :: 0 <= k < |s| ==> s[k].index < x.index
    ensures IsRanking(r)
    ensures multiset(r) == multiset(s) + multiset{x}
    decreases |s|
  {
    if |s| == 0 then [x]
    else if s[0].score < x.score then [x] + s
    else
      var rest := Insert(x, s[1..]);
      assert s == [s[0]] + s[1..];
      assert forall k :: 0 <= k < |rest| ==> Before(s[0], rest[k]) by {
        forall k | 0 <= k < |rest| ensures Before(s[0], rest[k]) {
          assert rest[k] in multiset(rest);
          if rest[k] != x {
            assert rest[k] in multiset(s[1..]);
            var j :| 0 <= j < |s[1..]| && s[1..][j] == rest[k];
            assert s[j + 1] == rest[k];
          }
        }
      }
      [s[0]] + rest
  }

  /** Insertion sort over items whose indices are their positions. */
  function Sort<D>(items: seq<Ranked<D>>): (r: seq<Ranked<D>>)
    requires forall i :: 0 <= i < |items| ==> items[i].index == i
    ensures IsRanking(r)
    ensures multiset(r) == multiset(items)
    decreases |items|
  {
    if |items| == 0 then []
    else
      var n := |items| - 1;
      var sorted := Sort(items[..n]);
      IndicesBelow(items[..n], sorted, items[n].index);
      assert items == items[..n] + [items[n]];
      Insert(items[n], sorted)
  }

  /** A permutation of items whose indices are their positions has every
      index below any bound at least the number of items. */
  lemma IndicesBelow<D>(items: seq<Ranked<D>>, sorted: seq<Ranked<D>>, bound: nat)
    requires forall i :: 0 <= i < |items| ==> items[i].index == i
    requires multiset(sorted) == multiset(items)
    requires |items| <= bound
    ensures forall k :: 0 <= k < |sorted| ==> sorted[k].index < bound
  {
    forall k | 0 <= k < |sorted| ensures sorted[k].index < bound {
      assert sorted[k] in multiset(items);
      var j :| 0 <= j < |items| && items[j] == sorted[k];
    }
  }

  /** `Before` is a strict order: no item precedes itself and no two items
      precede each other. */
  lemma BeforeAsymmetric<D>(a: Ranked<D>, b: Ranked<D>)
    ensures !(Before(a, b) && Before(b, a))
  {
  }

  /** The stable descending ranking of a collection is unique: two rankings
      holding the same items are equal. So `Sort` computes THE stable sort,
      whatever algorithm produces it. */
  lemma {:induction false} RankingUnique<D>(a: seq<Ranked<D>>, b: seq<Ranked<D>>)
    requires IsRanking(a) && IsRanking(b)
    requires multiset(a) == multiset(b)
    ensures a == b
    decreases |a|
  {
    assert |a| == |multiset(a)| == |multiset(b)| == |b|;
    if |a| > 0 {
      assert a[0] in multiset(b);
      assert b[0] in multiset(a);
      var i :| 0 <= i < |a| && a[i] == b[0];
      var j :| 0 <= j < |b| && b[j] == a[0];
      if a[0] != b[0] {
        assert i > 0 && j > 0;
        assert Before(a[0], a[i]);
        assert Before(b[0], b[j]);
        BeforeAsymmetric(a[0], b[0]);
        assert false;
      }
      assert a == [a[0]] + a[1..];
      assert b == [b[0]] + b[1..];
      assert multiset(a) == multiset{a[0]} + multiset(a[1..]);
      assert multiset(b) == multiset{b[0]} + multiset(b[1..]);
      assert multiset(a[1..]) == multiset(a) - multiset{a[0]};
      assert multiset(b[1..]) == multiset(b) - multiset{b[0]};
      TailIsRanking(a);
      TailIsRanking(b);
      RankingUnique(a[1..], b[1..]);
    }
  }

  lemma TailIsRanking<D>(s: seq<Ranked<D>>)
    requires IsRanking(s) && |s| > 0
    ensures IsRanking(s[1..])
  {
    forall i, j | 0 <= i < j < |s| - 1 ensures Before(s[1..][i], s[1..][j]) {
      assert Before(s[i + 1], s[j + 1]);
    }
  }

  /** In a ranking built from enumerated documents, no document appears twice. */
  lemma RankingIndicesDistinct<D>(s: seq<Ranked<D>>)
    requires IsRanking(s)
    ensures forall i, j :: 0 <= i < j < |s| ==> s[i] != s[j]
  {
    forall i, j | 0 <= i < j < |s| ensures s[i] != s[j] {
      assert Before(s[i], s[j]);
    }
  }
}
