/** Character-budget packing of retrieved contents into one context string.

    Contents are taken in result order. Empty contents are skipped. A
    content that fits the remaining budget is taken whole. The first
    non-empty content that does not fit ends the packing; before stopping,
    its prefix of exactly the remaining length is taken when more than 100
    characters remain. Separators are not charged to the budget. */
module ContextPack {
  import opened Base

  /** The string placed between packed parts. */
  const Separator: string := "\n\n---\n\n"

  /** The characters allowed for a token budget: four per token. */
  function CharLimit(maxTokens: int): int
  {
    maxTokens * 4
  }

  /** The part taken from the content that did not fit: its first
      `remaining` characters when more than 100 remain, otherwise nothing. */
  function PartialTail(c: string, remaining: int): (tail: seq<string>)
    requires remaining < |c|
    ensures |tail| <= 1
    ensures tail != [] <==> remaining > 100
    ensures tail != [] ==> tail[0] == c[..remaining] && |tail[0]| == remaining
  {
    if remaining > 100 then [c[..remaining]] else []
  }

  /** The packing loop of `get_context`, as a recursive reference: `used` is
      the number of characters already packed. */
  function Pack(contents: seq<string>, used: int, limit: int): (parts: seq<string>)
    decreases |contents|
  {
    if |contents| == 0 then []
    else
      var c := contents[0];
      if c != "" && used + |c| <= limit then [c] + Pack(contents[1..], used + |c|, limit)
      else if c != "" then PartialTail(c, limit - used)
      else Pack(contents[1..], used, limit)
  }

  /** The non-empty contents, in order. */
  function NonEmpty(contents: seq<string>): (r: seq<string>)
    ensures forall k :: 0 <= k < |r| ==> r[k] != "" && r[k] in contents
    ensures forall k :: 0 <= k < |contents| && contents[k] != "" ==> contents[k] in r
    decreases |contents|
  {
    if |contents| == 0 then []
    else if contents[0] == "" then NonEmpty(contents[1..])
    else [contents[0]] + NonEmpty(contents[1..])
  }

  /** The packed parts never exceed the budget left after `used` characters
      (and nothing is packed once the budget is spent or negative). */
  lemma {:induction false} PackWithinBudget(contents: seq<string>, used: int, limit: int)
    ensures TotalLength(Pack(contents, used, limit)) <= if limit - used < 0 then 0 else limit - used
    decreases |contents|
  {
    if |contents| > 0 {
      var c := contents[0];
      if c != "" && used + |c| <= limit {
        PackWithinBudget(contents[1..], used + |c|, limit);
        assert ([c] + Pack(contents[1..], used + |c|, limit))[1..] == Pack(contents[1..], used + |c|, limit);
      } else if c == "" {
        PackWithinBudget(contents[1..], used, limit);
      }
    }
  }

  /** Every packed part is a non-empty prefix of some content, and there are
      no more parts than contents. */
  lemma {:induction false} PackShape(contents: seq<string>, used: int, limit: int)
    ensures var parts := Pack(contents, used, limit);
            && |parts| <= |contents|
            && forall k :: 0 <= k < |parts| ==>
                 parts[k] != "" && exists j :: 0 <= j < |contents| && parts[k] <= contents[j]
    decreases |contents|
  {
    if |contents| > 0 {
      var c := contents[0];
      var rest := contents[1..];
      var parts := Pack(contents, used, limit);
      if c != "" && used + |c| <= limit {
        PackShape(rest, used + |c|, limit);
        var tail := Pack(rest, used + |c|, limit);
        assert parts == [c] + tail;
        forall k | 0 <= k < |parts|
          ensures parts[k] != "" && exists j :: 0 <= j < |contents| && parts[k] <= contents[j]
        {
          if k == 0 {
            assert parts[0] <= contents[0];
          } else {
            assert parts[k] == tail[k - 1];
            var j :| 0 <= j < |rest| && tail[k - 1] <= rest[j];
            assert rest[j] == contents[j + 1];
          }
        }
      } else if c != "" {
        if parts != [] {
          assert parts[0] == c[..limit - used] && parts[0] <= contents[0];
        }
      } else {
        PackShape(rest, used, limit);
        forall k | 0 <= k < |parts|
          ensures parts[k] != "" && exists j :: 0 <= j < |contents| && parts[k] <= contents[j]
        {
          var j :| 0 <= j < |rest| && parts[k] <= rest[j];
          assert rest[j] == contents[j + 1];
        }
      }
    }
  }

  /** When every non-empty content fits, all of them are packed whole, in order. */
  lemma {:induction false} PackAllFit(contents: seq<string>, used: int, limit: int)
    requires used + TotalLength(NonEmpty(contents)) <= limit
    ensures Pack(contents, used, limit) == NonEmpty(contents)
    decreases |contents|
  {
    if |contents| > 0 {
      var c := contents[0];
      if c != "" {
        assert NonEmpty(contents)[1..] == NonEmpty(contents[1..]);
        PackAllFit(contents[1..], used + |c|, limit);
      } else {
        PackAllFit(contents[1..], used, limit);
      }
    }
  }

  /** Characters packed before position `k` if every non-empty content
      before it was taken whole. */
  function PackedBefore(contents: seq<string>, used: int, k: nat): int
    requires k <= |contents|
  {
    used + TotalLength(NonEmpty(contents[..k]))
  }

  /** Every non-empty content before position `j` fitted when it was reached. */
  ghost predicate FitsBefore(contents: seq<string>, used: int, limit: int, j: int)
    requires 0 <= j <= |contents|
  {
    forall k :: 0 <= k < j && contents[k] != "" ==> PackedBefore(contents, used, k) + |contents[k]| <= limit
  }

  /** The parts packing yields when it ends at position `j`: all non-empty
      contents when `j` is the end, otherwise those before `j` followed by
      the partial tail of the non-empty content at `j`, which did not fit. */
  ghost predicate EndsAt(contents: seq<string>, used: int, limit: int, j: int, parts: seq<string>)
    requires 0 <= j <= |contents|
  {
    && (j == |contents| ==> parts == NonEmpty(contents))
    && (j < |contents| ==>
          && contents[j] != ""
          && PackedBefore(contents, used, j) + |contents[j]| > limit
          && parts == NonEmpty(contents[..j]) + PartialTail(contents[j], limit - PackedBefore(contents, used, j)))
  }

  /** `Pack` stops at position `j`: the contents before it fitted, and the
      parts are what ending there yields. */
  ghost predicate StopsAt(contents: seq<string>, used: int, limit: int, j: int, parts: seq<string>)
  {
    0 <= j <= |contents| && FitsBefore(contents, used, limit, j) && EndsAt(contents, used, limit, j, parts)
  }

  /** Moving one content `c` to the front shifts every prefix by one and
      charges `c` (when non-empty) to the characters already used. */
  lemma ShiftPrefix(c: string, rest: seq<string>, used: int, k: nat)
    requires k <= |rest|
    ensures NonEmpty(([c] + rest)[..k + 1]) == (if c == "" then [] else [c]) + NonEmpty(rest[..k])
    ensures PackedBefore([c] + rest, used, k + 1) == PackedBefore(rest, if c == "" then used else used + |c|, k)
  {
    assert ([c] + rest)[..k + 1] == [c] + rest[..k];
    assert ([c] + rest[..k])[1..] == rest[..k];
    if c != "" {
      assert ([c] + NonEmpty(rest[..k]))[1..] == NonEmpty(rest[..k]);
    }
  }

  /** A leading content that is empty or fits keeps every content before
      the shifted stopping point fitting. */
  lemma FitsBeforeCons(c: string, rest: seq<string>, used: int, limit: int, j: int)
    requires c == "" || used + |c| <= limit
    requires 0 <= j <= |rest|
    requires FitsBefore(rest, if c == "" then used else used + |c|, limit, j)
    ensures FitsBefore([c] + rest, used, limit, j + 1)
  {
    var contents := [c] + rest;
    forall k | 0 <= k < j + 1 && contents[k] != ""
      ensures PackedBefore(contents, used, k) + |contents[k]| <= limit
    {
      if k > 0 {
        ShiftPrefix(c, rest, used, k - 1);
        assert contents[k] == rest[k - 1];
      } else {
        assert contents[..0] == [];
      }
    }
  }

  /** A leading content that is empty or fits moves the end of packing one
      position right, adding itself (when non-empty) in front of the parts. */
  lemma EndsAtCons(c: string, rest: seq<string>, used: int, limit: int, j: int, parts: seq<string>)
    requires 0 <= j <= |rest|
    requires EndsAt(rest, if c == "" then used else used + |c|, limit, j, parts)
    ensures EndsAt([c] + rest, used, limit, j + 1, (if c == "" then [] else [c]) + parts)
  {
    var contents := [c] + rest;
    ShiftPrefix(c, rest, used, j);
    if j == |rest| {
      assert rest[..j] == rest;
      assert contents[..j + 1] == contents;
    } else {
      assert contents[j + 1] == rest[j];
    }
  }

  /** A leading content that is empty or fits is packed whole (when
      non-empty), and packing goes on with the rest. */
  lemma PackCons(c: string, rest: seq<string>, used: int, limit: int)
    requires c == "" || used + |c| <= limit
    ensures Pack([c] + rest, used, limit)
            == (if c == "" then [] else [c]) + Pack(rest, if c == "" then used else used + |c|, limit)
  {
    assert ([c] + rest)[1..] == rest;
  }

  /** One step of `PackStopsAtFirstMisfit`: a leading content that is empty or
      fits moves the stopping point one position right. */
  lemma StopsAtCons(c: string, rest: seq<string>, used: int, limit: int, j: int)
    requires c == "" || used + |c| <= limit
    requires StopsAt(rest, if c == "" then used else used + |c|, limit, j,
                     Pack(rest, if c == "" then used else used + |c|, limit))
    ensures StopsAt([c] + rest, used, limit, j + 1, Pack([c] + rest, used, limit))
  {
    var used' := if c == "" then used else used + |c|;
    var tail := Pack(rest, used', limit);
    PackCons(c, rest, used, limit);
    FitsBeforeCons(c, rest, used, limit, j);
    EndsAtCons(c, rest, used, limit, j, tail);
  }

  /** Packing takes whole contents up to the first non-empty content that
      does not fit, and nothing after it. */
  lemma {:induction false} PackStopsAtFirstMisfit(contents: seq<string>, used: int, limit: int)
    ensures exists j :: StopsAt(contents, used, limit, j, Pack(contents, used, limit))
    decreases |contents|
  {
    if |contents| == 0 {
      assert StopsAt(contents, used, limit, 0, Pack(contents, used, limit));
    } else {
      var c := contents[0];
      var rest := contents[1..];
      assert contents == [c] + rest;
      if c != "" && used + |c| > limit {
        assert contents[..0] == [];
        assert StopsAt(contents, used, limit, 0, Pack(contents, used, limit));
      } else {
        var used' := if c == "" then used else used + |c|;
        PackStopsAtFirstMisfit(rest, used', limit);
        var j :| StopsAt(rest, used', limit, j, Pack(rest, used', limit));
        StopsAtCons(c, rest, used, limit, j);
      }
    }
  }

  /** Packing from position `i` on, by the three cases of the content there. */
  lemma PackAt(contents: seq<string>, i: int, used: int, limit: int)
    requires 0 <= i < |contents|
    ensures var c := contents[i];
            && (c != "" && used + |c| <= limit ==>
                  Pack(contents[i..], used, limit) == [c] + Pack(contents[i + 1..], used + |c|, limit))
            && (c != "" && used + |c| > limit ==> Pack(contents[i..], used, limit) == PartialTail(c, limit - used))
            && (c == "" ==> Pack(contents[i..], used, limit) == Pack(contents[i + 1..], used, limit))
  {
    assert contents[i..][0] == contents[i] && contents[i..][1..] == contents[i + 1..];
  }

  /** A content that fits moves from the rest of the packing to the parts. */
  lemma TakeWhole(contents: seq<string>, i: int, used: int, limit: int, parts: seq<string>, whole: seq<string>)
    requires 0 <= i < |contents| && contents[i] != "" && used + |contents[i]| <= limit
    requires parts + Pack(contents[i..], used, limit) == whole
    ensures (parts + [contents[i]]) + Pack(contents[i + 1..], used + |contents[i]|, limit) == whole
  {
    PackAt(contents, i, used, limit);
    var rest := Pack(contents[i + 1..], used + |contents[i]|, limit);
    assert (parts + [contents[i]]) + rest == parts + ([contents[i]] + rest);
  }

  /** An empty content is skipped. */
  lemma SkipEmpty(contents: seq<string>, i: int, used: int, limit: int, parts: seq<string>, whole: seq<string>)
    requires 0 <= i < |contents| && contents[i] == ""
    requires parts + Pack(contents[i..], used, limit) == whole
    ensures parts + Pack(contents[i + 1..], used, limit) == whole
  {
    PackAt(contents, i, used, limit);
  }

  /** A content that does not fit ends the packing with its partial tail. */
  lemma TakeTail(contents: seq<string>, i: int, used: int, limit: int, parts: seq<string>, whole: seq<string>)
    requires 0 <= i < |contents| && contents[i] != "" && used + |contents[i]| > limit
    requires parts + Pack(contents[i..], used, limit) == whole
    ensures parts + PartialTail(contents[i], limit - used) == whole
  {
    PackAt(contents, i, used, limit);
  }

  /** The `for result in results` loop of `get_context`, with its running
      total of packed characters. */
  method PackParts(contents: seq<string>, limit: int) returns (parts: seq<string>)
    ensures parts == Pack(contents, 0, limit)
    ensures TotalLength(parts) <= if limit < 0 then 0 else limit
  {
    PackWithinBudget(contents, 0, limit);
    ghost var whole := Pack(contents, 0, limit);
    parts := [];
    var total := 0;
    var i := 0;
    while i < |contents|
      invariant 0 <= i <= |contents|
      invariant total == TotalLength(parts)
      invariant parts + Pack(contents[i..], total, limit) == whole
    {
      var c := contents[i];
      if c != "" && total + |c| <= limit {
        TakeWhole(contents, i, total, limit, parts, whole);
        TotalLengthAppend(parts, [c]);
        parts := parts + [c];
        total := total + |c|;
        assert parts + Pack(contents[i + 1..], total, limit) == whole;
      } else if c != "" {
        TakeTail(contents, i, total, limit, parts, whole);
        var remaining := limit - total;
        if remaining > 100 {
          parts := parts + [c[..remaining]];
        }
        return;
      } else {
        SkipEmpty(contents, i, total, limit, parts, whole);
        assert parts + Pack(contents[i + 1..], total, limit) == whole;
      }
      i := i + 1;
    }
  }
}
