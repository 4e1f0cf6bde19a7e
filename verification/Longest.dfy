/** Longest-match search: the leftmost-longest reference, what the long iterator computes, and the exact
    condition on the keys under which the two agree. */
module Longest {
  import opened Options
  import opened Words
  import opened Matches

  // ---------------------------------------------------------------- leftmost-longest matching

  /** The end of the longest key that starts at `p` and ends at or before `e`. */
  function LongestUpTo(K: set<Word>, text: Word, p: int, e: int): (r: Option<int>)
    requires 0 <= p && e <= |text|
    ensures r.Some? ==> p < r.value <= e && text[p..r.value] in K
    decreases e - p
  {
    if e <= p then None else if text[p..e] in K then Some(e) else LongestUpTo(K, text, p, e - 1)
  }

  lemma {:induction false} LongestUpToSkips(K: set<Word>, text: Word, p: int, e: int, f: int)
    requires 0 <= p <= e <= f <= |text| && forall x :: e < x <= f ==> text[p..x] !in K
    ensures LongestUpTo(K, text, p, f) == LongestUpTo(K, text, p, e)
    decreases f - e
  {
    if e < f {
      LongestUpToSkips(K, text, p, e, f - 1);
    }
  }

  lemma {:induction false} LongestUpToIsLongest(K: set<Word>, text: Word, p: int, e: int)
    requires 0 <= p && e <= |text|
    ensures forall x :: p < x <= e && text[p..x] in K ==>
              LongestUpTo(K, text, p, e).Some? && x <= LongestUpTo(K, text, p, e).value
    decreases e - p
  {
    if p < e && text[p..e] !in K {
      LongestUpToIsLongest(K, text, p, e - 1);
    }
  }

  /** The match with the smallest start at or after `p`, the longest one there. */
  function First(K: set<Word>, text: Word, p: int, end: int): (r: Option<Hit>)
    requires 0 <= p && end <= |text|
    ensures r.Some? ==> p <= r.value.end < end
    decreases end - p
  {
    if p >= end then None
    else match LongestUpTo(K, text, p, end)
      case Some(e) => Some(Hit(e - 1, text[p..e]))
      case None => First(K, text, p + 1, end)
  }

  /** Greedy leftmost-longest matching without overlaps. */
  function Greedy(K: set<Word>, text: Word, p: int, end: int): seq<Hit>
    requires 0 <= p && end <= |text|
    decreases end - p
  {
    match First(K, text, p, end)
    case None => []
    case Some(h) => [h] + Greedy(K, text, h.end + 1, end)
  }

  ghost predicate NoKeyStarts(K: set<Word>, text: Word, p: int, q: int, end: int)
    requires 0 <= p && q <= end <= |text|
  {
    forall r, e :: p <= r < q && r < e <= end ==> text[r..e] !in K
  }

  lemma {:induction false} FirstSkips(K: set<Word>, text: Word, p: int, q: int, end: int)
    requires 0 <= p <= q <= end <= |text| && NoKeyStarts(K, text, p, q, end)
    ensures First(K, text, p, end) == First(K, text, q, end)
    decreases q - p
  {
    if p < q {
      FirstSkips(K, text, p + 1, q, end);
    }
  }

  /** `First` finds the leftmost occurrence, and the longest at that start, whenever there is any. */
  lemma {:induction false} FirstIsLeftmostLongest(K: set<Word>, text: Word, p: int, end: int)
    requires 0 <= p <= end <= |text|
    ensures First(K, text, p, end).None? <==> NoKeyStarts(K, text, p, end, end)
    ensures First(K, text, p, end).Some? ==>
              var h := First(K, text, p, end).value;
              var s := h.end + 1 - |h.key|;
              Occurs(K, text, p, end, h) && NoKeyStarts(K, text, p, s, end) &&
              forall e :: h.end + 1 < e <= end ==> text[s..e] !in K
    decreases end - p
  {
    LongestUpToIsLongest(K, text, p, end);
    if p < end && LongestUpTo(K, text, p, end).None? {
      FirstIsLeftmostLongest(K, text, p + 1, end);
    }
  }

  // ---------------------------------------------------------------- what the long iterator computes

  /** One report of the long iterator that stands in state `s` before text[i], with `best` saved. */
  function Long(N: set<Word>, K: set<Word>, text: Word, s: Word, i: int, end: int, best: Option<Hit>): (r: Option<Hit>)
    requires [] in N && 0 <= i && end <= |text|
    ensures r == best || (r.Some? && i <= r.value.end < end)
    decreases end - i
  {
    if i >= end then best
    else
      var n := LongestSuffix(N, s + [text[i]]);
      if best.Some? && s + [text[i]] !in N then best
      else if n in K then Long(N, K, text, n, i + 1, end, Some(Hit(i, n)))
      else if n != [] && Fail(N, n) in K then Some(Hit(i, Fail(N, n)))
      else Long(N, K, text, n, i + 1, end, best)
  }

  /** All reports: after each one the search restarts from the root just behind it. */
  function LongRun(N: set<Word>, K: set<Word>, text: Word, p: int, end: int): seq<Hit>
    requires [] in N && 0 <= p && end <= |text|
    decreases end - p
  {
    match Long(N, K, text, [], p, end, None)
    case None => []
    case Some(h) => [h] + LongRun(N, K, text, h.end + 1, end)
  }

  /** The index at which the iterator stops reading for that report. */
  function Reach(N: set<Word>, K: set<Word>, text: Word, s: Word, i: int, end: int, best: Option<Hit>): (r: int)
    requires [] in N && 0 <= i && end <= |text|
    ensures i <= r && (i <= end ==> r <= end)
    decreases end - i
  {
    if i >= end then i
    else
      var n := LongestSuffix(N, s + [text[i]]);
      if best.Some? && s + [text[i]] !in N then i
      else if n in K then Reach(N, K, text, n, i + 1, end, Some(Hit(i, n)))
      else if n != [] && Fail(N, n) in K then i
      else Reach(N, K, text, n, i + 1, end, best)
  }

  /** The letters read for the first report from `p` on, the one it stops at included. */
  function Reads(N: set<Word>, K: set<Word>, text: Word, p: int, end: int): nat
    requires [] in N && 0 <= p && end <= |text|
  {
    var r := Reach(N, K, text, [], p, end, None);
    r - p + if r < end then 1 else 0
  }

  /** The letters read for all reports. */
  function RunReads(N: set<Word>, K: set<Word>, text: Word, p: int, end: int): nat
    requires [] in N && 0 <= p && end <= |text|
    decreases end - p
  {
    Reads(N, K, text, p, end) +
    match Long(N, K, text, [], p, end, None)
    case None => 0
    case Some(h) => RunReads(N, K, text, h.end + 1, end)
  }

  lemma LongRunNext(N: set<Word>, K: set<Word>, text: Word, p: int, end: int)
    requires [] in N && 0 <= p && end <= |text|
    ensures match Long(N, K, text, [], p, end, None)
            case None => LongRun(N, K, text, p, end) == [] && RunReads(N, K, text, p, end) == Reads(N, K, text, p, end)
            case Some(h) =>
              && 0 <= h.end && LongRun(N, K, text, p, end) == [h] + LongRun(N, K, text, h.end + 1, end)
              && RunReads(N, K, text, p, end) == Reads(N, K, text, p, end) + RunReads(N, K, text, h.end + 1, end)
  {
    hide Long, Reach, Reads;
  }

  /** The scan stops less than the depth of the trie behind the end of its report. */
  lemma {:induction false} ReachIsNear(N: set<Word>, K: set<Word>, text: Word, s: Word, i: int, end: int,
                                       best: Option<Hit>, depth: nat)
    requires [] in N && [] !in K && 0 <= i && end <= |text| && s in N && forall w :: w in N ==> |w| <= depth
    requires best.Some? ==> best.value.key != [] && i - 1 - best.value.end <= |s| - |best.value.key|
    ensures var r := Long(N, K, text, s, i, end, best);
            r.Some? ==> Reach(N, K, text, s, i, end, best) - r.value.end <= depth
    decreases end - i
  {
    if i < end {
      var c := text[i];
      var n := LongestSuffix(N, s + [c]);
      assert s + [c] in N ==> n == s + [c];
      if best.Some? && s + [c] !in N {
      } else if n in K {
        ReachIsNear(N, K, text, n, i + 1, end, Some(Hit(i, n)), depth);
      } else if n != [] && Fail(N, n) in K {
      } else {
        ReachIsNear(N, K, text, n, i + 1, end, best, depth);
      }
    }
  }

  /** Reading everything reads each letter once, and after each report at most `depth` letters again. */
  lemma {:induction false} RunReadsBounded(N: set<Word>, K: set<Word>, text: Word, p: int, end: int, depth: nat)
    requires [] in N && [] !in K && 0 <= p <= end <= |text| && forall w :: w in N ==> |w| <= depth
    ensures RunReads(N, K, text, p, end) <= end - p + |LongRun(N, K, text, p, end)| * depth
    decreases end - p
  {
    hide Long, Reach;
    ReachIsNear(N, K, text, [], p, end, None, depth);
    match Long(N, K, text, [], p, end, None)
    case None => NoMore(depth);
    case Some(h) =>
      RunReadsBounded(N, K, text, h.end + 1, end, depth);
      OneMore(|LongRun(N, K, text, h.end + 1, end)|, depth);
  }

  lemma OneMore(n: nat, depth: nat)
    ensures (1 + n) * depth == depth + n * depth
  {
  }

  lemma NoMore(depth: nat)
    ensures 0 * depth == 0
  {
  }

  // ---------------------------------------------------------------- for every dictionary

  lemma SliceSnoc(text: Word, p: int, i: int)
    requires 0 <= p <= i < |text|
    ensures text[p..i] + [text[i]] == text[p..i + 1]
  {
  }

  lemma StateAfter(N: set<Word>, text: Word, p: int, i: int)
    requires PrefixClosed(N) && 0 <= p <= i < |text|
    ensures LongestSuffix(N, text[p..i + 1]) == LongestSuffix(N, LongestSuffix(N, text[p..i]) + [text[i]])
  {
    SliceSnoc(text, p, i);
    Advance(N, text[p..i], text[i]);
  }

  lemma StateLies(N: set<Word>, text: Word, p: int, i: int, n: Word)
    requires [] in N && 0 <= p <= i <= |text| && n == LongestSuffix(N, text[p..i])
    ensures p <= i - |n| && text[i - |n|..i] == n
  {
    LongestSuffixIsSuffix(N, text[p..i]);
    SuffixOfSlice(text, p, i, n);
  }

  lemma FailLies(N: set<Word>, text: Word, i: int, n: Word)
    requires [] in N && n != [] && |n| <= i <= |text| && text[i - |n|..i] == n
    ensures text[i - |Fail(N, n)|..i] == Fail(N, n)
  {
    FailIsSuffix(N, n);
    assert text[i - |Fail(N, n)|..i] == n[|n| - |Fail(N, n)|..];
  }

  lemma FailOccurs(N: set<Word>, K: set<Word>, text: Word, p: int, i: int, end: int, n: Word)
    requires [] in N && [] !in K && 0 <= p <= i < end <= |text| && n != [] && p <= i + 1 - |n|
    requires text[i + 1 - |n|..i + 1] == n
    ensures Fail(N, n) in K ==> Occurs(K, text, p, end, Hit(i, Fail(N, n)))
  {
    FailLies(N, text, i + 1, n);
  }

  /** The node reached on text[p..i + 1] and the node of its fail link both end there. */
  lemma NodeOccurs(N: set<Word>, K: set<Word>, text: Word, p: int, i: int, end: int, n: Word)
    requires [] in N && [] !in K && 0 <= p <= i < end <= |text| && n == LongestSuffix(N, text[p..i + 1])
    ensures n in K ==> Occurs(K, text, p, end, Hit(i, n))
    ensures n != [] && Fail(N, n) in K ==> Occurs(K, text, p, end, Hit(i, Fail(N, n)))
  {
    StateLies(N, text, p, i + 1, n);
    if n != [] {
      FailOccurs(N, K, text, p, i, end, n);
    }
  }

  /** A report is a real occurrence inside the slice still to be searched. */
  lemma {:induction false} LongIsSound(N: set<Word>, K: set<Word>, text: Word, p: int, s: Word, i: int, end: int,
                                       best: Option<Hit>, r: Option<Hit>)
    requires TrieOf(N, K) && 0 <= p <= i <= end <= |text| && s == LongestSuffix(N, text[p..i])
    requires best.Some? ==> Occurs(K, text, p, end, best.value)
    requires r == Long(N, K, text, s, i, end, best)
    ensures r.Some? ==> Occurs(K, text, p, end, r.value)
    decreases end - i
  {
    if i < end {
      var n := LongestSuffix(N, text[p..i + 1]);
      StateAfter(N, text, p, i);
      NodeOccurs(N, K, text, p, i, end, n);
      if n in K {
        LongIsSound(N, K, text, p, n, i + 1, end, Some(Hit(i, n)), Long(N, K, text, n, i + 1, end, Some(Hit(i, n))));
      } else {
        LongIsSound(N, K, text, p, n, i + 1, end, best, Long(N, K, text, n, i + 1, end, best));
      }
    }
  }

  ghost predicate Disjoint(hits: seq<Hit>) {
    forall i, j :: 0 <= i < j < |hits| ==> hits[i].end < hits[j].end + 1 - |hits[j].key|
  }

  lemma SoundCons(K: set<Word>, text: Word, p: int, end: int, h: Hit, rest: seq<Hit>)
    requires 0 <= p <= end <= |text| && p <= h.end < end && Occurs(K, text, p, end, h)
    requires Disjoint(rest) && forall x :: x in rest ==> Occurs(K, text, h.end + 1, end, x)
    ensures Disjoint([h] + rest) && forall x :: x in [h] + rest ==> Occurs(K, text, p, end, x)
  {
    assert forall j :: 0 <= j < |rest| ==> rest[j] in rest;
  }

  /** Whatever the dictionary, the reports are key occurrences, with pairwise disjoint spans and increasing ends. */
  lemma LongRunIsOrdered(N: set<Word>, K: set<Word>, text: Word, p: int, end: int)
    requires TrieOf(N, K) && 0 <= p <= end <= |text|
    ensures forall h :: h in LongRun(N, K, text, p, end) ==> Occurs(K, text, p, end, h)
    ensures Disjoint(LongRun(N, K, text, p, end))
    ensures forall i, j :: 0 <= i < j < |LongRun(N, K, text, p, end)| ==>
              LongRun(N, K, text, p, end)[i].end < LongRun(N, K, text, p, end)[j].end
  {
    LongRunIsSound(N, K, text, p, end);
    var hits := LongRun(N, K, text, p, end);
    forall i, j | 0 <= i < j < |hits| ensures hits[i].end < hits[j].end {
      assert Occurs(K, text, p, end, hits[j]);
    }
  }

  lemma {:induction false} LongRunIsSound(N: set<Word>, K: set<Word>, text: Word, p: int, end: int)
    requires TrieOf(N, K) && 0 <= p <= end <= |text|
    ensures forall h :: h in LongRun(N, K, text, p, end) ==> Occurs(K, text, p, end, h)
    ensures Disjoint(LongRun(N, K, text, p, end))
    decreases end - p
  {
    hide Long, Disjoint, Occurs;
    assert text[p..p] == [];
    LongIsSound(N, K, text, p, [], p, end, None, Long(N, K, text, [], p, end, None));
    match Long(N, K, text, [], p, end, None)
    case None => NothingDisjoint();
    case Some(h) =>
      LongRunIsSound(N, K, text, h.end + 1, end);
      SoundCons(K, text, p, end, h, LongRun(N, K, text, h.end + 1, end));
  }

  lemma NothingDisjoint()
    ensures Disjoint([])
  {
  }

  // ---------------------------------------------------------------- the exact condition

  /** The guard of the early return never fires: a node whose fail link is a key is a key itself. */
  ghost predicate FailKeysAreKeys(N: set<Word>, K: set<Word>)
    requires [] in N
  {
    forall n :: n in N && n != [] && Fail(N, n) in K ==> n in K
  }

  /** The condition in terms of the key set alone. */
  ghost predicate KeySuffixedNodesAreKeys(N: set<Word>, K: set<Word>) {
    forall n, k :: n in N && k in K && |k| < |n| && IsSuffix(k, n) ==> n in K
  }

  lemma {:induction false} NoKeySuffix(N: set<Word>, K: set<Word>, n: Word, k: Word)
    requires TrieOf(N, K) && FailKeysAreKeys(N, K)
    requires n in N && k in K && IsSuffix(k, n)
    ensures n in K
    decreases |n|
  {
    if |k| < |n| {
      FailIsSuffix(N, n);
      FailIsLongest(N, n, k);
      SuffixesNest(k, Fail(N, n), n);
      NoKeySuffix(N, K, Fail(N, n), k);
    }
  }

  lemma ConditionsAgree(N: set<Word>, K: set<Word>)
    requires TrieOf(N, K)
    ensures FailKeysAreKeys(N, K) <==> KeySuffixedNodesAreKeys(N, K)
  {
    if FailKeysAreKeys(N, K) {
      forall n, k | n in N && k in K && |k| < |n| && IsSuffix(k, n) ensures n in K {
        NoKeySuffix(N, K, n, k);
      }
    } else {
      var n :| n in N && n != [] && Fail(N, n) in K && n !in K;
      FailIsSuffix(N, n);
    }
  }

  function HitUpTo(K: set<Word>, text: Word, q: int, e: int): Option<Hit>
    requires 0 <= q && e <= |text|
  {
    match LongestUpTo(K, text, q, e)
    case None => None
    case Some(x) => Some(Hit(x - 1, text[q..x]))
  }

  lemma SlicePrefix(N: set<Word>, text: Word, r: int, i: int, e: int)
    requires PrefixClosed(N) && 0 <= r <= i <= e <= |text|
    ensures text[r..e] in N ==> text[r..i] in N
  {
    if text[r..e] in N {
      PrefixesAreNodes(N, text[r..e], i - r);
      assert text[r..e][..i - r] == text[r..i];
    }
  }

  lemma PathEnds(N: set<Word>, K: set<Word>, text: Word, q: int, i: int, end: int)
    requires TrieOf(N, K) && 0 <= q <= i < end <= |text| && text[q..i + 1] !in N
    ensures HitUpTo(K, text, q, end) == HitUpTo(K, text, q, i)
  {
    forall x | i < x <= end ensures text[q..x] !in K {
      SlicePrefix(N, text, q, i + 1, x);
    }
    LongestUpToSkips(K, text, q, i, end);
  }

  /** With a match saved, the iterator extends it along one path and stops at the longest key there. */
  lemma {:induction false} LongExtends(N: set<Word>, K: set<Word>, text: Word, q: int, s: Word, i: int, end: int,
                                       best: Option<Hit>, r: Option<Hit>)
    requires TrieOf(N, K) && FailKeysAreKeys(N, K)
    requires 0 <= q <= i <= end <= |text| && s == text[q..i] && best == HitUpTo(K, text, q, i) && best.Some?
    requires s in N && r == Long(N, K, text, s, i, end, best)
    ensures r == HitUpTo(K, text, q, end)
    decreases end - i
  {
    hide Fail, Reaches;
    if i < end {
      var n := text[q..i + 1];
      SliceSnoc(text, q, i);
      if n !in N {
        PathEnds(N, K, text, q, i, end);
      } else if n in K {
        LongExtends(N, K, text, q, n, i + 1, end, Some(Hit(i, n)), r);
      } else {
        assert n == [] || Fail(N, n) !in K;
        LongExtends(N, K, text, q, n, i + 1, end, best, r);
      }
    }
  }

  /** A slice that ends with the text read so far and is longer than the state is no node. */
  lemma SliceNotNode(N: set<Word>, text: Word, p: int, r: int, i: int)
    requires [] in N && 0 <= p <= r <= i <= |text|
    ensures text[r..i] in N ==> |text[r..i]| <= |LongestSuffix(N, text[p..i])|
  {
    if text[r..i] in N {
      SuffixOfSlice(text, p, i, text[r..i]);
      LongestSuffixIsLongest(N, text[p..i], text[r..i]);
    }
  }

  /** No key starts left of the state: it would be spelled by a longer node. */
  lemma NothingStartsBefore(N: set<Word>, K: set<Word>, text: Word, p: int, i: int, end: int)
    requires TrieOf(N, K) && 0 <= p <= i < end <= |text|
    requires NoKeyStarts(K, text, p, i, i)
    ensures NoKeyStarts(K, text, p, i + 1 - |LongestSuffix(N, text[p..i + 1])|, end)
  {
    var n := LongestSuffix(N, text[p..i + 1]);
    forall r, e | p <= r < i + 1 - |n| && r < e <= end ensures text[r..e] !in K {
      if i < e {
        SlicePrefix(N, text, r, i + 1, e);
        SliceNotNode(N, text, p, r, i + 1);
      }
    }
  }

  lemma LongFinds(N: set<Word>, K: set<Word>, text: Word, p: int, i: int, end: int, n: Word)
    requires TrieOf(N, K) && FailKeysAreKeys(N, K)
    requires 0 <= p <= i < end <= |text| && NoKeyStarts(K, text, p, i, i)
    requires n == LongestSuffix(N, text[p..i + 1]) && n in K
    ensures Long(N, K, text, n, i + 1, end, Some(Hit(i, n))) == First(K, text, p, end)
  {
    var q := i + 1 - |n|;
    StateLies(N, text, p, i + 1, n);
    NothingStartsBefore(N, K, text, p, i, end);
    FirstSkips(K, text, p, q, end);
    LongExtends(N, K, text, q, n, i + 1, end, Some(Hit(i, n)), Long(N, K, text, n, i + 1, end, Some(Hit(i, n))));
  }

  /** Before any match is saved, the next report is the leftmost-longest match. */
  lemma {:induction false} LongSeeks(N: set<Word>, K: set<Word>, text: Word, p: int, s: Word, i: int, end: int,
                                     r: Option<Hit>)
    requires TrieOf(N, K) && FailKeysAreKeys(N, K)
    requires 0 <= p <= i <= end <= |text| && NoKeyStarts(K, text, p, i, i)
    requires s == LongestSuffix(N, text[p..i]) && r == Long(N, K, text, s, i, end, None)
    ensures r == First(K, text, p, end)
    decreases end - i
  {
    if i == end {
      FirstSkips(K, text, p, end, end);
    } else {
      var n := LongestSuffix(N, text[p..i + 1]);
      StateAfter(N, text, p, i);
      if n in K {
        LongFinds(N, K, text, p, i, end, n);
      } else {
        assert n == [] || Fail(N, n) !in K;
        NothingEndsHere(N, K, text, p, i);
        LongSeeks(N, K, text, p, n, i + 1, end, r);
      }
    }
  }

  lemma NothingEndsHere(N: set<Word>, K: set<Word>, text: Word, p: int, i: int)
    requires TrieOf(N, K) && FailKeysAreKeys(N, K)
    requires 0 <= p <= i < |text| && NoKeyStarts(K, text, p, i, i)
    requires LongestSuffix(N, text[p..i + 1]) !in K
    ensures NoKeyStarts(K, text, p, i + 1, i + 1)
  {
    forall r, e | p <= r < i + 1 && r < e <= i + 1 ensures text[r..e] !in K {
      if e == i + 1 {
        NoKeyEnds(N, K, text, p, r, e);
      }
    }
  }

  lemma NoKeyEnds(N: set<Word>, K: set<Word>, text: Word, p: int, r: int, e: int)
    requires TrieOf(N, K) && FailKeysAreKeys(N, K)
    requires 0 <= p <= r <= e <= |text| && LongestSuffix(N, text[p..e]) !in K
    ensures text[r..e] !in K
  {
    if text[r..e] in K {
      var n := LongestSuffix(N, text[p..e]);
      SuffixOfSlice(text, p, e, text[r..e]);
      LongestSuffixIsSuffix(N, text[p..e]);
      LongestSuffixIsLongest(N, text[p..e], text[r..e]);
      SuffixesNest(text[r..e], n, text[p..e]);
      NoKeySuffix(N, K, n, text[r..e]);
    }
  }

  /** If no early return can fire, the long iterator is greedy leftmost-longest matching. */
  lemma {:induction false} LongRunIsGreedy(N: set<Word>, K: set<Word>, text: Word, p: int, end: int)
    requires TrieOf(N, K) && FailKeysAreKeys(N, K)
    requires 0 <= p <= end <= |text|
    ensures LongRun(N, K, text, p, end) == Greedy(K, text, p, end)
    decreases end - p
  {
    assert text[p..p] == [];
    LongSeeks(N, K, text, p, [], p, end, Long(N, K, text, [], p, end, None));
    match First(K, text, p, end)
    case None =>
    case Some(h) => LongRunIsGreedy(N, K, text, h.end + 1, end);
  }

  ghost predicate Breaks(N: set<Word>, K: set<Word>, n: Word)
    requires [] in N
  {
    n in N && n != [] && n !in K && Fail(N, n) in K
  }

  lemma {:induction false} ShortestBreak(N: set<Word>, K: set<Word>, n: Word) returns (m: Word)
    requires [] in N && Breaks(N, K, n)
    ensures Breaks(N, K, m) && forall u :: Breaks(N, K, u) ==> |m| <= |u|
    decreases |n|
  {
    if u :| Breaks(N, K, u) && |u| < |n| {
      m := ShortestBreak(N, K, u);
    } else {
      m := n;
    }
  }

  /** Reading a word through the shortest breaking node returns early there, whatever was saved. */
  lemma {:induction false} LongBreaksOff(N: set<Word>, K: set<Word>, w: Word, n: Word, i: nat, s: Word,
                                         best: Option<Hit>, r: Option<Hit>)
    requires TrieOf(N, K) && Breaks(N, K, n) && forall u :: Breaks(N, K, u) ==> |n| <= |u|
    requires IsPrefix(n, w) && i < |n| && s == w[..i] && r == Long(N, K, w, s, i, |w|, best)
    ensures r == Some(Hit(|n| - 1, Fail(N, n)))
    decreases |n| - i
  {
    hide Fail;
    var m := w[..i + 1];
    PrefixReads(N, w, n, i);
    if i + 1 < |n| {
      assert !Breaks(N, K, m);
      if m in K {
        LongBreaksOff(N, K, w, n, i + 1, m, Some(Hit(i, m)), r);
      } else {
        LongBreaksOff(N, K, w, n, i + 1, m, best, r);
      }
    }
  }

  lemma PrefixReads(N: set<Word>, w: Word, n: Word, i: nat)
    requires PrefixClosed(N) && n in N && IsPrefix(n, w) && i < |n|
    ensures w[..i] + [w[i]] == w[..i + 1] && w[..i + 1] in N && w[..|n|] == n
  {
    assert w[..i + 1] == n[..i + 1];
    PrefixesAreNodes(N, n, i + 1);
  }

  /** If some early return can fire, a key through that node is searched wrongly. */
  lemma EarlyReturnGoesWrong(N: set<Word>, K: set<Word>) returns (w: Word)
    requires TrieOf(N, K) && !FailKeysAreKeys(N, K)
    ensures w in K && LongRun(N, K, w, 0, |w|) != [] && Greedy(K, w, 0, |w|) != []
    ensures LongRun(N, K, w, 0, |w|)[0].end < Greedy(K, w, 0, |w|)[0].end
  {
    var n0 :| n0 in N && n0 != [] && Fail(N, n0) in K && n0 !in K;
    assert Breaks(N, K, n0);
    var n := ShortestBreak(N, K, n0);
    assert Reaches(K, n);
    w :| w in K && IsPrefix(n, w);
    assert w[..0] == [] && w[0..|w|] == w;
    assert n == w[..|n|] && w == w[..|w|] && n != w;
    LongBreaksOff(N, K, w, n, 0, [], None, Long(N, K, w, [], 0, |w|, None));
    assert First(K, w, 0, |w|) == Some(Hit(|w| - 1, w));
    assert LongRun(N, K, w, 0, |w|)[0].end == |n| - 1;
    assert Greedy(K, w, 0, |w|)[0].end == |w| - 1;
  }

  /** iter_long is greedy leftmost-longest on every text if and only if no node that is not a key has a
      fail link to a key. */
  lemma LongIsGreedyExactlyWhen(N: set<Word>, K: set<Word>)
    requires TrieOf(N, K)
    ensures (forall text, p, end :: 0 <= p <= end <= |text| ==> LongRun(N, K, text, p, end) == Greedy(K, text, p, end))
            <==> FailKeysAreKeys(N, K)
  {
    if FailKeysAreKeys(N, K) {
      forall text: Word, p, end | 0 <= p <= end <= |text|
        ensures LongRun(N, K, text, p, end) == Greedy(K, text, p, end)
      {
        LongRunIsGreedy(N, K, text, p, end);
      }
    } else {
      var w := EarlyReturnGoesWrong(N, K);
    }
  }
}
