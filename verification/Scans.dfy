/** What the long scan and greedy matching report, said without recursion: which letters a scan stops at and which of
    the keys it met it reports. */
module Scans {
  import opened Options
  import opened Words
  import opened Matches
  import opened Longest

  /** Where the search for the i-th report begins: at the start of the slice or behind the report before. */
  function Begin(hits: seq<Hit>, p: int, i: nat): int
    requires i <= |hits|
  {
    if i == 0 then p else hits[i - 1].end + 1
  }

  /** The letters from the index `s` through the index `j`. */
  function Slice(text: Word, s: int, j: int): Word
    requires 0 <= s <= j + 1 <= |text|
  {
    text[s..j + 1]
  }

  // ---------------------------------------------------------------- greedy matching

  /** No key starts at `s` and ends behind the index `i`. */
  ghost predicate NoLonger(K: set<Word>, text: Word, s: int, i: int, end: int)
    requires 0 <= s <= i + 1 && end <= |text|
  {
    forall j :: i < j < end ==> Slice(text, s, j) !in K
  }

  /** From `f` on there is no key, or `r` is the one that starts first, and the longest there. */
  ghost predicate LeftmostLongest(K: set<Word>, text: Word, f: int, end: int, r: Option<Hit>)
    requires 0 <= f <= end <= |text|
  {
    match r
    case None => NoKeyStarts(K, text, f, end, end)
    case Some(h) =>
      && Occurs(K, text, f, end, h) && NoKeyStarts(K, text, f, h.end + 1 - |h.key|, end)
      && NoLonger(K, text, h.end + 1 - |h.key|, h.end, end)
  }

  ghost function At<X>(xs: seq<X>, i: nat): Option<X> {
    if i < |xs| then Some(xs[i]) else None
  }

  lemma Shifted(h: Hit, rest: seq<Hit>, p: int, i: nat)
    requires 0 < i <= |rest| + 1
    ensures Begin([h] + rest, p, i) == Begin(rest, h.end + 1, i - 1) && At([h] + rest, i) == At(rest, i - 1)
  {
  }

  ghost predicate GreedyAt(K: set<Word>, text: Word, p: int, end: int, hits: seq<Hit>, i: nat)
    requires i <= |hits| && end <= |text|
  {
    0 <= Begin(hits, p, i) <= end && LeftmostLongest(K, text, Begin(hits, p, i), end, At(hits, i))
  }

  /** Greedy matching reports the leftmost-longest key behind the report before, as long as there is one. */
  lemma {:induction false} GreedyMeans(K: set<Word>, text: Word, p: int, end: int)
    requires 0 <= p <= end <= |text|
    ensures forall i: nat :: i <= |Greedy(K, text, p, end)| ==> GreedyAt(K, text, p, end, Greedy(K, text, p, end), i)
    decreases end - p
  {
    var hits := Greedy(K, text, p, end);
    FirstMeans(K, text, p, end);
    hide LeftmostLongest;
    if hits != [] {
      var h, rest := hits[0], Greedy(K, text, hits[0].end + 1, end);
      GreedyMeans(K, text, h.end + 1, end);
      assert hits == [h] + rest;
      forall i: nat | i <= |hits| ensures GreedyAt(K, text, p, end, hits, i) {
        if i > 0 {
          Shifted(h, rest, p, i);
          assert GreedyAt(K, text, h.end + 1, end, rest, i - 1);
        }
      }
    }
  }

  lemma FirstMeans(K: set<Word>, text: Word, p: int, end: int)
    requires 0 <= p <= end <= |text|
    ensures LeftmostLongest(K, text, p, end, First(K, text, p, end))
  {
    FirstIsLeftmostLongest(K, text, p, end);
  }

  // ---------------------------------------------------------------- the long scan

  /** No key, and no node whose fail link is a key, is come to at the indices from `p` up to `q`. */
  ghost predicate Quiet(N: set<Word>, K: set<Word>, text: Word, p: int, q: int)
    requires [] in N && 0 <= p && q <= |text|
  {
    forall j :: p <= j < q ==>
      var n := LongestSuffix(N, Slice(text, p, j));
      n !in K && (n != [] ==> Fail(N, n) !in K)
  }

  /** From the index `i` up to `q` the word from `s` on goes down the trie, without an early return. */
  ghost predicate OnPath(N: set<Word>, K: set<Word>, text: Word, s: int, i: int, q: int)
    requires [] in N && 0 <= s <= i && q <= |text|
  {
    forall j :: i <= j < q ==>
      var w := Slice(text, s, j);
      w in N && (w in K || Fail(N, w) !in K)
  }

  /** `h` is the longest key from `s` on that ends from the index `i` on and before `q`. */
  ghost predicate LastKey(K: set<Word>, text: Word, s: int, i: int, q: int, h: Hit)
    requires 0 <= s <= i && q <= |text|
  {
    && i <= h.end < q && h.key == Slice(text, s, h.end) && h.key in K
    && NoLonger(K, text, s, h.end, q)
  }

  /** A key is come to at `i`. The scan goes on down the trie to `stop`, and reports the fail target of the node
      there if that is a key and the node is none, otherwise the longest key met. */
  ghost predicate Reported(N: set<Word>, K: set<Word>, text: Word, s: int, i: int, end: int, h: Hit, stop: int)
    requires [] in N && 0 <= s <= i && end <= |text|
  {
    && i < stop <= end && OnPath(N, K, text, s, i + 1, stop)
    && if stop < end && Slice(text, s, stop) in N then
         var w := Slice(text, s, stop);
         w !in K && Fail(N, w) in K && h == Hit(stop, Fail(N, w))
       else LastKey(K, text, s, i, stop, h)
  }

  /** The scan from `p` is quiet up to the index `i`. There it comes to a key, or to another node whose fail target is a
      key and is reported at once. */
  ghost predicate FoundAt(N: set<Word>, K: set<Word>, text: Word, p: int, i: int, end: int, h: Hit, stop: int)
    requires [] in N && 0 <= p <= i < end <= |text|
  {
    var n := LongestSuffix(N, Slice(text, p, i));
    && Quiet(N, K, text, p, i)
    && if n in K then 0 <= i + 1 - |n| <= i && Reported(N, K, text, i + 1 - |n|, i, end, h, stop)
       else n != [] && Fail(N, n) in K && h == Hit(i, Fail(N, n)) && stop == i
  }

  /** What the scan from `p` reports, and the index at which it stops reading. */
  ghost predicate Scanned(N: set<Word>, K: set<Word>, text: Word, p: int, end: int, r: Option<Hit>, stop: int)
    requires [] in N && 0 <= p <= end <= |text|
  {
    match r
    case None => Quiet(N, K, text, p, end) && stop == end
    case Some(h) => exists i :: p <= i < end && FoundAt(N, K, text, p, i, end, h, stop)
  }

  lemma {:induction false} SavedMeans(N: set<Word>, K: set<Word>, text: Word, s: int, i: int, q: int, end: int, h: Hit)
    requires PrefixClosed(N) && 0 <= s <= i < q <= end <= |text| && text[s..q] in N
    requires OnPath(N, K, text, s, i + 1, q) && LastKey(K, text, s, i, q, h)
    ensures var r := Long(N, K, text, text[s..q], q, end, Some(h));
            r.Some? && Reported(N, K, text, s, i, end, r.value, Reach(N, K, text, text[s..q], q, end, Some(h)))
    decreases end - q
  {
    if q < end {
      var w := text[s..q + 1];
      assert w == text[s..q] + [text[q]] && w == Slice(text, s, q);
      if w in N {
        NodeIsItsSuffix(N, w);
        assert w != [];
        if w in K {
          SavedMeans(N, K, text, s, i, q + 1, end, Hit(q, w));
        } else if Fail(N, w) !in K {
          SavedMeans(N, K, text, s, i, q + 1, end, h);
        }
      }
    }
  }

  /** What the scan does at the node it comes to when nothing is saved. */
  lemma LongAt(N: set<Word>, K: set<Word>, text: Word, p: int, q: int, end: int)
    requires PrefixClosed(N) && 0 <= p <= q < end <= |text|
    ensures var s, n := LongestSuffix(N, text[p..q]), LongestSuffix(N, Slice(text, p, q));
            var r, stop := Long(N, K, text, s, q, end, None), Reach(N, K, text, s, q, end, None);
            if n in K then
              && r == Long(N, K, text, n, q + 1, end, Some(Hit(q, n)))
              && stop == Reach(N, K, text, n, q + 1, end, Some(Hit(q, n)))
            else if n != [] && Fail(N, n) in K then r == Some(Hit(q, Fail(N, n))) && stop == q
            else r == Long(N, K, text, n, q + 1, end, None) && stop == Reach(N, K, text, n, q + 1, end, None)
    ensures var n := LongestSuffix(N, Slice(text, p, q));
            0 <= p <= q + 1 - |n| && text[q + 1 - |n|..q + 1] == n
  {
    StateAfter(N, text, p, q);
    StateLies(N, text, p, q + 1, LongestSuffix(N, Slice(text, p, q)));
  }

  lemma FoundKey(N: set<Word>, K: set<Word>, text: Word, p: int, q: int, end: int)
    requires PrefixClosed(N) && [] !in K && 0 <= p <= q < end <= |text| && Quiet(N, K, text, p, q)
    requires LongestSuffix(N, Slice(text, p, q)) in K
    ensures var s := LongestSuffix(N, text[p..q]);
            var r := Long(N, K, text, s, q, end, None);
            r.Some? && FoundAt(N, K, text, p, q, end, r.value, Reach(N, K, text, s, q, end, None))
  {
    hide Long, Reach, Quiet, Reported, LongestSuffix;
    LongAt(N, K, text, p, q, end);
    var n := LongestSuffix(N, Slice(text, p, q));
    var from := q + 1 - |n|;
    assert n != [] && Slice(text, from, q) == n;
    SavedMeans(N, K, text, from, q, q + 1, end, Hit(q, n));
  }

  lemma {:induction false} ScanMeans(N: set<Word>, K: set<Word>, text: Word, p: int, q: int, end: int)
    requires PrefixClosed(N) && [] !in K && 0 <= p <= q <= end <= |text| && Quiet(N, K, text, p, q)
    ensures var s := LongestSuffix(N, text[p..q]);
            Scanned(N, K, text, p, end, Long(N, K, text, s, q, end, None), Reach(N, K, text, s, q, end, None))
    decreases end - q
  {
    if q == end {
      assert text[p..q] == text[p..end];
    } else {
      hide Long, Reach, LongestSuffix, Reported;
      var n := LongestSuffix(N, Slice(text, p, q));
      LongAt(N, K, text, p, q, end);
      if n in K {
        FoundKey(N, K, text, p, q, end);
      } else if n != [] && Fail(N, n) in K {
        assert FoundAt(N, K, text, p, q, end, Hit(q, Fail(N, n)), q);
      } else {
        ScanMeans(N, K, text, p, q + 1, end);
        assert Slice(text, p, q) == text[p..q + 1];
      }
    }
  }

  /** One report of the long scan and where it stops, for every dictionary. */
  lemma LongMeans(N: set<Word>, K: set<Word>, text: Word, p: int, end: int)
    requires PrefixClosed(N) && [] !in K && 0 <= p <= end <= |text|
    ensures Scanned(N, K, text, p, end, Long(N, K, text, [], p, end, None), Reach(N, K, text, [], p, end, None))
  {
    assert text[p..p] == [];
    ScanMeans(N, K, text, p, p, end);
  }

  /** The scan from `f` gives the report `r` and reads the letters up to the one it stops at. */
  ghost predicate ScannedReading(N: set<Word>, K: set<Word>, text: Word, f: int, end: int, r: Option<Hit>, letters: int)
    requires [] in N && 0 <= f <= end <= |text|
  {
    exists stop :: Scanned(N, K, text, f, end, r, stop) && letters == stop - f + if stop < end then 1 else 0
  }

  /** A scan reads the letters through the end of its report at least, all of them if it gives none. */
  lemma ReadsThrough(N: set<Word>, K: set<Word>, text: Word, p: int, end: int)
    requires PrefixClosed(N) && [] !in K && 0 <= p <= end <= |text|
    ensures var r := Long(N, K, text, [], p, end, None);
            Reads(N, K, text, p, end) >= if r.Some? then r.value.end + 1 - p else end - p
  {
    hide Long, Reach;
    LongMeans(N, K, text, p, end);
  }

  /** Every letter of the slice is read. */
  lemma {:induction false} RunReadsEach(N: set<Word>, K: set<Word>, text: Word, p: int, end: int)
    requires PrefixClosed(N) && [] !in K && 0 <= p <= end <= |text|
    ensures RunReads(N, K, text, p, end) >= end - p
    decreases end - p
  {
    hide Long, Reads;
    ReadsThrough(N, K, text, p, end);
    match Long(N, K, text, [], p, end, None)
    case None =>
    case Some(h) => RunReadsEach(N, K, text, h.end + 1, end);
  }

  ghost predicate ScannedAt(N: set<Word>, K: set<Word>, text: Word, p: int, end: int, hits: seq<Hit>, i: nat)
    requires [] in N && i <= |hits| && end <= |text|
  {
    var f := Begin(hits, p, i);
    0 <= f <= end && ScannedReading(N, K, text, f, end, At(hits, i), Reads(N, K, text, f, end))
  }

  /** All reports of the long scan, for every dictionary: each is what the scan from behind the report before gives,
      with the letters that this scan reads. */
  lemma {:induction false} LongRunMeans(N: set<Word>, K: set<Word>, text: Word, p: int, end: int)
    requires TrieOf(N, K) && 0 <= p <= end <= |text|
    ensures forall i: nat :: i <= |LongRun(N, K, text, p, end)| ==>
              ScannedAt(N, K, text, p, end, LongRun(N, K, text, p, end), i)
    decreases end - p
  {
    hide Scanned, Long, Reach, TrieOf;
    TrieHasRoot(N, K);
    LongMeans(N, K, text, p, end);
    var hits := LongRun(N, K, text, p, end);
    assert ScannedReading(N, K, text, p, end, At(hits, 0), Reads(N, K, text, p, end));
    if hits != [] {
      hide ScannedReading, Reads;
      var h, rest := hits[0], LongRun(N, K, text, hits[0].end + 1, end);
      LongRunMeans(N, K, text, h.end + 1, end);
      assert hits == [h] + rest;
      forall i: nat | i <= |hits| ensures ScannedAt(N, K, text, p, end, hits, i) {
        if i > 0 {
          Shifted(h, rest, p, i);
          assert ScannedAt(N, K, text, h.end + 1, end, rest, i - 1);
        }
      }
    }
  }

  lemma TrieHasRoot(N: set<Word>, K: set<Word>)
    requires TrieOf(N, K)
    ensures PrefixClosed(N) && [] in N && [] !in K
  {
  }

  function Total(counts: seq<nat>): nat {
    if counts == [] then 0 else counts[0] + Total(counts[1..])
  }

  ghost predicate Counts(N: set<Word>, K: set<Word>, text: Word, p: int, end: int, hits: seq<Hit>, i: nat, count: nat)
    requires [] in N && i <= |hits| && end <= |text|
  {
    0 <= Begin(hits, p, i) && count == Reads(N, K, text, Begin(hits, p, i), end)
  }

  /** All letters read are those of the scans for the reports and of the last scan, which gives none. */
  lemma {:induction false} RunReadsAre(N: set<Word>, K: set<Word>, text: Word, p: int, end: int)
      returns (counts: seq<nat>)
    requires [] in N && 0 <= p <= end <= |text|
    ensures var hits := LongRun(N, K, text, p, end);
            && |counts| == |hits| + 1 && RunReads(N, K, text, p, end) == Total(counts)
            && forall i :: 0 <= i <= |hits| ==> Counts(N, K, text, p, end, hits, i, counts[i])
    decreases end - p
  {
    hide Long, Reads;
    LongRunNext(N, K, text, p, end);
    var hits := LongRun(N, K, text, p, end);
    match Long(N, K, text, [], p, end, None) {
      case None =>
        counts := [Reads(N, K, text, p, end)];
        assert counts[1..] == [];
      case Some(h) =>
        var rest := LongRun(N, K, text, h.end + 1, end);
        var more := RunReadsAre(N, K, text, h.end + 1, end);
        counts := [Reads(N, K, text, p, end)] + more;
        assert counts[1..] == more && hits == [h] + rest;
        forall i | 0 <= i <= |hits| ensures Counts(N, K, text, p, end, hits, i, counts[i]) {
          if i > 0 {
            Shifted(h, rest, p, i);
            assert Counts(N, K, text, h.end + 1, end, rest, i - 1, more[i - 1]);
          }
        }
    }
  }
}
