/** What a search reports, as plain sequences: the reference that the automaton must agree with. */
module Matches {
  import opened Words

  /** A reported key and the index of its last letter. */
  datatype Hit = Hit(end: int, key: Word)

  /** A letter of the searched text together with the index it is reported at. */
  datatype Cell = Cell(letter: Letter, at: int)

  /** The keys that `t` ends with, longest first. */
  function SuffixKeys(K: set<Word>, t: Word): seq<Word> {
    if t == [] then []
    else if t in K then [t] + SuffixKeys(K, t[1..])
    else SuffixKeys(K, t[1..])
  }

  lemma {:induction false} SuffixKeysAre(K: set<Word>, t: Word, k: Word)
    ensures k in SuffixKeys(K, t) <==> k in K && k != [] && IsSuffix(k, t)
  {
    if t != [] {
      SuffixKeysAre(K, t[1..], k);
      assert IsSuffix(k, t) <==> k == t || IsSuffix(k, t[1..]);
    }
  }

  /** The keys met on the way from state `s` along the fail links to the root. */
  function FailChain(N: set<Word>, K: set<Word>, s: Word): seq<Word>
    requires [] in N
    decreases |s|
  {
    if s == [] then []
    else if s in K then [s] + FailChain(N, K, Fail(N, s))
    else FailChain(N, K, Fail(N, s))
  }

  /** Skipping suffixes that are no node skips no key. */
  lemma {:induction false} SuffixKeysSkip(N: set<Word>, K: set<Word>, t: Word)
    requires [] in N && K <= N
    ensures SuffixKeys(K, t) == SuffixKeys(K, LongestSuffix(N, t))
  {
    if t !in N {
      SuffixKeysSkip(N, K, t[1..]);
    }
  }

  /** The fail chain of a state lists exactly the keys that the text read so far ends with. */
  lemma {:induction false} FailChainIsSuffixKeys(N: set<Word>, K: set<Word>, s: Word)
    requires [] in N && K <= N
    ensures FailChain(N, K, s) == SuffixKeys(K, s)
    decreases |s|
  {
    if s != [] {
      FailChainIsSuffixKeys(N, K, Fail(N, s));
      SuffixKeysSkip(N, K, s[1..]);
    }
  }

  function At(end: int, ks: seq<Word>): seq<Hit> {
    if ks == [] then [] else [Hit(end, ks[0])] + At(end, ks[1..])
  }

  lemma {:induction false} AtHas(end: int, ks: seq<Word>, h: Hit)
    ensures h in At(end, ks) <==> h.end == end && h.key in ks
  {
    if ks != [] {
      AtHas(end, ks[1..], h);
    }
  }

  /** The letters of text[i..end) that are not skipped, each with its reported index. */
  function Feed(skip: Letter -> bool, text: Word, i: int, end: int, shift: int): seq<Cell>
    requires 0 <= i && end <= |text|
    decreases end - i
  {
    if i >= end then []
    else (if skip(text[i]) then [] else [Cell(text[i], i + shift)]) + Feed(skip, text, i + 1, end, shift)
  }

  function Letters(feed: seq<Cell>): (w: Word)
    ensures |w| == |feed| && forall i :: 0 <= i < |w| ==> w[i] == feed[i].letter
  {
    seq(|feed|, i requires 0 <= i < |feed| => feed[i].letter)
  }

  /** All hits of the keys in K when the letters of `feed` are read after `history`. */
  function Run(K: set<Word>, history: Word, feed: seq<Cell>): seq<Hit>
    decreases |feed|
  {
    if feed == [] then []
    else
      var h := history + [feed[0].letter];
      At(feed[0].at, SuffixKeys(K, h)) + Run(K, h, feed[1..])
  }

  lemma {:induction false} RunHasKeys(K: set<Word>, history: Word, feed: seq<Cell>)
    ensures forall h :: h in Run(K, history, feed) ==> h.key in K
    decreases |feed|
  {
    if feed != [] {
      var t := history + [feed[0].letter];
      RunHasKeys(K, t, feed[1..]);
      forall h | h in At(feed[0].at, SuffixKeys(K, t)) ensures h.key in K {
        AtHas(feed[0].at, SuffixKeys(K, t), h);
        SuffixKeysAre(K, t, h.key);
      }
    }
  }

  const KeepAll: Letter -> bool := (c: Letter) => false

  /** Naive search: every key occurrence inside text[start..end), in report order. */
  function Naive(K: set<Word>, text: Word, start: int, end: int): seq<Hit>
    requires 0 <= start && end <= |text|
  {
    Run(K, [], Feed(KeepAll, text, start, end, 0))
  }

  // ---------------------------------------------------------------- the naive list, declaratively

  ghost predicate Occurs(K: set<Word>, text: Word, start: int, end: int, h: Hit)
    requires 0 <= start && end <= |text|
  {
    h.key in K && h.key != [] && start <= h.end + 1 - |h.key| && h.end < end &&
    text[h.end + 1 - |h.key|..h.end + 1] == h.key
  }

  predicate Before(a: Hit, b: Hit) {
    a.end < b.end || (a.end == b.end && |a.key| > |b.key|)
  }

  ghost predicate Sorted(hits: seq<Hit>) {
    forall i, j :: 0 <= i < j < |hits| ==> Before(hits[i], hits[j])
  }

  /** `hits` lists every occurrence exactly once, by end index and then from longest to shortest key. */
  ghost predicate AllOccurrences(K: set<Word>, text: Word, start: int, end: int, hits: seq<Hit>)
    requires 0 <= start && end <= |text|
  {
    Sorted(hits) && forall h :: h in hits <==> Occurs(K, text, start, end, h)
  }

  lemma SuffixOfSlice(text: Word, start: int, i: int, k: Word)
    requires 0 <= start <= i <= |text|
    ensures IsSuffix(k, text[start..i]) <==> start <= i - |k| && text[i - |k|..i] == k
  {
    if start <= i - |k| {
      assert text[start..i][i - start - |k|..] == text[i - |k|..i];
    }
  }

  /** The hits at one index come longest key first. */
  lemma {:induction false} AtIsSorted(K: set<Word>, t: Word, i: int)
    ensures Sorted(At(i, SuffixKeys(K, t)))
    ensures forall h :: h in At(i, SuffixKeys(K, t)) ==> h.end == i && |h.key| <= |t|
  {
    if t != [] {
      AtIsSorted(K, t[1..], i);
      if t in K {
        SortedConcat([Hit(i, t)], At(i, SuffixKeys(K, t[1..])));
      }
    }
  }

  lemma OccursHere(K: set<Word>, text: Word, start: int, i: int, end: int, x: Hit)
    requires 0 <= start <= i < end <= |text|
    ensures x in At(i, SuffixKeys(K, text[start..i + 1])) <==> Occurs(K, text, start, end, x) && x.end == i
  {
    AtHas(i, SuffixKeys(K, text[start..i + 1]), x);
    SuffixKeysAre(K, text[start..i + 1], x.key);
    SuffixOfSlice(text, start, i + 1, x.key);
  }

  lemma SortedConcat(a: seq<Hit>, b: seq<Hit>)
    requires Sorted(a) && Sorted(b) && forall x, y :: x in a && y in b ==> Before(x, y)
    ensures Sorted(a + b)
  {
    forall i, j | 0 <= i < j < |a + b| ensures Before((a + b)[i], (a + b)[j]) {
      if i < |a| <= j {
        assert a[i] in a && b[j - |a|] in b;
      }
    }
  }

  lemma RunStep(K: set<Word>, text: Word, start: int, i: int, end: int)
    requires 0 <= start <= i < end <= |text|
    ensures Run(K, text[start..i], Feed(KeepAll, text, i, end, 0))
         == At(i, SuffixKeys(K, text[start..i + 1])) + Run(K, text[start..i + 1], Feed(KeepAll, text, i + 1, end, 0))
  {
    assert text[start..i + 1] == text[start..i] + [text[i]];
    assert Feed(KeepAll, text, i, end, 0)[1..] == Feed(KeepAll, text, i + 1, end, 0);
  }

  lemma {:induction false} RunFinds(K: set<Word>, text: Word, start: int, i: int, end: int, hits: seq<Hit>)
    requires 0 <= start <= i <= end <= |text|
    requires hits == Run(K, text[start..i], Feed(KeepAll, text, i, end, 0))
    ensures Sorted(hits) && forall h :: h in hits <==> Occurs(K, text, start, end, h) && i <= h.end
    decreases end - i
  {
    if i < end {
      var now := At(i, SuffixKeys(K, text[start..i + 1]));
      var rest := Run(K, text[start..i + 1], Feed(KeepAll, text, i + 1, end, 0));
      RunStep(K, text, start, i, end);
      RunFinds(K, text, start, i + 1, end, rest);
      forall x ensures x in now <==> Occurs(K, text, start, end, x) && x.end == i {
        OccursHere(K, text, start, i, end, x);
      }
      AtIsSorted(K, text[start..i + 1], i);
      SortedConcat(now, rest);
    }
  }

  /** The naive search lists exactly the occurrences. */
  lemma NaiveIsAllOccurrences(K: set<Word>, text: Word, start: int, end: int)
    requires 0 <= start <= end <= |text|
    ensures AllOccurrences(K, text, start, end, Naive(K, text, start, end))
  {
    assert text[start..start] == [];
    RunFinds(K, text, start, start, end, Naive(K, text, start, end));
    assert forall h :: Occurs(K, text, start, end, h) ==> start <= h.end;
  }

  lemma NonEmptyHasMember(a: seq<Hit>)
    ensures a != [] ==> exists h :: h in a
  {
    if a != [] {
      assert a[0] in a;
    }
  }

  /** Being sorted and having the right members leaves only one list. */
  lemma {:induction false} SortedListsAgree(a: seq<Hit>, b: seq<Hit>)
    requires Sorted(a) && Sorted(b) && forall h :: h in a <==> h in b
    ensures a == b
  {
    if a == [] || b == [] {
      NonEmptyHasMember(a);
      NonEmptyHasMember(b);
    } else {
      assert a[0] in b && b[0] in a;
      assert a[0] == b[0];
      forall h ensures h in a[1..] <==> h in b[1..] {
        assert h in a[1..] <==> h in a && h != a[0];
        assert h in b[1..] <==> h in b && h != b[0];
      }
      SortedListsAgree(a[1..], b[1..]);
      assert a == [a[0]] + a[1..] && b == [b[0]] + b[1..];
    }
  }

  lemma AllOccurrencesUnique(K: set<Word>, text: Word, start: int, end: int, a: seq<Hit>)
    requires 0 <= start <= end <= |text|
    requires AllOccurrences(K, text, start, end, a)
    ensures a == Naive(K, text, start, end)
  {
    NaiveIsAllOccurrences(K, text, start, end);
    SortedListsAgree(a, Naive(K, text, start, end));
  }

  // ---------------------------------------------------------------- texts given in chunks

  lemma {:induction false} RunConcat(K: set<Word>, history: Word, f: seq<Cell>, g: seq<Cell>)
    ensures Run(K, history, f + g) == Run(K, history, f) + Run(K, history + Letters(f), g)
    decreases |f|
  {
    if f == [] {
      assert f + g == g && history + Letters(f) == history;
    } else {
      var h := history + [f[0].letter];
      assert (f + g)[1..] == f[1..] + g;
      assert h + Letters(f[1..]) == history + Letters(f);
      RunConcat(K, h, f[1..], g);
      var now := At(f[0].at, SuffixKeys(K, h));
      assert now + (Run(K, h, f[1..]) + Run(K, history + Letters(f), g))
          == (now + Run(K, h, f[1..])) + Run(K, history + Letters(f), g);
    }
  }

  /** Feeding a chunk after `before` letters of earlier chunks is feeding that part of the whole text. */
  lemma {:induction false} FeedShifted(skip: Letter -> bool, before: Word, chunk: Word, i: nat)
    requires i <= |chunk|
    ensures Feed(skip, chunk, i, |chunk|, |before|)
         == Feed(skip, before + chunk, |before| + i, |before + chunk|, 0)
    decreases |chunk| - i
  {
    if i < |chunk| {
      assert (before + chunk)[|before| + i] == chunk[i];
      FeedShifted(skip, before, chunk, i + 1);
    }
  }

  lemma {:induction false} FeedSplits(skip: Letter -> bool, a: Word, b: Word, i: nat)
    requires i <= |a|
    ensures Feed(skip, a + b, i, |a + b|, 0)
         == Feed(skip, a, i, |a|, 0) + Feed(skip, a + b, |a|, |a + b|, 0)
    decreases |a| - i
  {
    if i < |a| {
      FeedSplits(skip, a, b, i + 1);
      var first := if skip(a[i]) then [] else [Cell(a[i], i)];
      assert first + (Feed(skip, a, i + 1, |a|, 0) + Feed(skip, a + b, |a|, |a + b|, 0))
          == (first + Feed(skip, a, i + 1, |a|, 0)) + Feed(skip, a + b, |a|, |a + b|, 0);
    }
  }

  function Flatten(chunks: seq<Word>): Word {
    if chunks == [] then [] else Flatten(chunks[..|chunks| - 1]) + chunks[|chunks| - 1]
  }

  /** The hits of one more chunk, searched with the state left by the earlier text, complete
      the hits of the joined text: matches across the border included, indices absolute. */
  lemma ChunkExtends(K: set<Word>, skip: Letter -> bool, before: Word, chunk: Word)
    ensures Run(K, [], Feed(skip, before + chunk, 0, |before + chunk|, 0))
         == Run(K, [], Feed(skip, before, 0, |before|, 0))
            + Run(K, Letters(Feed(skip, before, 0, |before|, 0)), Feed(skip, chunk, 0, |chunk|, |before|))
    ensures Letters(Feed(skip, before + chunk, 0, |before + chunk|, 0))
         == Letters(Feed(skip, before, 0, |before|, 0)) + Letters(Feed(skip, chunk, 0, |chunk|, |before|))
  {
    FeedSplits(skip, before, chunk, 0);
    FeedShifted(skip, before, chunk, 0);
    JoinRuns(K, Feed(skip, before, 0, |before|, 0), Feed(skip, chunk, 0, |chunk|, |before|));
  }

  lemma JoinRuns(K: set<Word>, f: seq<Cell>, g: seq<Cell>)
    ensures Run(K, [], f + g) == Run(K, [], f) + Run(K, Letters(f), g)
    ensures Letters(f + g) == Letters(f) + Letters(g)
  {
    RunConcat(K, [], f, g);
    assert [] + Letters(f) == Letters(f);
  }

  // ---------------------------------------------------------------- ignored white space

  /** The slice with the skipped letters deleted. */
  function Deleted(skip: Letter -> bool, text: Word, i: int, end: int): Word
    requires 0 <= i && end <= |text|
  {
    Letters(Feed(skip, text, i, end, 0))
  }

  /** The position in `text` of each letter that was not deleted. */
  function Positions(skip: Letter -> bool, text: Word, i: int, end: int): seq<int>
    requires 0 <= i && end <= |text|
  {
    var feed := Feed(skip, text, i, end, 0);
    seq(|feed|, n requires 0 <= n < |feed| => feed[n].at)
  }

  /** The letters left are those at the positions. */
  lemma DeletedAre(skip: Letter -> bool, text: Word, i: int, end: int)
    requires 0 <= i && end <= |text|
    ensures var ps, left := Positions(skip, text, i, end), Deleted(skip, text, i, end);
            |left| == |ps| && forall n :: 0 <= n < |ps| ==> 0 <= ps[n] < |text| && left[n] == text[ps[n]]
  {
    CellsAre(skip, text, i, end);
  }

  lemma {:induction false} CellsAre(skip: Letter -> bool, text: Word, i: int, end: int)
    requires 0 <= i && end <= |text|
    ensures forall c :: c in Feed(skip, text, i, end, 0) ==> 0 <= c.at < |text| && c.letter == text[c.at]
    decreases end - i
  {
    if i < end {
      CellsAre(skip, text, i + 1, end);
    }
  }

  /** The positions run left to right over exactly the letters that are not skipped. */
  lemma {:induction false} PositionsMeaning(skip: Letter -> bool, text: Word, i: int, end: int)
    requires 0 <= i && end <= |text|
    ensures var ps := Positions(skip, text, i, end); forall m, n :: 0 <= m < n < |ps| ==> ps[m] < ps[n]
    ensures forall p :: p in Positions(skip, text, i, end) <==> i <= p < end && !skip(text[p])
    decreases end - i
  {
    if i < end {
      PositionsMeaning(skip, text, i + 1, end);
      var ps, rest := Positions(skip, text, i, end), Positions(skip, text, i + 1, end);
      if skip(text[i]) {
        assert ps == rest;
      } else {
        assert ps == [i] + rest;
        assert forall n :: 0 <= n < |rest| ==> rest[n] in rest;
      }
    }
  }

  /** The hits end at places that the positions have. */
  predicate EndsWithin(hits: seq<Hit>, ps: seq<int>) {
    forall h :: h in hits ==> 0 <= h.end < |ps|
  }

  function Renumber(hits: seq<Hit>, ps: seq<int>): (r: seq<Hit>)
    requires EndsWithin(hits, ps)
  {
    if hits == [] then [] else [Hit(ps[hits[0].end], hits[0].key)] + Renumber(hits[1..], ps)
  }

  lemma {:induction false} RenumberAre(hits: seq<Hit>, ps: seq<int>)
    requires EndsWithin(hits, ps)
    ensures |Renumber(hits, ps)| == |hits|
    ensures forall i :: 0 <= i < |hits| ==>
              0 <= hits[i].end < |ps| && Renumber(hits, ps)[i] == Hit(ps[hits[i].end], hits[i].key)
  {
    if hits != [] {
      RenumberAre(hits[1..], ps);
      assert forall i :: 0 <= i < |hits| ==> hits[i] in hits;
    }
  }

  lemma WithinConcat(f: seq<Hit>, g: seq<Hit>, ps: seq<int>)
    ensures EndsWithin(f + g, ps) <==> EndsWithin(f, ps) && EndsWithin(g, ps)
  {
    assert forall h :: h in f + g <==> h in f || h in g;
  }

  lemma RenumberFirst(h: Hit, hits: seq<Hit>, ps: seq<int>)
    requires EndsWithin([h] + hits, ps)
    ensures EndsWithin(hits, ps) && 0 <= h.end < |ps|
    ensures Renumber([h] + hits, ps) == [Hit(ps[h.end], h.key)] + Renumber(hits, ps)
  {
    WithinConcat([h], hits, ps);
    assert h in [h];
    assert ([h] + hits)[1..] == hits;
  }

  lemma {:induction false} RenumberConcat(f: seq<Hit>, g: seq<Hit>, ps: seq<int>)
    requires EndsWithin(f, ps) && EndsWithin(g, ps)
    ensures EndsWithin(f + g, ps)
    ensures Renumber(f + g, ps) == Renumber(f, ps) + Renumber(g, ps)
  {
    hide EndsWithin;
    WithinConcat(f, g, ps);
    if f == [] {
      assert f + g == g;
    } else {
      hide Renumber;
      assert f == [f[0]] + f[1..] && f + g == [f[0]] + (f[1..] + g);
      RenumberFirst(f[0], f[1..], ps);
      RenumberFirst(f[0], f[1..] + g, ps);
      RenumberConcat(f[1..], g, ps);
    }
  }

  lemma {:induction false} RenumberAt(i: int, ks: seq<Word>, ps: seq<int>)
    requires 0 <= i < |ps|
    ensures forall h :: h in At(i, ks) ==> h.end == i
    ensures Renumber(At(i, ks), ps) == At(ps[i], ks)
  {
    if ks != [] {
      RenumberAt(i, ks[1..], ps);
    }
  }

  /** The hits of `feed` carry the indices of its cells. */
  lemma {:induction false} RunRenumbered(K: set<Word>, history: Word, feed: seq<Cell>, text: Word, ps: seq<int>, i: nat)
    requires i <= |text| == |ps| && |feed| == |text| - i
    requires forall n :: 0 <= n < |feed| ==> feed[n] == Cell(text[i + n], ps[i + n])
    ensures EndsWithin(Run(K, history, Feed(KeepAll, text, i, |text|, 0)), ps)
    ensures Run(K, history, feed) == Renumber(Run(K, history, Feed(KeepAll, text, i, |text|, 0)), ps)
    decreases |text| - i
  {
    if i < |text| {
      var h := history + [text[i]];
      RunRenumbered(K, h, feed[1..], text, ps, i + 1);
      RenumberAt(i, SuffixKeys(K, h), ps);
      assert Feed(KeepAll, text, i, |text|, 0)[1..] == Feed(KeepAll, text, i + 1, |text|, 0);
      RenumberConcat(At(i, SuffixKeys(K, h)), Run(K, h, Feed(KeepAll, text, i + 1, |text|, 0)), ps);
    }
  }

  function NaiveDeleted(K: set<Word>, skip: Letter -> bool, text: Word, start: int, end: int): seq<Hit>
    requires 0 <= start && end <= |text|
  {
    var w := Deleted(skip, text, start, end);
    Naive(K, w, 0, |w|)
  }

  /** Ignoring white space is searching the slice with the white space deleted, with every end index
      mapped back to the original text. */
  lemma SkippingIsDeleting(K: set<Word>, skip: Letter -> bool, text: Word, start: int, end: int)
    requires 0 <= start && end <= |text|
    ensures EndsWithin(NaiveDeleted(K, skip, text, start, end), Positions(skip, text, start, end))
    ensures Run(K, [], Feed(skip, text, start, end, 0))
         == Renumber(NaiveDeleted(K, skip, text, start, end), Positions(skip, text, start, end))
  {
    RunRenumbered(K, [], Feed(skip, text, start, end, 0), Deleted(skip, text, start, end),
                  Positions(skip, text, start, end), 0);
  }
}
