/** What reading touches when nodes were freed but fail links were not renewed: child tables are those of the nodes N'
    that remain, fail links still lead where they led among all nodes N. */
module Touched {
  import opened Options
  import opened Words
  import opened Matches

  /** Where the transition from `s` under `c` leads; nowhere if it looks into a node that does not remain. */
  function Transit(N: set<Word>, N': set<Word>, s: Word, c: Letter): (r: Option<Word>)
    requires [] in N
    ensures r.Some? ==> r.value in N'
    decreases |s|
  {
    if s !in N' then None
    else if s + [c] in N' then Some(s + [c])
    else if s == [] then Some([])
    else Transit(N, N', Fail(N, s), c)
  }

  lemma {:induction false} TransitAmongAll(N: set<Word>, s: Word, c: Letter)
    requires [] in N && s in N
    ensures Transit(N, N, s, c).Some?
    decreases |s|
  {
    if s + [c] !in N && s != [] {
      TransitAmongAll(N, Fail(N, s), c);
    }
  }

  /** With fewer nodes the longest suffix is the same exactly if it still is a node. */
  lemma {:induction false} SuffixKept(N: set<Word>, N': set<Word>, t: Word)
    requires [] in N' && N' <= N
    ensures LongestSuffix(N', t) == LongestSuffix(N, t) <==> LongestSuffix(N, t) in N'
  {
    if t !in N {
      SuffixKept(N, N', t[1..]);
    } else if t !in N' {
      assert LongestSuffix(N', t) in N';
    }
  }

  /** If the old links lead anywhere, they lead where the right ones would: to the longest suffix that remains. */
  lemma {:induction false} TransitIsLongest(N: set<Word>, N': set<Word>, s: Word, c: Letter)
    requires [] in N && PrefixClosed(N') && N' <= N && Transit(N, N', s, c).Some?
    ensures Transit(N, N', s, c).value == LongestSuffix(N', s + [c])
    decreases |s|
  {
    if s + [c] !in N' {
      if s == [] {
        MissAtRoot(N', c);
      } else {
        SuffixKept(N, N', s[1..]);
        FailStep(N', s, c);
        TransitIsLongest(N, N', Fail(N, s), c);
      }
    }
  }

  /** All nodes on the way along the fail links from `s` remain. */
  predicate ChainStays(N: set<Word>, N': set<Word>, s: Word)
    requires [] in N
    decreases |s|
  {
    s in N' && (s == [] || ChainStays(N, N', Fail(N, s)))
  }

  /** Reading `t` from the state `s`, with the outputs after each letter, looks into remaining nodes only. */
  predicate ReadsOnly(N: set<Word>, N': set<Word>, s: Word, t: Word)
    requires [] in N
    decreases |t|
  {
    t == [] ||
    var n := Transit(N, N', s, t[0]);
    n.Some? && ChainStays(N, N', n.value) && ReadsOnly(N, N', n.value, t[1..])
  }

  /** The hits that reading the cells from the state `s` meets along the old links. */
  function Meets(N: set<Word>, N': set<Word>, K: set<Word>, s: Word, feed: seq<Cell>): seq<Hit>
    requires [] in N && ReadsOnly(N, N', s, Letters(feed))
    decreases |feed|
  {
    if feed == [] then []
    else
      var n := Transit(N, N', s, feed[0].letter).value;
      assert Letters(feed)[1..] == Letters(feed[1..]);
      At(feed[0].at, FailChain(N, K, n)) + Meets(N, N', K, n, feed[1..])
  }

  /** Reading that looks into remaining nodes only meets the right hits: those of the remaining keys. */
  lemma {:induction false} MeetsRightHits(N: set<Word>, N': set<Word>, K: set<Word>, history: Word, feed: seq<Cell>)
    requires [] in N && PrefixClosed(N') && N' <= N && K <= N' && [] !in K
    requires ReadsOnly(N, N', LongestSuffix(N', history), Letters(feed))
    ensures Meets(N, N', K, LongestSuffix(N', history), feed) == Run(K, history, feed)
    decreases |feed|
  {
    if feed != [] {
      var s, c := LongestSuffix(N', history), feed[0].letter;
      var h, n := history + [c], Transit(N, N', s, c).value;
      assert Letters(feed)[0] == c && Letters(feed)[1..] == Letters(feed[1..]);
      TransitIsLongest(N, N', s, c);
      Advance(N', history, c);
      SuffixKeysSkip(N', K, h);
      FailChainIsSuffixKeys(N, K, n);
      MeetsRightHits(N, N', K, h, feed[1..]);
    }
  }

  /** The word has no letter that is skipped. */
  predicate Clean(skip: Letter -> bool, w: Word) {
    forall c :: c in w ==> !skip(c)
  }

  lemma CleanNext(skip: Letter -> bool, w: Word, c: Letter)
    requires Clean(skip, w) && !skip(c)
    ensures Clean(skip, w + [c])
  {
  }

  /** The fail link of every remaining node without skipped letters leads to a remaining node. */
  ghost predicate CleanFailsRemain(skip: Letter -> bool, N: set<Word>, N': set<Word>)
    requires [] in N
  {
    forall w :: w in N' && w != [] && Clean(skip, w) ==> Fail(N, w) in N'
  }

  /** The fail link of every remaining node leads to a remaining node. */
  ghost predicate FailsRemain(N: set<Word>, N': set<Word>)
    requires [] in N
  {
    forall w :: w in N' && w != [] ==> Fail(N, w) in N'
  }

  lemma AllClean(skip: Letter -> bool, N: set<Word>, N': set<Word>)
    requires [] in N && forall c :: !skip(c)
    ensures CleanFailsRemain(skip, N, N') <==> FailsRemain(N, N')
    ensures forall w :: Clean(skip, w)
  {
    assert forall w :: Clean(skip, w);
  }

  lemma CleanFail(skip: Letter -> bool, N: set<Word>, s: Word)
    requires [] in N && s != [] && Clean(skip, s)
    ensures Clean(skip, Fail(N, s))
  {
    FailIsSuffix(N, s);
    var f := Fail(N, s);
    forall c | c in f ensures !skip(c) {
      var i :| 0 <= i < |f| && f[i] == c;
      assert s[|s| - |f| + i] == c;
    }
  }

  // ---------------------------------------------------------------- enough

  lemma {:induction false} ChainSafe(skip: Letter -> bool, N: set<Word>, N': set<Word>, s: Word)
    requires [] in N && CleanFailsRemain(skip, N, N') && s in N' && Clean(skip, s)
    ensures ChainStays(N, N', s)
    decreases |s|
  {
    if s != [] {
      CleanFail(skip, N, s);
      ChainSafe(skip, N, N', Fail(N, s));
    }
  }

  lemma {:induction false} TransitSafe(skip: Letter -> bool, N: set<Word>, N': set<Word>, s: Word, c: Letter)
    requires [] in N && CleanFailsRemain(skip, N, N') && s in N' && Clean(skip, s) && !skip(c)
    ensures Transit(N, N', s, c).Some? && Clean(skip, Transit(N, N', s, c).value)
    decreases |s|
  {
    if s + [c] !in N' && s != [] {
      CleanFail(skip, N, s);
      TransitSafe(skip, N, N', Fail(N, s), c);
    }
  }

  lemma {:induction false} ReadsSafe(skip: Letter -> bool, N: set<Word>, N': set<Word>, s: Word, t: Word)
    requires [] in N && CleanFailsRemain(skip, N, N') && s in N' && Clean(skip, s) && Clean(skip, t)
    ensures ReadsOnly(N, N', s, t)
    decreases |t|
  {
    if t != [] {
      assert t[0] in t;
      TransitSafe(skip, N, N', s, t[0]);
      var n := Transit(N, N', s, t[0]).value;
      ChainSafe(skip, N, N', n);
      ReadsSafe(skip, N, N', n, t[1..]);
    }
  }

  // ---------------------------------------------------------------- needed

  /** A suffix of the state that can read the letter is not lost. */
  lemma {:induction false} TransitPasses(N: set<Word>, N': set<Word>, s: Word, c: Letter, u: Word)
    requires [] in N && u in N && u + [c] in N' && IsSuffix(u, s) && Transit(N, N', s, c).Some?
    ensures IsSuffix(u + [c], Transit(N, N', s, c).value)
    decreases |s|
  {
    if s + [c] !in N' {
      FailIsLongest(N, s, u);
      FailIsSuffix(N, s);
      SuffixesNest(u, Fail(N, s), s);
      TransitPasses(N, N', Fail(N, s), c, u);
    }
  }

  /** The way along the fail links meets every suffix that was a node. */
  lemma {:induction false} ChainPasses(N: set<Word>, N': set<Word>, s: Word, w: Word)
    requires [] in N && w in N && IsSuffix(w, s) && ChainStays(N, N', s)
    ensures ChainStays(N, N', w)
    decreases |s|
  {
    if s != w {
      FailIsLongest(N, s, w);
      FailIsSuffix(N, s);
      SuffixesNest(w, Fail(N, s), s);
      ChainPasses(N, N', Fail(N, s), w);
    }
  }

  /** Reading a remaining node's word to its end, from any state that ends with what is read so far, passes through the
      node. */
  lemma {:induction false} ReadingPasses(N: set<Word>, N': set<Word>, s: Word, w: Word, i: nat)
    requires [] in N && PrefixClosed(N') && N' <= N && w in N' && i < |w| && IsSuffix(w[..i], s)
    requires ReadsOnly(N, N', s, w[i..])
    ensures ChainStays(N, N', w)
    decreases |w| - i
  {
    var n := Transit(N, N', s, w[i]).value;
    PrefixesAreNodes(N', w, i);
    PrefixesAreNodes(N', w, i + 1);
    assert w[..i + 1] == w[..i] + [w[i]] && w[i..][0] == w[i] && w[i..][1..] == w[i + 1..];
    TransitPasses(N, N', s, w[i], w[..i]);
    if i + 1 == |w| {
      assert w[..i + 1] == w;
      ChainPasses(N, N', n, w);
    } else {
      ReadingPasses(N, N', n, w, i + 1);
    }
  }

  /** Whatever is read from the state `s` looks into remaining nodes only, exactly if `s` remains and so do the targets
      of the fail links of remaining nodes. */
  lemma ReadsOnlyExactly(skip: Letter -> bool, N: set<Word>, N': set<Word>, s: Word)
    requires [] in N && PrefixClosed(N') && N' <= N && Clean(skip, s)
    ensures (forall t :: Clean(skip, t) ==> ReadsOnly(N, N', s, t)) <==> s in N' && CleanFailsRemain(skip, N, N')
  {
    if s in N' && CleanFailsRemain(skip, N, N') {
      forall t | Clean(skip, t) ensures ReadsOnly(N, N', s, t) {
        ReadsSafe(skip, N, N', s, t);
      }
    }
    if forall t :: Clean(skip, t) ==> ReadsOnly(N, N', s, t) {
      if s != [] {
        assert Clean(skip, s[..1]) && ReadsOnly(N, N', s, s[..1]);
      }
      forall w | w in N' && w != [] && Clean(skip, w) ensures Fail(N, w) in N' {
        assert ReadsOnly(N, N', s, w) && w[0..] == w && w[..0] == [];
        ReadingPasses(N, N', s, w, 0);
      }
    }
  }

  // ---------------------------------------------------------------- the longest-match scan

  /** The scan of `t` for one report, from the state `s`, looks into remaining nodes only. It looks into the fail target
      of a node it comes to, unless the node is a key, and follows fail links only while no match is saved. */
  predicate ScansOnly(N: set<Word>, N': set<Word>, K: set<Word>, s: Word, t: Word, saved: bool)
    requires [] in N
    decreases |t|
  {
    t == [] ||
    (s in N' &&
     if saved && s + [t[0]] !in N' then true
     else
       var n := Transit(N, N', s, t[0]);
       && n.Some?
       && if n.value == [] || n.value in K then ScansOnly(N, N', K, n.value, t[1..], saved || n.value in K)
          else Fail(N, n.value) in N' && (Fail(N, n.value) in K || ScansOnly(N, N', K, n.value, t[1..], saved)))
  }

  /** The scan is safe if all fail targets remain. */
  lemma {:induction false} ScanSafe(skip: Letter -> bool, N: set<Word>, N': set<Word>, K: set<Word>, s: Word, t: Word,
                                    saved: bool)
    requires [] in N && CleanFailsRemain(skip, N, N') && s in N' && Clean(skip, s) && Clean(skip, t)
    ensures ScansOnly(N, N', K, s, t, saved)
    decreases |t|
  {
    if t != [] {
      assert t[0] in t;
      TransitSafe(skip, N, N', s, t[0]);
      var n := Transit(N, N', s, t[0]).value;
      ScanSafe(skip, N, N', K, n, t[1..], saved);
      ScanSafe(skip, N, N', K, n, t[1..], true);
    }
  }

  /** No node that remains and is no key has a fail link to a key. */
  ghost predicate NeverEarly(N: set<Word>, N': set<Word>, K: set<Word>)
    requires [] in N
  {
    forall w :: w in N' && w != [] && w !in K ==> Fail(N, w) !in K
  }

  /** The fail link of every remaining node that is no key leads to a remaining node. */
  ghost predicate InnerFailsRemain(N: set<Word>, N': set<Word>, K: set<Word>)
    requires [] in N
  {
    forall w :: w in N' && w != [] && w !in K ==> Fail(N, w) in N'
  }

  lemma {:induction false} InnerTransitSafe(N: set<Word>, N': set<Word>, K: set<Word>, s: Word, c: Letter)
    requires [] in N && NeverEarly(N, N', K) && InnerFailsRemain(N, N', K) && s in N' && s !in K
    ensures Transit(N, N', s, c).Some?
    decreases |s|
  {
    if s + [c] !in N' && s != [] {
      InnerTransitSafe(N, N', K, Fail(N, s), c);
    }
  }

  lemma {:induction false} InnerScanSafe(N: set<Word>, N': set<Word>, K: set<Word>, s: Word, t: Word, saved: bool)
    requires [] in N && [] !in K && NeverEarly(N, N', K) && InnerFailsRemain(N, N', K) && s in N' && (saved || s !in K)
    ensures ScansOnly(N, N', K, s, t, saved)
    decreases |t|
  {
    if t != [] && !(saved && s + [t[0]] !in N') {
      if s + [t[0]] !in N' {
        InnerTransitSafe(N, N', K, s, t[0]);
      }
      var n := Transit(N, N', s, t[0]).value;
      InnerScanSafe(N, N', K, n, t[1..], saved || n in K);
    }
  }

  /** The scan of a remaining node's word comes to the node, unless it returns early on the way. */
  lemma {:induction false} ScanArrives(N: set<Word>, N': set<Word>, K: set<Word>, w: Word, i: nat, saved: bool)
    requires [] in N && PrefixClosed(N') && w in N' && w !in K && i < |w|
    requires forall j :: i < j < |w| ==> w[..j] in K || Fail(N, w[..j]) !in K
    requires ScansOnly(N, N', K, w[..i], w[i..], saved)
    ensures Fail(N, w) in N'
    decreases |w| - i
  {
    PrefixesAreNodes(N', w, i + 1);
    assert w[..i + 1] == w[..i] + [w[i]] && w[i..][0] == w[i] && w[i..][1..] == w[i + 1..];
    if i + 1 == |w| {
      assert w[..i + 1] == w;
    } else {
      ScanArrives(N, N', K, w, i + 1, saved || w[..i + 1] in K);
    }
  }

  lemma ScansNeed(N: set<Word>, N': set<Word>, K: set<Word>, w: Word)
    requires [] in N && PrefixClosed(N') && NeverEarly(N, N', K) && w in N' && w != [] && w !in K
    requires ScansOnly(N, N', K, [], w, false)
    ensures Fail(N, w) in N'
  {
    forall j | 0 < j < |w| ensures w[..j] in K || Fail(N, w[..j]) !in K {
      PrefixesAreNodes(N', w, j);
    }
    assert w[0..] == w && w[..0] == [];
    ScanArrives(N, N', K, w, 0, false);
  }

  /** The scan of `t` from the root looks into remaining nodes only. */
  ghost predicate ScanStays(N: set<Word>, N': set<Word>, K: set<Word>, t: Word)
    requires [] in N
  {
    ScansOnly(N, N', K, [], t, false)
  }

  /** While no early return can fire, every scan looks into remaining nodes only exactly if the fail links of remaining
      nodes that are no keys lead to remaining nodes. */
  lemma ScansOnlyExactly(N: set<Word>, N': set<Word>, K: set<Word>)
    requires [] in N && [] !in K && PrefixClosed(N') && NeverEarly(N, N', K)
    ensures (forall t :: ScanStays(N, N', K, t)) <==> InnerFailsRemain(N, N', K)
  {
    if InnerFailsRemain(N, N', K) {
      forall t ensures ScanStays(N, N', K, t) {
        InnerScanSafe(N, N', K, [], t, false);
      }
    } else {
      var w :| w in N' && w != [] && w !in K && Fail(N, w) !in N';
      if ScanStays(N, N', K, w) {
        ScansNeed(N, N', K, w);
      }
    }
  }
}
