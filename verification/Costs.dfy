/** What reading letters and following fail links costs, as functions of words. */
module Costs {
  import opened Words

  /** The child tables that the transition from `s` under `c` searches. */
  function Lookups(N: set<Word>, s: Word, c: Letter): nat
    requires [] in N
    decreases |s|
  {
    if s == [] || s + [c] in N then 1 else 1 + Lookups(N, Fail(N, s), c)
  }

  /** The node suffixes of `s` that are at least `least` letters long. */
  ghost function SuffixNodes(N: set<Word>, s: Word, least: int): (r: set<Word>)
    ensures forall u :: u in r <==> u in N && IsSuffix(u, s) && |u| >= least
  {
    set u | u in N && IsSuffix(u, s) && |u| >= least
  }

  /** The suffixes of a node are the node and those of its fail target. */
  lemma SuffixNodesOfFail(N: set<Word>, s: Word, least: int)
    requires [] in N && s in N && s != [] && |s| >= least
    ensures SuffixNodes(N, s, least) == SuffixNodes(N, Fail(N, s), least) + {s}
    ensures s !in SuffixNodes(N, Fail(N, s), least)
  {
    FailIsSuffix(N, s);
    forall u ensures u in SuffixNodes(N, s, least) <==> u in SuffixNodes(N, Fail(N, s), least) + {s} {
      if u in N && IsSuffix(u, s) && |u| < |s| {
        FailIsLongest(N, s, u);
        SuffixesNest(u, Fail(N, s), s);
      }
      if IsSuffix(u, Fail(N, s)) {
        SuffixOfSuffix(u, Fail(N, s), s);
      }
      assert IsSuffix(u, s) && |u| == |s| ==> u == s;
    }
  }

  lemma SuffixOfSuffix(r: Word, s: Word, t: Word)
    requires IsSuffix(r, s) && IsSuffix(s, t)
    ensures IsSuffix(r, t)
  {
  }

  lemma OnlyRoot(N: set<Word>, least: int)
    requires [] in N
    ensures SuffixNodes(N, [], least) == if least <= 0 then {[]} else {}
  {
    assert forall u: Word :: IsSuffix(u, []) <==> u == [];
  }

  /** The tables searched are those of the node suffixes of `s` down to the one that reads the letter, of all of them if
      none does. */
  lemma {:induction false} LookupsAre(N: set<Word>, s: Word, c: Letter)
    requires PrefixClosed(N) && s in N
    ensures Lookups(N, s, c) == |(set u | u in N && IsSuffix(u, s) && |u| + 1 >= |LongestSuffix(N, s + [c])|)|
    decreases |s|
  {
    hide LongestSuffix, SuffixNodes, IsSuffix;
    LooksInto(N, s, |LongestSuffix(N, s + [c])|);
    var least := |LongestSuffix(N, s + [c])| - 1;
    if s == [] {
      OnlyRoot(N, least);
      LongestSuffixFits(N, [] + [c]);
    } else if s + [c] in N {
      NodeIsItsSuffix(N, s + [c]);
      OnlyItself(N, s);
    } else {
      FailStep(N, s, c);
      LookupsAre(N, Fail(N, s), c);
      LooksInto(N, Fail(N, s), |LongestSuffix(N, s + [c])|);
      ShorterSuffix(N, s + [c]);
      SuffixNodesOfFail(N, s, least);
    }
  }

  lemma LooksInto(N: set<Word>, s: Word, n: int)
    ensures SuffixNodes(N, s, n - 1) == set u | u in N && IsSuffix(u, s) && |u| + 1 >= n
  {
  }

  lemma LongestSuffixFits(N: set<Word>, t: Word)
    requires [] in N
    ensures |LongestSuffix(N, t)| <= |t|
  {
  }

  lemma ShorterSuffix(N: set<Word>, t: Word)
    requires [] in N && t !in N
    ensures |LongestSuffix(N, t)| < |t|
  {
    LongestSuffixFits(N, t);
  }

  lemma OnlyItself(N: set<Word>, s: Word)
    requires s in N
    ensures SuffixNodes(N, s, |s|) == {s}
  {
    assert IsSuffix(s, s);
    assert forall u :: IsSuffix(u, s) && |u| >= |s| ==> u == s;
  }

  /** Every lookup but two is paid for by a move up the trie. */
  lemma {:induction false} LookupsBounded(N: set<Word>, s: Word, c: Letter)
    requires PrefixClosed(N)
    ensures Lookups(N, s, c) + |LongestSuffix(N, s + [c])| <= |s| + 2
    decreases |s|
  {
    if s != [] && s + [c] !in N {
      FailStep(N, s, c);
      LookupsBounded(N, Fail(N, s), c);
    } else if s == [] && s + [c] !in N {
      MissAtRoot(N, c);
    }
  }

  /** The child tables that reading all of `t` from the root searches. */
  function TextLookups(N: set<Word>, t: Word): nat
    requires [] in N
  {
    if t == [] then 0
    else TextLookups(N, Parent(t)) + Lookups(N, LongestSuffix(N, Parent(t)), t[|t| - 1])
  }

  lemma TextLookupsNext(N: set<Word>, t: Word, c: Letter)
    requires [] in N
    ensures TextLookups(N, t + [c]) == TextLookups(N, t) + Lookups(N, LongestSuffix(N, t), c)
  {
    assert Parent(t + [c]) == t;
  }

  ghost function Paired<X>(x: X, A: set<Word>): set<(X, Word)> {
    set u | u in A :: (x, u)
  }

  lemma {:induction false} PairsCount<X>(x: X, A: set<Word>)
    ensures |Paired(x, A)| == |A|
    decreases |A|
  {
    if A != {} {
      var u :| u in A;
      PairsCount(x, A - {u});
      assert Paired(x, A) == Paired(x, A - {u}) + {(x, u)};
    }
  }

  /** The places of `t` with the nodes looked into there: the suffixes of what was read that are no shorter than what is
      kept of it. */
  ghost function LookedInto(N: set<Word>, t: Word): set<(int, Word)>
    requires [] in N
  {
    set j, u | 0 <= j < |t| && u in N && IsSuffix(u, t[..j]) && |u| + 1 >= |LongestSuffix(N, t[..j + 1])| :: (j, u)
  }

  lemma LookedIntoNext(N: set<Word>, p: Word, c: Letter)
    requires [] in N
    ensures var more := Paired(|p|, SuffixNodes(N, p, |LongestSuffix(N, p + [c])| - 1));
            LookedInto(N, p + [c]) == LookedInto(N, p) + more && LookedInto(N, p) !! more
  {
    hide LongestSuffix, SuffixNodes, IsSuffix;
    var t := p + [c];
    assert t[..|p|] == p && t[..|t|] == t;
    forall j, u
      ensures (j, u) in LookedInto(N, t) <==>
                (j, u) in LookedInto(N, p) || (j == |p| && u in SuffixNodes(N, p, |LongestSuffix(N, t)| - 1)) {
      if 0 <= j < |p| {
        assert t[..j] == p[..j] && t[..j + 1] == p[..j + 1];
      }
    }
  }

  /** All tables searched while reading `t` are those of the nodes looked into at its places. */
  lemma {:induction false} TextLookupsAre(N: set<Word>, t: Word)
    requires PrefixClosed(N)
    ensures TextLookups(N, t) == |LookedInto(N, t)|
    decreases |t|
  {
    hide LongestSuffix, Lookups, LookedInto, IsSuffix;
    if t == [] {
      NothingLookedInto(N);
    } else {
      var p, c := Parent(t), t[|t| - 1];
      assert t == p + [c];
      TextLookupsAre(N, p);
      TextLookupsNext(N, p, c);
      LookupsAre(N, LongestSuffix(N, p), c);
      Advance(N, p, c);
      LookedIntoNext(N, p, c);
      var A := SuffixNodes(N, p, |LongestSuffix(N, t)| - 1);
      forall u | u in N ensures IsSuffix(u, p) <==> IsSuffix(u, LongestSuffix(N, p)) {
        NodeSuffixes(N, p, u);
      }
      var s := LongestSuffix(N, p);
      assert A == set u | u in N && IsSuffix(u, s) && |u| + 1 >= |LongestSuffix(N, s + [c])|;
      PairsCount(|p|, A);
    }
  }

  lemma NothingLookedInto(N: set<Word>)
    requires [] in N
    ensures LookedInto(N, []) == {} && TextLookups(N, []) == 0
  {
  }

  /** The node suffixes of a text are those of the longest one. */
  lemma NodeSuffixes(N: set<Word>, t: Word, u: Word)
    requires [] in N && u in N
    ensures IsSuffix(u, t) <==> IsSuffix(u, LongestSuffix(N, t))
  {
    LongestSuffixIsSuffix(N, t);
    if IsSuffix(u, t) {
      LongestSuffixIsLongest(N, t, u);
      SuffixesNest(u, LongestSuffix(N, t), t);
    } else if IsSuffix(u, LongestSuffix(N, t)) {
      SuffixOfSuffix(u, LongestSuffix(N, t), t);
    }
  }

  /** Every letter needs a lookup. */
  lemma {:induction false} TextLookupsEach(N: set<Word>, t: Word)
    requires [] in N
    ensures TextLookups(N, t) >= |t|
    decreases |t|
  {
    if t != [] {
      TextLookupsEach(N, Parent(t));
    }
  }

  /** Reading n letters searches at most 2n child tables. */
  lemma {:induction false} TextLookupsBounded(N: set<Word>, t: Word)
    requires PrefixClosed(N)
    ensures TextLookups(N, t) + |LongestSuffix(N, t)| <= 2 * |t|
    decreases |t|
  {
    if t != [] {
      var p, c := Parent(t), t[|t| - 1];
      assert t == p + [c];
      TextLookupsBounded(N, p);
      LookupsBounded(N, LongestSuffix(N, p), c);
      Advance(N, p, c);
    }
  }

  /** The fail links that make_automaton follows from `s` to find the fail link of a child under `c`. */
  function FailSteps(N: set<Word>, s: Word, c: Letter): nat
    requires [] in N
    decreases |s|
  {
    if s == [] || s + [c] in N then 0 else 1 + FailSteps(N, Fail(N, s), c)
  }

  /** The fail links followed are those of the node suffixes of `s`, other than the root, that are longer than the one
      that reads the letter. */
  lemma {:induction false} FailStepsAre(N: set<Word>, s: Word, c: Letter)
    requires PrefixClosed(N) && s in N
    ensures FailSteps(N, s, c) ==
              |(set u | u in N && u != [] && IsSuffix(u, s) && |u| >= |LongestSuffix(N, s + [c])|)|
    decreases |s|
  {
    hide LongestSuffix, SuffixNodes, IsSuffix;
    var n := |LongestSuffix(N, s + [c])|;
    var least := if n == 0 then 1 else n;
    StepsOver(N, s, n);
    if s == [] {
      OnlyRoot(N, least);
    } else if s + [c] in N {
      NodeIsItsSuffix(N, s + [c]);
      NoneLonger(N, s);
    } else {
      FailStep(N, s, c);
      FailStepsAre(N, Fail(N, s), c);
      StepsOver(N, Fail(N, s), n);
      ShorterSuffix(N, s + [c]);
      SuffixNodesOfFail(N, s, least);
    }
  }

  lemma StepsOver(N: set<Word>, s: Word, n: nat)
    ensures SuffixNodes(N, s, if n == 0 then 1 else n) == set u | u in N && u != [] && IsSuffix(u, s) && |u| >= n
  {
  }

  lemma NoneLonger(N: set<Word>, s: Word)
    ensures SuffixNodes(N, s, |s| + 1) == {}
  {
  }

  lemma {:induction false} FailStepsBounded(N: set<Word>, s: Word, c: Letter)
    requires PrefixClosed(N)
    ensures FailSteps(N, s, c) + |LongestSuffix(N, s + [c])| <= |s| + 1
    decreases |s|
  {
    if s != [] && s + [c] !in N {
      FailStep(N, s, c);
      FailStepsBounded(N, Fail(N, s), c);
    } else if s == [] && s + [c] !in N {
      MissAtRoot(N, c);
    }
  }

  /** The fail links followed for the node `w`; the first level needs none. */
  function LinkSteps(N: set<Word>, w: Word): nat
    requires [] in N && w != []
  {
    if |w| == 1 then 0 else FailSteps(N, Fail(N, Parent(w)), w[|w| - 1])
  }

  /** The nodes whose fail links are followed for `w`: proper suffixes of its parent, no shorter than its own fail
      target. */
  ghost function Followed(N: set<Word>, w: Word): set<Word>
    requires [] in N && w != []
  {
    set u | u in N && u != [] && IsSuffix(u, Parent(w)) && |u| < |Parent(w)| && |u| >= |Fail(N, w)|
  }

  lemma LinkStepsAre(N: set<Word>, w: Word)
    requires PrefixClosed(N) && w in N && w != []
    ensures LinkSteps(N, w) == |Followed(N, w)|
  {
    var p, c := Parent(w), w[|w| - 1];
    assert w == p + [c];
    if |w| == 1 {
      assert Followed(N, w) == {};
    } else {
      FailOfChild(N, p, c);
      FailStepsAre(N, Fail(N, p), c);
      forall u | u in N ensures IsSuffix(u, p) && |u| < |p| <==> IsSuffix(u, Fail(N, p)) {
        ProperSuffixes(N, p, u);
      }
      assert Followed(N, w) ==
             set u | u in N && u != [] && IsSuffix(u, Fail(N, p)) && |u| >= |LongestSuffix(N, Fail(N, p) + [c])|;
    }
  }

  lemma ProperSuffixes(N: set<Word>, p: Word, u: Word)
    requires [] in N && u in N && p != []
    ensures IsSuffix(u, p) && |u| < |p| <==> IsSuffix(u, Fail(N, p))
  {
    NodeSuffixes(N, p[1..], u);
    assert IsSuffix(u, p) && |u| < |p| <==> IsSuffix(u, p[1..]);
  }
}
