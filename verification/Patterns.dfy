/** What the enumerator yields: keys by pattern, wildcard and length mode, in the order of its depth-first walk. */
module Patterns {
  import opened Options
  import opened Words
  import opened Traversal

  datatype MatchType = ExactLength | AtMostPrefix | AtLeastPrefix

  datatype Pattern = Pattern(letters: Word, wildcard: Option<Letter>, how: MatchType)
  {
    /** The pattern fixes the letter at this position. */
    predicate Fixes(i: nat) {
      i < |letters| && wildcard != Some(letters[i])
    }

    predicate LengthFits(n: nat) {
      match how
      case ExactLength => n == |letters|
      case AtMostPrefix => n <= |letters|
      case AtLeastPrefix => n >= |letters|
    }

    /** `k` agrees with the pattern at every fixed position from `i` on that both have. */
    predicate Agrees(k: Word, i: nat) {
      forall j :: i <= j < |k| && Fixes(j) ==> k[j] == letters[j]
    }

    /** Nodes deeper than the pattern are dropped unless longer keys are wanted. */
    predicate Drops(depth: nat) {
      how != AtLeastPrefix && depth > |letters|
    }

    /** The children the walk goes on to, in the order they are pushed. */
    function Chosen(children: seq<Letter>, depth: nat): seq<Letter> {
      if !Fixes(depth) then children
      else if letters[depth] in children then [letters[depth]]
      else []
    }
  }

  /** The keys yielded from the node `w` on. */
  ghost function Walk(T: Table, K: set<Word>, p: Pattern, w: Word, bound: nat): seq<Word>
    requires TreeTable(T) && Bounded(T.Keys, bound) && w in T
    decreases bound - |w|, |T[w]| + 2
  {
    if p.Drops(|w|) then []
    else
      assert Branches(T, w);
      (if p.LengthFits(|w|) && w in K then [w] else []) + WalkChildren(T, K, p, w, p.Chosen(T[w], |w|), bound)
  }

  /** The last pushed child comes first. */
  ghost function WalkChildren(T: Table, K: set<Word>, p: Pattern, w: Word, letters: seq<Letter>, bound: nat): seq<Word>
    requires TreeTable(T) && Bounded(T.Keys, bound) && w in T
    requires |letters| <= |T[w]| + 1 && forall c :: c in letters ==> w + [c] in T
    decreases bound - |w|, |letters|
  {
    if letters == [] then []
    else
      var last := letters[|letters| - 1];
      assert last in letters;
      Walk(T, K, p, w + [last], bound) + WalkChildren(T, K, p, w, letters[..|letters| - 1], bound)
  }

  /** The keys yielded from a whole stack. */
  ghost function WalkStack(T: Table, K: set<Word>, p: Pattern, ws: seq<Word>, bound: nat): seq<Word>
    requires TreeTable(T) && Bounded(T.Keys, bound) && forall w :: w in ws ==> w in T
  {
    if ws == [] then [] else Walk(T, K, p, ws[0], bound) + WalkStack(T, K, p, ws[1..], bound)
  }

  ghost predicate Wanted(K: set<Word>, p: Pattern, w: Word, k: Word) {
    k in K && IsPrefix(w, k) && p.LengthFits(|k|) && p.Agrees(k, |w|)
  }

  lemma ChosenLetters(T: Table, p: Pattern, w: Word)
    requires TreeTable(T) && w in T
    ensures Distinct(p.Chosen(T[w], |w|)) && forall c :: c in p.Chosen(T[w], |w|) ==> w + [c] in T
    ensures |p.Chosen(T[w], |w|)| <= |T[w]| + 1
  {
    assert Branches(T, w);
  }

  /** A longer key is wanted below `w` just when it goes through a chosen child and is wanted there. */
  lemma WantedBelow(T: Table, K: set<Word>, p: Pattern, w: Word, k: Word)
    requires TreeTable(T) && w in T && K <= T.Keys && k != w
    ensures Wanted(K, p, w, k) <==>
              Through(w, p.Chosen(T[w], |w|), k) && Wanted(K, p, w + [k[|w|]], k)
  {
    if k in K && IsPrefix(w, k) {
      NextLetter(T, w, k);
      ThroughChild(w, k[|w|], k);
      assert p.Agrees(k, |w|) <==> (p.Fixes(|w|) ==> k[|w|] == p.letters[|w|]) && p.Agrees(k, |w| + 1);
    }
  }

  /** Below `w`, the walk yields exactly the wanted keys, each once. */
  lemma {:induction false} WalkYields(T: Table, K: set<Word>, p: Pattern, w: Word, bound: nat)
    requires TreeTable(T) && Bounded(T.Keys, bound) && w in T && K <= T.Keys
    ensures Distinct(Walk(T, K, p, w, bound))
    ensures forall k :: k in Walk(T, K, p, w, bound) <==> Wanted(K, p, w, k)
    decreases bound - |w|, |T[w]| + 2
  {
    if !p.Drops(|w|) {
      var letters := p.Chosen(T[w], |w|);
      ChosenLetters(T, p, w);
      WalkChildrenYields(T, K, p, w, letters, bound);
      var own := if p.LengthFits(|w|) && w in K then [w] else [];
      DistinctConcat(own, WalkChildren(T, K, p, w, letters, bound));
      forall k ensures k in Walk(T, K, p, w, bound) <==> Wanted(K, p, w, k) {
        if k != w {
          WantedBelow(T, K, p, w, k);
        }
      }
    }
  }

  lemma {:induction false} WalkChildrenYields(T: Table, K: set<Word>, p: Pattern, w: Word, letters: seq<Letter>,
                                              bound: nat)
    requires TreeTable(T) && Bounded(T.Keys, bound) && w in T && K <= T.Keys
    requires Distinct(letters) && |letters| <= |T[w]| + 1 && forall c :: c in letters ==> w + [c] in T
    ensures Distinct(WalkChildren(T, K, p, w, letters, bound))
    ensures forall k :: k in WalkChildren(T, K, p, w, letters, bound) <==>
                        Through(w, letters, k) && Wanted(K, p, w + [k[|w|]], k)
    decreases bound - |w|, |letters|
  {
    if letters != [] {
      var c, rest := letters[|letters| - 1], letters[..|letters| - 1];
      assert c in letters && letters == rest + [c];
      WalkYields(T, K, p, w + [c], bound);
      WalkChildrenYields(T, K, p, w, rest, bound);
      forall k ensures IsPrefix(w + [c], k) <==> IsPrefix(w, k) && |w| < |k| && k[|w|] == c {
        ThroughChild(w, c, k);
      }
      DistinctConcat(Walk(T, K, p, w + [c], bound), WalkChildren(T, K, p, w, rest, bound));
    }
  }

  /** From the root, the walk yields exactly the keys of the wanted length that have the pattern's letter, or any letter
      under a wildcard, at every place that both have, each once. */
  lemma WalkYieldsMatches(T: Table, K: set<Word>, p: Pattern, bound: nat)
    requires TreeTable(T) && Bounded(T.Keys, bound) && K <= T.Keys
    ensures Distinct(Walk(T, K, p, [], bound))
    ensures forall k :: k in Walk(T, K, p, [], bound) <==>
              && k in K
              && (match p.how
                  case ExactLength => |k| == |p.letters|
                  case AtMostPrefix => |k| <= |p.letters|
                  case AtLeastPrefix => |k| >= |p.letters|)
              && forall j :: 0 <= j < |k| && j < |p.letters| ==>
                   p.wildcard == Some(p.letters[j]) || k[j] == p.letters[j]
  {
    WalkYields(T, K, p, [], bound);
    assert forall k: Word :: IsPrefix([], k);
  }

  /** Without a wildcard and with longer keys wanted, these are the keys that start with the pattern. */
  lemma WalkYieldsPrefixed(T: Table, K: set<Word>, p: Pattern, bound: nat)
    requires TreeTable(T) && Bounded(T.Keys, bound) && K <= T.Keys && p.how == AtLeastPrefix && p.wildcard == None
    ensures forall k :: k in Walk(T, K, p, [], bound) <==> k in K && IsPrefix(p.letters, k)
  {
    WalkYieldsMatches(T, K, p, bound);
    forall k | k in K ensures k in Walk(T, K, p, [], bound) <==> IsPrefix(p.letters, k) {
    }
  }

  // ---------------------------------------------------------------- the order of the walk

  /** The parent comes first; of words that part, the one with the later child, which was pushed last. */
  ghost predicate Pops(T: Table, u: Word, v: Word) {
    (|u| < |v| && IsPrefix(u, v)) || exists n :: Parts(T, v, u, n)
  }

  ghost predicate InStackOrder(T: Table, ks: seq<Word>) {
    forall i, j :: 0 <= i < j < |ks| ==> Pops(T, ks[i], ks[j])
  }

  lemma StackOrderConcat(T: Table, f: seq<Word>, g: seq<Word>)
    requires InStackOrder(T, f) && InStackOrder(T, g) && forall u, v :: u in f && v in g ==> Pops(T, u, v)
    ensures InStackOrder(T, f + g)
  {
    hide Pops;
    forall i, j | 0 <= i < j < |f + g| ensures Pops(T, (f + g)[i], (f + g)[j]) {
      if i < |f| <= j {
        assert (f + g)[i] in f && (f + g)[j] in g;
      }
    }
  }

  lemma {:induction false} WalkInOrder(T: Table, K: set<Word>, p: Pattern, w: Word, bound: nat)
    requires TreeTable(T) && Bounded(T.Keys, bound) && w in T && K <= T.Keys
    ensures InStackOrder(T, Walk(T, K, p, w, bound))
    decreases bound - |w|, |T[w]| + 2
  {
    hide InStackOrder, Pops, Pattern.LengthFits;
    FewInOrder(T, w);
    if !p.Drops(|w|) {
      var letters := p.Chosen(T[w], |w|);
      ChosenLetters(T, p, w);
      assert T[w][..|T[w]|] == T[w];
      WalkChildrenInOrder(T, K, p, w, letters, bound);
      WalkChildrenYields(T, K, p, w, letters, bound);
      var own := if p.LengthFits(|w|) && w in K then [w] else [];
      forall u, v | u in own && v in WalkChildren(T, K, p, w, letters, bound) ensures Pops(T, u, v) {
        ParentPops(T, u, v);
      }
      StackOrderConcat(T, own, WalkChildren(T, K, p, w, letters, bound));
    }
  }

  lemma FewInOrder(T: Table, w: Word)
    ensures InStackOrder(T, []) && InStackOrder(T, [w])
  {
  }

  lemma ParentPops(T: Table, u: Word, v: Word)
    requires |u| < |v| && IsPrefix(u, v)
    ensures Pops(T, u, v)
  {
  }

  lemma ChildPops(T: Table, w: Word, letters: seq<Letter>, u: Word, v: Word)
    requires w in T && letters != [] && ((|letters| <= |T[w]| && letters == T[w][..|letters|]) || |letters| <= 1)
    requires IsPrefix(w + [letters[|letters| - 1]], u) && Through(w, letters[..|letters| - 1], v)
    ensures Pops(T, u, v)
  {
    var rest := letters[..|letters| - 1];
    var n :| 0 <= n < |rest| && rest[n] == v[|w|];
    assert letters == T[w][..|letters|];
    ThroughChild(w, letters[|letters| - 1], u);
    assert T[w][n] == v[|w|] && T[w][|letters| - 1] == u[|w|];
    assert u[..|w|] == w && v[..|w|] == w;
    assert Parts(T, v, u, |w|);
  }

  lemma {:induction false} WalkChildrenInOrder(T: Table, K: set<Word>, p: Pattern, w: Word, letters: seq<Letter>,
                                               bound: nat)
    requires TreeTable(T) && Bounded(T.Keys, bound) && w in T && K <= T.Keys
    requires Distinct(letters) && |letters| <= |T[w]| + 1 && forall c :: c in letters ==> w + [c] in T
    requires (|letters| <= |T[w]| && letters == T[w][..|letters|]) || |letters| <= 1
    ensures InStackOrder(T, WalkChildren(T, K, p, w, letters, bound))
    decreases bound - |w|, |letters|
  {
    hide InStackOrder, Pops;
    FewInOrder(T, w);
    if letters != [] {
      var c, rest := letters[|letters| - 1], letters[..|letters| - 1];
      assert c in letters;
      assert |letters| <= |T[w]| && letters == T[w][..|letters|] ==> rest == T[w][..|rest|];
      WalkInOrder(T, K, p, w + [c], bound);
      WalkChildrenInOrder(T, K, p, w, rest, bound);
      WalkYields(T, K, p, w + [c], bound);
      WalkChildrenYields(T, K, p, w, rest, bound);
      forall u, v | u in Walk(T, K, p, w + [c], bound) && v in WalkChildren(T, K, p, w, rest, bound)
        ensures Pops(T, u, v) {
        ChildPops(T, w, letters, u, v);
      }
      StackOrderConcat(T, Walk(T, K, p, w + [c], bound), WalkChildren(T, K, p, w, rest, bound));
    }
  }

  // ---------------------------------------------------------------- the stack

  /** The stack `ws` after the children of `w` under `letters` were pushed one by one. */
  function Pushed(w: Word, letters: seq<Letter>, ws: seq<Word>): seq<Word> {
    if letters == [] then ws
    else [w + [letters[|letters| - 1]]] + Pushed(w, letters[..|letters| - 1], ws)
  }

  lemma {:induction false} PushedNodes(T: Table, w: Word, letters: seq<Letter>, ws: seq<Word>)
    requires (forall u :: u in ws ==> u in T) && forall c :: c in letters ==> w + [c] in T
    ensures forall u :: u in Pushed(w, letters, ws) ==> u in T
  {
    if letters != [] {
      assert letters[|letters| - 1] in letters;
      PushedNodes(T, w, letters[..|letters| - 1], ws);
    }
  }

  lemma {:induction false} WalkPushed(T: Table, K: set<Word>, p: Pattern, w: Word, letters: seq<Letter>, ws: seq<Word>,
                                      bound: nat)
    requires TreeTable(T) && Bounded(T.Keys, bound) && w in T && |letters| <= |T[w]| + 1
    requires (forall u :: u in ws ==> u in T) && forall c :: c in letters ==> w + [c] in T
    ensures forall u :: u in Pushed(w, letters, ws) ==> u in T
    ensures WalkStack(T, K, p, Pushed(w, letters, ws), bound)
         == WalkChildren(T, K, p, w, letters, bound) + WalkStack(T, K, p, ws, bound)
  {
    hide Walk, WalkStack, WalkChildren, TreeTable, Bounded;
    PushedNodes(T, w, letters, ws);
    if letters == [] {
      NoChildrenToWalk(T, K, p, w, bound);
    } else {
      var rest, u := letters[..|letters| - 1], w + [letters[|letters| - 1]];
      assert letters[|letters| - 1] in letters;
      WalkPushed(T, K, p, w, rest, ws, bound);
      WalkLastChild(T, K, p, w, letters, bound);
      WalkTop(T, K, p, u, Pushed(w, rest, ws), bound);
      var walk, more := Walk(T, K, p, u, bound), WalkChildren(T, K, p, w, rest, bound);
      var last := WalkStack(T, K, p, ws, bound);
      assert walk + (more + last) == (walk + more) + last;
    }
  }

  lemma NoChildrenToWalk(T: Table, K: set<Word>, p: Pattern, w: Word, bound: nat)
    requires TreeTable(T) && Bounded(T.Keys, bound) && w in T
    ensures WalkChildren(T, K, p, w, [], bound) == []
  {
  }

  lemma WalkLastChild(T: Table, K: set<Word>, p: Pattern, w: Word, letters: seq<Letter>, bound: nat)
    requires TreeTable(T) && Bounded(T.Keys, bound) && w in T && letters != []
    requires |letters| <= |T[w]| + 1 && forall c :: c in letters ==> w + [c] in T
    ensures w + [letters[|letters| - 1]] in T
    ensures WalkChildren(T, K, p, w, letters, bound)
         == Walk(T, K, p, w + [letters[|letters| - 1]], bound)
            + WalkChildren(T, K, p, w, letters[..|letters| - 1], bound)
  {
    assert letters[|letters| - 1] in letters;
  }

  lemma WalkTop(T: Table, K: set<Word>, p: Pattern, u: Word, ws: seq<Word>, bound: nat)
    requires TreeTable(T) && Bounded(T.Keys, bound) && u in T && forall w :: w in ws ==> w in T
    ensures WalkStack(T, K, p, [u] + ws, bound) == Walk(T, K, p, u, bound) + WalkStack(T, K, p, ws, bound)
  {
    assert ([u] + ws)[1..] == ws;
  }

  /** How many nodes lie at and below the stack: this bounds the rounds of the walk. */
  ghost function Load(T: Table, ws: seq<Word>, bound: nat): nat
    requires TreeTable(T) && Bounded(T.Keys, bound) && forall w :: w in ws ==> w in T
  {
    if ws == [] then 0 else |Preorder(T, ws[0], bound)| + Load(T, ws[1..], bound)
  }

  lemma {:induction false} LoadPushed(T: Table, w: Word, letters: seq<Letter>, ws: seq<Word>, bound: nat)
    requires TreeTable(T) && Bounded(T.Keys, bound) && w in T
    requires (forall u :: u in ws ==> u in T) && forall c :: c in letters ==> w + [c] in T
    ensures forall u :: u in Pushed(w, letters, ws) ==> u in T
    ensures Load(T, Pushed(w, letters, ws), bound) == |Forest(T, w, letters, bound)| + Load(T, ws, bound)
  {
    PushedNodes(T, w, letters, ws);
    if letters != [] {
      var rest, last := letters[..|letters| - 1], letters[|letters| - 1];
      assert last in letters && letters == rest + [last];
      LoadPushed(T, w, rest, ws, bound);
      ForestSnoc(T, w, rest, last, bound);
      assert Pushed(w, letters, ws)[1..] == Pushed(w, rest, ws);
    }
  }

  lemma {:induction false} ForestOfOne(T: Table, w: Word, letters: seq<Letter>, c: Letter, bound: nat)
    requires TreeTable(T) && Bounded(T.Keys, bound) && w in T
    requires c in letters && forall d :: d in letters ==> w + [d] in T
    ensures |Preorder(T, w + [c], bound)| <= |Forest(T, w, letters, bound)|
  {
    assert letters[0] in letters;
    if letters[0] != c {
      ForestOfOne(T, w, letters[1..], c, bound);
    }
  }

  /** A round takes its node off the load. */
  lemma LoadShrinks(T: Table, p: Pattern, w: Word, ws: seq<Word>, bound: nat)
    requires TreeTable(T) && Bounded(T.Keys, bound) && w in T && forall u :: u in ws ==> u in T
    ensures forall u :: u in Pushed(w, p.Chosen(T[w], |w|), ws) ==> u in T
    ensures Load(T, Pushed(w, p.Chosen(T[w], |w|), ws), bound) < Load(T, [w] + ws, bound)
    ensures Load(T, ws, bound) < Load(T, [w] + ws, bound)
  {
    ChosenLetters(T, p, w);
    assert Branches(T, w);
    LoadPushed(T, w, p.Chosen(T[w], |w|), ws, bound);
    assert ([w] + ws)[1..] == ws;
    if p.Fixes(|w|) && p.letters[|w|] in T[w] {
      var c := p.letters[|w|];
      ForestOfOne(T, w, T[w], c, bound);
      assert Forest(T, w, [c], bound) == Preorder(T, w + [c], bound) + Forest(T, w, [], bound);
    }
  }

  /** What one round yields and leaves. */
  lemma WalkRound(T: Table, K: set<Word>, p: Pattern, w: Word, ws: seq<Word>, bound: nat)
    requires TreeTable(T) && Bounded(T.Keys, bound) && w in T && forall u :: u in ws ==> u in T
    ensures p.Drops(|w|) ==> WalkStack(T, K, p, [w] + ws, bound) == WalkStack(T, K, p, ws, bound)
    ensures forall u :: u in Pushed(w, p.Chosen(T[w], |w|), ws) ==> u in T
    ensures !p.Drops(|w|) ==>
              WalkStack(T, K, p, [w] + ws, bound) ==
                (if p.LengthFits(|w|) && w in K then [w] else []) +
                WalkStack(T, K, p, Pushed(w, p.Chosen(T[w], |w|), ws), bound)
  {
    ChosenLetters(T, p, w);
    WalkPushed(T, K, p, w, p.Chosen(T[w], |w|), ws, bound);
    assert ([w] + ws)[1..] == ws;
  }
}
