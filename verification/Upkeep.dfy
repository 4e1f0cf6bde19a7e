/** clear and get_stats: the operations that walk the whole trie. */
module Upkeep {
  import opened Words
  import opened TrieNodes
  import opened Automata
  import opened Traversal
  import opened Dictionary

  // ---------------------------------------------------------------- clear

  /** The keys among the words not visited yet. */
  ghost function Left(keys: map<Word, Output>, ws: seq<Word>, i: nat): map<Word, Output>
    requires i <= |ws|
  {
    map w | w in keys && w in ws[i..] :: keys[w]
  }

  lemma LeftNext(keys: map<Word, Output>, ws: seq<Word>, i: nat)
    requires i < |ws| && Distinct(ws)
    ensures Left(keys, ws, i + 1) == Left(keys, ws, i) - {ws[i]}
    ensures ws[i] in Left(keys, ws, i) <==> ws[i] in keys
  {
    assert ws[i..] == [ws[i]] + ws[i + 1..];
  }

  lemma HoldsNothing(held: multiset<Output>)
    requires HoldsValues(held, map[])
    ensures held == multiset{}
  {
    forall v ensures held[v] == 0 {
      assert Storing(map[], v) == {};
      assert held[v] == |Storing(map[], v)|;
    }
  }

  /** trie_traverse from the root: every node once. */
  method VisitTrie(a: Automaton, ghost bound: nat)
      returns (visited: seq<TrieNode>, depths: seq<int>, ghost ws: seq<Word>)
    requires a.Shape() && a.kind != Empty && Bounded(a.nodes.Keys, bound)
    ensures Tree(a.nodes) && ws == Visit(a.nodes, [], bound)
    ensures Spell(a.nodes, visited, ws) && Deep(depths, ws, 0, 0)
    ensures Distinct(ws) && forall w :: w in ws <==> w in a.nodes
    ensures Distinct(visited) && forall n :: n in visited <==> n in a.nodes.Values
  {
    hide Bounded, TrieOf, Distinct;
    TreeWords(a.nodes);
    visited, depths := Traverse(a.root.node, 0, a.nodes, bound);
    ws := Visit(a.nodes, [], bound);
    VisitsAll(a.nodes, visited, bound);
  }

  /** Gives back the reference of one key, if the node ends one. */
  method Release(a: Automaton, node: TrieNode, ghost keys: map<Word, Output>, ghost w: Word)
    requires HoldsValues(a.held, keys)
    requires (node.eow <==> w in keys) && (w in keys ==> node.output == keys[w] && keys[w] != 0)
    modifies a`held
    ensures HoldsValues(a.held, keys - {w})
  {
    if node.eow && node.output != 0 {
      HoldsWithout(a.held, keys, w);
      a.held := a.held - multiset{node.output};
    } else {
      assert keys - {w} == keys;
    }
  }

  /** clear_aux: gives back the reference of every key. */
  method ReleaseAll(a: Automaton, visited: seq<TrieNode>, ghost ws: seq<Word>)
    requires Spell(a.nodes, visited, ws) && Distinct(ws) && forall w :: w in ws <==> w in a.nodes
    requires Fitting(a.store, a.Keys(), a.held, a.lost)
    modifies a`held
    ensures a.held == multiset{}
  {
    if a.store != Any {
      return;
    }
    hide HoldsValues;
    ghost var keys := a.Keys();
    var i := 0;
    assert Left(keys, ws, 0) == keys;
    while i < |visited|
      invariant 0 <= i <= |visited|
      invariant HoldsValues(a.held, Left(keys, ws, i))
    {
      LeftNext(keys, ws, i);
      Release(a, visited[i], Left(keys, ws, i), ws[i]);
      i := i + 1;
    }
    assert Left(keys, ws, |ws|) == map[];
    HoldsNothing(a.held);
  }

  /** clear: no key, no node and no reference remains; every node was visited once. */
  method Clear(a: Automaton) returns (ghost freed: seq<TrieNode>)
    requires Valid(a)
    modifies a`kind, a`count, a`root, a`nodes, a`held, a`version, a`unseen, a`longestWord, a`lost
    ensures Valid(a) && a.Keys() == map[] && a.kind == Empty && a.nodes == map[]
    ensures a.held == multiset{} && a.lost == 0 && a.version == old(a.version) + 1
    ensures Distinct(freed) && forall n :: n in freed <==> n in old(a.nodes.Values)
  {
    hide Tree, TrieOf, Bounded, Distinct, StatsFit, Spell, Linked, Fitting, Automaton.Keys;
    freed := [];
    if a.root != Null {
      var visited, depths;
      ghost var ws;
      visited, depths, ws := VisitTrie(a, a.longestWord);
      ReleaseAll(a, visited, ws);
      freed := visited;
    } else {
      NoKeysNothingHeld(a);
    }
    Reset(a);
  }

  method Reset(a: Automaton)
    requires a.held == multiset{} && a.stats.version <= a.version
    modifies a`kind, a`count, a`root, a`nodes, a`version, a`unseen, a`longestWord, a`lost
    ensures Valid(a) && a.Keys() == map[] && a.kind == Empty && a.nodes == map[] && a.lost == 0
    ensures a.version == old(a.version) + 1
  {
    a.count, a.longestWord := 0, 0;
    a.kind, a.root := Empty, Null;
    a.version := a.version + 1;
    a.nodes, a.lost, a.unseen := map[], 0, false;
    assert forall v :: Storing(map[], v) == {};
  }

  lemma NoKeysNothingHeld(a: Automaton)
    requires Valid(a) && a.root == Null
    ensures a.nodes == map[] && a.held == multiset{} && Distinct<TrieNode>([])
  {
    if a.store == Any {
      HoldsNothing(a.held);
    }
  }

  // ---------------------------------------------------------------- get_stats

  /** The numbers that get_stats_aux adds up over the visited nodes `ws`. */
  ghost predicate Tallied(s: Stats, K: set<Word>, T: Table, ws: seq<Word>)
    requires forall w :: w in ws ==> w in T
  {
    s.nodesCount == |ws| && s.wordsCount == |set w | w in ws && w in K| && s.linksCount == LinkSum(T, ws) &&
    (forall w :: w in ws ==> |w| <= s.longestWord) &&
    (s.longestWord == 0 || exists w :: w in ws && |w| == s.longestWord)
  }

  ghost function LinkSum(T: Table, ws: seq<Word>): nat
    requires forall w :: w in ws ==> w in T
  {
    if ws == [] then 0 else LinkSum(T, ws[..|ws| - 1]) + |T[ws[|ws| - 1]]|
  }

  lemma {:induction false} LinkSumConcat(T: Table, f: seq<Word>, g: seq<Word>)
    requires forall w :: w in f || w in g ==> w in T
    ensures LinkSum(T, f + g) == LinkSum(T, f) + LinkSum(T, g)
  {
    if g == [] {
      assert f + g == f;
    } else {
      var h := g[..|g| - 1];
      assert (f + g)[..|f + g| - 1] == f + h;
      LinkSumConcat(T, f, h);
    }
  }

  /** In a tree visited from `w`, every node but `w` is somebody's child. */
  lemma {:induction false} LinksOfPreorder(T: Table, w: Word, bound: nat)
    requires TreeTable(T) && Bounded(T.Keys, bound) && w in T
    ensures forall u :: u in Preorder(T, w, bound) ==> u in T
    ensures LinkSum(T, Preorder(T, w, bound)) == |Preorder(T, w, bound)| - 1
    decreases bound - |w|, |T[w]| + 1
  {
    PreorderVisits(T, w, bound);
    assert Branches(T, w);
    LinksOfForest(T, w, T[w], bound);
    LinkSumConcat(T, [w], Forest(T, w, T[w], bound));
    assert [w][..0] == [];
  }

  lemma {:induction false} LinksOfForest(T: Table, w: Word, letters: seq<Letter>, bound: nat)
    requires TreeTable(T) && Bounded(T.Keys, bound) && w in T
    requires Distinct(letters) && forall c :: c in letters ==> w + [c] in T
    ensures forall u :: u in Forest(T, w, letters, bound) ==> u in T
    ensures LinkSum(T, Forest(T, w, letters, bound)) == |Forest(T, w, letters, bound)| - |letters|
    decreases bound - |w|, |letters|
  {
    ForestVisits(T, w, letters, bound);
    if letters != [] {
      var c := letters[0];
      assert c in letters;
      LinksOfPreorder(T, w + [c], bound);
      LinksOfForest(T, w, letters[1..], bound);
      LinkSumConcat(T, Preorder(T, w + [c], bound), Forest(T, w, letters[1..], bound));
    }
  }

  lemma TalliedNext(s: Stats, K: set<Word>, T: Table, f: seq<Word>, w: Word, eow: bool, total: int)
    requires w in T && forall u :: u in f ==> u in T
    requires Distinct(f + [w]) && Tallied(s, K, T, f) && (eow <==> w in K)
    ensures Tallied(Stats(s.version, s.nodesCount + 1, s.wordsCount + (if eow then 1 else 0),
                          if |w| > s.longestWord then |w| else s.longestWord, s.linksCount + |T[w]|, total),
                    K, T, f + [w])
  {
    KeysNext(K, f, w);
    assert (f + [w])[..|f|] == f;
  }

  lemma KeysNext(K: set<Word>, f: seq<Word>, w: Word)
    requires Distinct(f + [w])
    ensures |set u | u in f + [w] && u in K| == |set u | u in f && u in K| + if w in K then 1 else 0
  {
    forall i | 0 <= i < |f| ensures f[i] != w {
      assert (f + [w])[i] == f[i] && (f + [w])[|f|] == w;
    }
    assert (set u | u in f + [w] && u in K) == (set u | u in f && u in K) + if w in K then {w} else {};
  }

  lemma {:induction false} DistinctCount(ws: seq<Word>, N: set<Word>)
    requires Distinct(ws) && forall w :: w in ws <==> w in N
    ensures |ws| == |N|
  {
    if ws != [] {
      var w, rest := ws[0], ws[1..];
      assert ws == [w] + rest;
      forall i | 0 <= i < |rest| ensures rest[i] != w {
        assert ws[i + 1] == rest[i] && ws[0] == w;
      }
      DistinctCount(rest, N - {w});
    }
  }

  /** get_stats_aux over all nodes. */
  method Tally(a: Automaton, visited: seq<TrieNode>, depths: seq<int>, ghost ws: seq<Word>,
               sizeofNode: int, sizeofPointer: int) returns (s: Stats)
    requires Tree(a.nodes) && Spell(a.nodes, visited, ws) && Deep(depths, ws, 0, 0) && Distinct(ws)
    ensures forall w :: w in ws ==> w in TableOf(a.nodes)
    ensures Tallied(s, a.Keys().Keys, TableOf(a.nodes), ws)
    ensures s.totalSize == s.nodesCount * sizeofNode + s.linksCount * sizeofPointer
  {
    hide Tree, LinkSum, Tallied;
    ghost var K, T := a.Keys().Keys, TableOf(a.nodes);
    s := Stats(0, 0, 0, 0, 0, 0);
    NothingTallied(s, K, T);
    forall w | w in ws ensures w in T {
      var j :| 0 <= j < |ws| && ws[j] == w;
    }
    var i := 0;
    while i < |visited|
      invariant 0 <= i <= |visited|
      invariant Tallied(s, K, T, ws[..i])
      invariant s.totalSize == s.nodesCount * sizeofNode + s.linksCount * sizeofPointer
    {
      var node := visited[i];
      assert ws[..i + 1] == ws[..i] + [ws[i]];
      DistinctPart(ws, i + 1);
      var total := s.totalSize + sizeofNode + |node.next| * sizeofPointer;
      TalliedNext(s, K, T, ws[..i], ws[i], node.eow, total);
      SizeAdds(s, |node.next|, sizeofNode, sizeofPointer);
      s := Stats(s.version, s.nodesCount + 1, s.wordsCount + (if node.eow then 1 else 0),
                 if depths[i] > s.longestWord then depths[i] else s.longestWord,
                 s.linksCount + |node.next|, total);
      i := i + 1;
    }
    assert ws[..|ws|] == ws;
  }

  lemma SizeAdds(s: Stats, n: int, sizeofNode: int, sizeofPointer: int)
    requires s.totalSize == s.nodesCount * sizeofNode + s.linksCount * sizeofPointer
    ensures s.totalSize + sizeofNode + n * sizeofPointer
         == (s.nodesCount + 1) * sizeofNode + (s.linksCount + n) * sizeofPointer
  {
  }

  lemma NothingTallied(s: Stats, K: set<Word>, T: Table)
    requires s == Stats(0, 0, 0, 0, 0, 0)
    ensures Tallied(s, K, T, [])
  {
  }

  lemma DistinctPart(ws: seq<Word>, i: nat)
    requires Distinct(ws) && i <= |ws|
    ensures Distinct(ws[..i])
  {
  }

  lemma TalliedFits(a: Automaton, s: Stats, ws: seq<Word>, bound: nat)
    requires a.Shape() && a.kind != Empty && Bounded(a.nodes.Keys, bound) && ws == Visit(a.nodes, [], bound)
    requires Distinct(ws) && (forall w :: w in ws <==> w in a.nodes)
    requires Tallied(s, a.Keys().Keys, TableOf(a.nodes), ws)
    ensures StatsFit(s, a.nodes.Keys, a.Keys().Keys)
  {
    hide TrieOf, Preorder, LinkSum, Tree, Bounded, PrefixClosed, TreeTable;
    var N, K := a.nodes.Keys, a.Keys().Keys;
    DistinctCount(ws, N);
    KeysVisited(a, ws);
    TableIsTree(a.nodes);
    TreeWords(a.nodes);
    RootVisited(a.nodes.Keys);
    LinksOfPreorder(TableOf(a.nodes), [], bound);
    assert [] in ws;
  }

  lemma RootVisited(N: set<Word>)
    requires PrefixClosed(N)
    ensures [] in N
  {
  }

  lemma KeysVisited(a: Automaton, ws: seq<Word>)
    requires forall w :: w in ws <==> w in a.nodes
    ensures (set w | w in ws && w in a.Keys().Keys) == a.Keys().Keys
  {
  }

  /** get_stats: a fresh traversal whenever the version changed. The answer fits the automaton exactly unless a
      word went unnoticed after the statistics of this version were taken. */
  method GetStats(a: Automaton, sizeofNode: int, sizeofPointer: int) returns (s: Stats)
    requires Valid(a)
    modifies a`stats, a`unseen
    ensures Valid(a) && s == a.stats && s.version == a.version
    ensures StatsFit(s, a.nodes.Keys, a.Keys().Keys) <==> !(old(a.stats).version == a.version && old(a.unseen))
    ensures a.lost == 0 ==>
              && s.nodesCount == |a.nodes| && s.wordsCount == |a.Keys()|
              && s.linksCount == (if |a.nodes| == 0 then 0 else |a.nodes| - 1)
              && (forall w :: w in a.nodes ==> |w| <= s.longestWord)
              && if |a.nodes| == 0 then s.longestWord == 0 else exists w :: w in a.nodes && |w| == s.longestWord
    ensures old(a.stats).version == a.version ==> s == old(a.stats)
    ensures old(a.stats).version != a.version ==>
              s.totalSize == s.nodesCount * sizeofNode + s.linksCount * sizeofPointer
  {
    hide Automaton.Shape, Tree, Linked, Bounded, Fitting, Tallied;
    if a.stats.version != a.version {
      a.stats := FreshStats(a, sizeofNode, sizeofPointer);
      a.unseen := false;
    }
    s := a.stats;
  }

  method FreshStats(a: Automaton, sizeofNode: int, sizeofPointer: int) returns (s: Stats)
    requires a.Shape() && a.longestWord >= 0 && Bounded(a.nodes.Keys, a.longestWord)
    ensures s.version == a.version && StatsFit(s, a.nodes.Keys, a.Keys().Keys)
    ensures s.totalSize == s.nodesCount * sizeofNode + s.linksCount * sizeofPointer
  {
    if a.kind == Empty {
      return Stats(a.version, 0, 0, 0, 0, 0);
    }
    hide Automaton.Shape, Automaton.Keys, Tree, Bounded, Tallied, StatsFit, Spell, Deep, Visit, TableOf, Distinct;
    var visited, depths;
    ghost var ws;
    visited, depths, ws := VisitTrie(a, a.longestWord);
    s := Tally(a, visited, depths, ws, sizeofNode, sizeofPointer);
    TalliedFits(a, s, ws, a.longestWord);
    FitsAnyVersion(s, a);
    s := s.(version := a.version);
  }

  lemma FitsAnyVersion(s: Stats, a: Automaton)
    ensures StatsFit(s, a.nodes.Keys, a.Keys().Keys) ==>
              StatsFit(s.(version := a.version), a.nodes.Keys, a.Keys().Keys)
  {
  }
}
