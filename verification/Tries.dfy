/** Adding, removing and finding words in the linked trie. */
module Tries {
  import opened Options
  import opened Words
  import opened TrieNodes
  import opened Automata
  import opened Costs
  import opened Touched

  /** The child tables of all nodes. */
  ghost function TablesOf(nodes: map<Word, TrieNode>): map<Word, seq<Pair>>
    reads nodes.Values`next
  {
    map w | w in nodes :: nodes[w].next
  }

  /** These child tables link the nodes as a trie. */
  ghost predicate TreeIn(nodes: map<Word, TrieNode>, tables: map<Word, seq<Pair>>) {
    && PrefixClosed(nodes.Keys) && tables.Keys == nodes.Keys && (forall w :: w in tables ==> Tidy(tables[w]))
    && forall w, c {:trigger Lookup(tables[w], c)} :: w in tables ==> Lookup(tables[w], c) == Target(nodes, w + [c])
  }

  lemma TreeByTables(nodes: map<Word, TrieNode>)
    ensures Tree(nodes) <==> (forall w :: w in nodes ==> nodes[w].word == w) && TreeIn(nodes, TablesOf(nodes))
  {
    var tables := TablesOf(nodes);
    if (forall w :: w in nodes ==> nodes[w].word == w) && TreeIn(nodes, tables) {
      forall w, c {:trigger Lookup(nodes[w].next, c)} | w in nodes
        ensures Lookup(nodes[w].next, c) == Target(nodes, w + [c]) {
        assert Lookup(tables[w], c) == Target(nodes, w + [c]);
      }
      assert forall w :: w in nodes ==> Tidy(tables[w]);
    }
  }

  /** One more node, linked below its parent. */
  lemma TreeGrown(nodes: map<Word, TrieNode>, tables: map<Word, seq<Pair>>, w: Word, letter: Letter, child: TrieNode)
    requires TreeIn(nodes, tables) && w in nodes && w + [letter] !in nodes
    ensures TreeIn(nodes[w + [letter] := child],
                   tables[w := tables[w] + [Pair(letter, To(child))]][w + [letter] := []])
  {
    hide Lookup, Tidy;
    var v, pair := w + [letter], Pair(letter, To(child));
    var nodes', tables' := nodes[v := child], tables[w := tables[w] + [pair]][v := []];
    assert Lookup(tables[w], letter) == Null;
    NoLookup();
    TidyAppended(tables[w], pair);
    forall u, c {:trigger Lookup(tables'[u], c)} | u in tables'
      ensures Lookup(tables'[u], c) == Target(nodes', u + [c]) {
      SnocsDiffer(u, c, w, letter);
      if u == w {
        LookupAppended(tables[w], pair, c);
        assert Lookup(tables[w], c) == Target(nodes, w + [c]);
      } else if u == v {
        NoGrandchild(nodes.Keys, u, c);
      } else {
        assert Lookup(tables[u], c) == Target(nodes, u + [c]);
      }
    }
    assert Parent(v) == w;
  }

  lemma TidyAppended(next: seq<Pair>, pair: Pair)
    requires Tidy(next) && Lookup(next, pair.letter) == Null && pair.child.To?
    ensures Tidy(next + [pair])
  {
    LookupMisses(next, pair.letter);
  }

  /** Links a new node below `node`. */
  method Grow(a: Automaton, node: TrieNode, letter: Letter) returns (child: TrieNode)
    requires Tree(a.nodes) && node.word in a.nodes && a.nodes[node.word] == node
    requires node.word + [letter] !in a.nodes
    modifies a`nodes, node`next
    ensures fresh(child) && !child.eow && child.output == 0 && child.fail == Null && child.word == node.word + [letter]
    ensures a.nodes == old(a.nodes)[node.word + [letter] := child]
    ensures Tree(a.nodes)
  {
    hide Tree, TreeIn, Lookup;
    ghost var w, nodes, tables := node.word, a.nodes, TablesOf(a.nodes);
    TreeByTables(nodes);
    TreeLookup(nodes, w, letter);
    child := new TrieNode(false);
    child.word := w + [letter];
    node.SetNext(letter, child);
    a.nodes := a.nodes[w + [letter] := child];
    TreeGrown(nodes, tables, w, letter, child);
    assert forall u :: u in nodes && u != w ==> nodes[u] != node;
    assert TablesOf(a.nodes) == tables[w := tables[w] + [Pair(letter, To(child))]][w + [letter] := []];
    TreeByTables(a.nodes);
  }

  lemma NoLookup()
    ensures Tidy([]) && forall c :: Lookup([], c) == Null
  {
  }

  lemma SnocsDiffer(u: Word, c: Letter, w: Word, d: Letter)
    ensures u + [c] == w + [d] <==> u == w && c == d
  {
    assert Parent(u + [c]) == u && Parent(w + [d]) == w;
    assert (u + [c])[|u|] == c && (w + [d])[|w|] == d;
  }

  lemma NoGrandchild(N: set<Word>, u: Word, c: Letter)
    requires PrefixClosed(N) && u !in N
    ensures u + [c] !in N
  {
    assert Parent(u + [c]) == u;
  }

  /** `nodes` extends `base` by nodes of `made` that end no word and have no fail link. */
  ghost predicate Growth(base: map<Word, TrieNode>, nodes: map<Word, TrieNode>, made: set<TrieNode>)
    reads nodes.Values`eow, nodes.Values`fail
  {
    (forall w :: w in base ==> w in nodes && nodes[w] == base[w]) &&
    forall w :: w in nodes && w !in base ==> nodes[w] in made && !nodes[w].eow && nodes[w].fail == Null
  }

  lemma GrowthNodes(base: map<Word, TrieNode>, nodes: map<Word, TrieNode>, made: set<TrieNode>)
    requires Growth(base, nodes, made)
    ensures forall w :: w in base ==> w in nodes && nodes[w] == base[w]
  {
  }

  lemma GrowthNode(base: map<Word, TrieNode>, nodes: map<Word, TrieNode>, made: set<TrieNode>, w: Word)
    requires Growth(base, nodes, made) && w in nodes
    ensures nodes[w] in base.Values || nodes[w] in made
  {
  }

  lemma NoGrowth(nodes: map<Word, TrieNode>)
    ensures Growth(nodes, nodes, {})
  {
  }

  lemma TakeNext(word: Word, i: nat)
    requires i < |word|
    ensures word[..i + 1] == word[..i] + [word[i]]
  {
  }

  /** One letter further along a word, through a new node where there is none. */
  method Descend(a: Automaton, node: TrieNode, letter: Letter, ghost base: map<Word, TrieNode>,
                 ghost made: set<TrieNode>)
      returns (child: TrieNode, ghost more: set<TrieNode>)
    requires Tree(a.nodes) && IsNode(a.nodes, node)
    requires Growth(base, a.nodes, made)
    modifies a`nodes, node`next
    ensures Tree(a.nodes) && IsNode(a.nodes, child) && child.word == node.word + [letter]
    ensures forall w :: w in a.nodes <==> w in old(a.nodes) || w == child.word
    ensures Growth(base, a.nodes, more) && forall n :: n in more ==> n in made || fresh(n)
    ensures child.word in old(a.nodes) ==> a.nodes == old(a.nodes) && TablesOf(a.nodes) == old(TablesOf(a.nodes))
  {
    hide Tree, IsPrefix, Lookup;
    TreeLookup(a.nodes, node.word, letter);
    TreeWords(a.nodes);
    var found := node.GetNext(letter);
    if found == Null {
      child := Grow(a, node, letter);
      more := made + {child};
    } else {
      child, more := found.node, made;
    }
  }

  lemma PrefixOfNode(N: set<Word>, word: Word, i: nat)
    requires PrefixClosed(N) && i <= |word|
    ensures word in N ==> word[..i] in N
  {
    if word in N {
      PrefixesAreNodes(N, word, i);
    }
  }

  /** The nodes are those of `N0` and the prefixes of `w`. */
  ghost predicate Reached(N0: set<Word>, N: set<Word>, w: Word) {
    forall u :: u in N <==> u in N0 || IsPrefix(u, w)
  }

  lemma ReachedFirst(N: set<Word>)
    requires PrefixClosed(N)
    ensures Reached(N, N, []) && [] in N
  {
  }

  lemma ReachedNext(N0: set<Word>, N: set<Word>, N': set<Word>, w: Word, c: Letter)
    requires Reached(N0, N, w) && forall u :: u in N' <==> u in N || u == w + [c]
    ensures Reached(N0, N', w + [c])
  {
    PrefixesOfSnoc(w, c);
  }

  lemma ReachedAll(N0: set<Word>, N: set<Word>, w: Word)
    requires Reached(N0, N, w)
    ensures forall u :: u in N <==> u in N0 || IsPrefix(u, w)
  {
  }

  lemma RootOfTree(nodes: map<Word, TrieNode>)
    requires Tree(nodes)
    ensures PrefixClosed(nodes.Keys) && [] in nodes && nodes[[]].word == []
  {
  }

  /** Walks from the root along `word`, adding the nodes that are missing. */
  method GrowPath(a: Automaton, word: Word) returns (node: TrieNode, ghost made: set<TrieNode>)
    requires Tree(a.nodes) && a.root == To(a.nodes[[]])
    modifies a`nodes, a.nodes.Values`next
    ensures Tree(a.nodes) && a.root == To(a.nodes[[]])
    ensures forall w :: w in a.nodes <==> w in old(a.nodes) || IsPrefix(w, word)
    ensures node.word == word && IsNode(a.nodes, node)
    ensures node in old(a.nodes.Values) || node in made
    ensures Growth(old(a.nodes), a.nodes, made) && fresh(made)
    ensures word in old(a.nodes) ==> a.nodes == old(a.nodes) && TablesOf(a.nodes) == old(TablesOf(a.nodes))
  {
    hide Tree, IsPrefix, Growth, TablesOf, PrefixClosed, Reached;
    RootOfTree(a.nodes);
    NoGrowth(a.nodes);
    ReachedFirst(a.nodes.Keys);
    node, made := a.root.node, {};
    ghost var nodes, tables := a.nodes, TablesOf(a.nodes);
    var i := 0;
    while i < |word|
      invariant 0 <= i <= |word|
      invariant Tree(a.nodes) && [] in a.nodes && a.nodes[[]] == nodes[[]]
      invariant node.word == word[..i] && IsNode(a.nodes, node)
      invariant Reached(nodes.Keys, a.nodes.Keys, word[..i])
      invariant Growth(nodes, a.nodes, made) && forall n :: n in made ==> fresh(n)
      invariant word in nodes ==> a.nodes == nodes && TablesOf(a.nodes) == tables
    {
      TakeNext(word, i);
      PrefixOfNode(nodes.Keys, word, i + 1);
      ghost var N := a.nodes.Keys;
      GrowthNode(nodes, a.nodes, made, word[..i]);
      node, made := Descend(a, node, word[i], nodes, made);
      ReachedNext(nodes.Keys, N, a.nodes.Keys, word[..i], word[i]);
      GrowthNodes(nodes, a.nodes, made);
      i := i + 1;
    }
    assert word[..|word|] == word;
    ReachedAll(nodes.Keys, a.nodes.Keys, word);
    GrowthNode(nodes, a.nodes, made, word);
  }

  method NewRoot(a: Automaton)
    requires a.nodes == map[]
    modifies a`root, a`nodes
    ensures Tree(a.nodes) && a.nodes.Keys == {[]} && a.root == To(a.nodes[[]])
    ensures fresh(a.nodes[[]]) && !a.nodes[[]].eow && a.nodes[[]].fail == Null
  {
    var node := new TrieNode(false);
    node.word := [];
    a.root, a.nodes := To(node), map[[] := node];
  }

  /** Marks a node as the end of a word. */
  method Mark(a: Automaton, node: TrieNode) returns (newWord: bool)
    requires node.word in a.nodes && a.nodes[node.word] == node
    requires forall w :: w in a.nodes ==> a.nodes[w].word == w
    modifies a`count, a`kind, node`eow
    ensures a.kind == Trie && newWord == (node.word !in old(a.Keys())) && node.eow
    ensures !newWord ==> node.output == old(a.Keys())[node.word]
    ensures a.count == old(a.count) + if newWord then 1 else 0
    ensures a.Keys() == old(a.Keys())[node.word := node.output]
  {
    newWord := !node.eow;
    if newWord {
      node.eow := true;
      a.count := a.count + 1;
    }
    a.kind := Trie;
  }

  /** The nodes of `word`, the root among them, are there; nothing is a key that was none. */
  method SpellWord(a: Automaton, word: Word) returns (node: TrieNode)
    requires a.Shape() && a.RootIsTop()
    modifies a`root, a`nodes, a.nodes.Values`next
    ensures Tree(a.nodes) && a.root == To(a.nodes[[]]) && a.RootIsTop()
    ensures node.word == word && IsNode(a.nodes, node)
    ensures node in old(a.nodes.Values) || fresh(node)
    ensures forall w :: w in a.nodes <==> w in old(a.nodes) || IsPrefix(w, word)
    ensures SameNodes(a) && a.Keys() == old(a.Keys())
    ensures (word in old(a.nodes) ==> TablesOf(a.nodes) == old(TablesOf(a.nodes)))
  {
    hide Tree, Tidy, TrieOf, PrefixClosed;
    if a.kind == Empty {
      NewRoot(a);
    }
    ghost var made;
    TreeWords(a.nodes);
    node, made := GrowPath(a, word);
  }

  /** trie_add_word: the trie gains exactly the prefixes of `word`, and `word` as a key. */
  method TrieAddWord(a: Automaton, word: Word) returns (node: TrieNode, newWord: bool)
    requires a.Shape() && a.RootIsTop() && word != []
    modifies a`kind, a`count, a`root, a`nodes, a.nodes.Values`next, a.nodes.Values`eow
    ensures a.Shape() && a.RootIsTop() && a.kind == Trie
    ensures forall w :: w in a.nodes <==> w in old(a.nodes) || IsPrefix(w, word)
    ensures word in a.nodes && node == a.nodes[word] && node.word == word
    ensures node in old(a.nodes.Values) || fresh(node)
    ensures SameNodes(a) && (word in old(a.nodes) ==> TablesOf(a.nodes) == old(TablesOf(a.nodes)))
    ensures newWord == (word !in old(a.Keys())) && node.eow
    ensures !newWord ==> node.output == old(a.Keys())[word]
    ensures a.count == old(a.count) + if newWord then 1 else 0
    ensures a.Keys() == old(a.Keys())[word := node.output]
  {
    hide Tree, Tidy, TrieOf, PrefixClosed;
    node := SpellWord(a, word);
    TreeWords(a.nodes);
    newWord := Mark(a, node);
    GainsKey(old(a.nodes.Keys), a.nodes.Keys, old(a.Keys().Keys), a.Keys().Keys, word);
  }

  /** Old nodes keep their identity, other nodes are new and have no fail link. */
  twostate predicate SameNodes(a: Automaton)
    reads a`nodes, a.nodes.Values`fail
  {
    (forall w :: w in old(a.nodes) ==> w in a.nodes && a.nodes[w] == old(a.nodes)[w]) &&
    forall w :: w in a.nodes && w !in old(a.nodes) ==> fresh(a.nodes[w]) && a.nodes[w].fail == Null
  }

  lemma GainsKey(N0: set<Word>, N: set<Word>, K0: set<Word>, K: set<Word>, word: Word)
    requires word != [] && PrefixClosed(N) && (N0 == {} == K0 || TrieOf(N0, K0))
    requires (forall w :: w in N <==> w in N0 || IsPrefix(w, word)) && K == K0 + {word}
    ensures TrieOf(N, K)
  {
    forall w | w in N && w != [] ensures Reaches(K, w) {
      if w in N0 {
        assert Reaches(K0, w);
        var k :| k in K0 && IsPrefix(w, k);
        assert k in K;
      }
    }
  }

  // ---------------------------------------------------------------- removing

  /** The node keeps its path alive even without the last word below it. */
  predicate Multiway(node: TrieNode)
    reads node`next, node`eow
  {
    |node.next| > 1 || (|node.next| == 1 && node.eow)
  }

  lemma ChildIsNode(nodes: map<Word, TrieNode>, w: Word, i: nat)
    requires Tree(nodes) && w in nodes && i < |nodes[w].next|
    ensures w + [nodes[w].next[i].letter] in nodes
    ensures nodes[w].next[i].child == To(nodes[w + [nodes[w].next[i].letter]])
  {
    LookupFinds(nodes[w].next, i);
  }

  lemma NodeIsChild(nodes: map<Word, TrieNode>, w: Word, c: Letter)
    requires Tree(nodes) && w in nodes && w + [c] in nodes
    ensures exists i :: 0 <= i < |nodes[w].next| && nodes[w].next[i] == Pair(c, To(nodes[w + [c]]))
  {
    assert Lookup(nodes[w].next, c) == Target(nodes, w + [c]);
    LookupMisses(nodes[w].next, c);
  }

  /** On the path of `word` from `cut` on there is one way to go, and its end is a leaf. */
  ghost predicate SinglePath(nodes: map<Word, TrieNode>, word: Word, cut: nat)
    requires cut <= |word|
    reads nodes.Values`next, nodes.Values`eow
  {
    word in nodes && nodes[word].next == [] &&
    forall j :: cut <= j <= |word| && word[..j] in nodes ==> !Multiway(nodes[word[..j]])
  }

  /** Nothing but `word` hangs below such a path. */
  lemma {:induction false} BelowCut(nodes: map<Word, TrieNode>, word: Word, cut: nat, w: Word)
    requires Tree(nodes) && cut <= |word| && SinglePath(nodes, word, cut)
    requires w in nodes && IsPrefix(word[..cut], w)
    ensures IsPrefix(w, word)
    decreases |w|
  {
    if w != word[..cut] {
      var p, c := Parent(w), w[|w| - 1];
      assert w == p + [c];
      BelowCut(nodes, word, cut, p);
      assert p == word[..|p|];
      NodeIsChild(nodes, p, c);
      assert p != word;
      var d := word[|p|];
      TakeNext(word, |p|);
      PrefixesAreNodes(nodes.Keys, word, |p| + 1);
      NodeIsChild(nodes, p, d);
    }
  }

  /** A key other than `word` below `w`, if `w` keeps one when `word` goes. */
  lemma OtherKey(N: set<Word>, K: set<Word>, word: Word, w: Word, u: Word)
    requires TrieOf(N, K) && u in N && u != [] && IsPrefix(w, u) && !IsPrefix(u, word)
    ensures Reaches(K - {word}, w)
  {
    assert Reaches(K, u);
    var k :| k in K && IsPrefix(u, k);
    assert k in K - {word} && IsPrefix(w, k);
  }

  /** Taking away an inner key leaves every node alive. */
  lemma LosesInnerKey(N: set<Word>, K: set<Word>, word: Word, c: Letter)
    requires TrieOf(N, K) && word in K && word + [c] in N
    ensures TrieOf(N, K - {word})
  {
    forall w | w in N && w != [] ensures Reaches(K - {word}, w) {
      assert Reaches(K, w);
      var k :| k in K && IsPrefix(w, k);
      if k == word {
        OtherKey(N, K, word, w, word + [c]);
      } else {
        assert k in K - {word};
      }
    }
  }

  /** Taking away a leaf key together with its tail from `cut` on leaves exactly the living nodes. */
  lemma LosesTail(N: set<Word>, N': set<Word>, K: set<Word>, word: Word, cut: nat)
    requires TrieOf(N, K) && word in K && 1 <= cut <= |word|
    requires forall w :: w in N && IsPrefix(word[..cut], w) ==> IsPrefix(w, word)
    requires forall w :: w in N' <==> w in N && !IsPrefix(word[..cut], w)
    requires K - {word} <= N'
    requires cut == 1 || word[..cut - 1] in K || exists c :: c != word[cut - 1] && word[..cut - 1] + [c] in N
    ensures TrieOf(N', K - {word})
  {
    forall w | w in N' && w != [] ensures Parent(w) in N' && Reaches(K - {word}, w) {
      assert Parent(w) in N;
      assert Reaches(K, w);
      var k :| k in K && IsPrefix(w, k);
      if k != word {
        assert k in K - {word};
      } else {
        LivesAboveCut(N, K, word, cut, w);
      }
    }
    assert [] in N';
  }

  lemma LivesAboveCut(N: set<Word>, K: set<Word>, word: Word, cut: nat, w: Word)
    requires TrieOf(N, K) && word in K && 1 <= cut <= |word|
    requires cut == 1 || word[..cut - 1] in K || exists c :: c != word[cut - 1] && word[..cut - 1] + [c] in N
    requires w in N && w != [] && IsPrefix(w, word) && !IsPrefix(word[..cut], w)
    ensures Reaches(K - {word}, w)
  {
    var stem := word[..cut - 1];
    assert IsPrefix(w, stem);
    if stem in K {
      assert stem in K - {word};
    } else {
      var c :| c != word[cut - 1] && stem + [c] in N;
      assert (stem + [c])[cut - 1] != word[cut - 1];
      OtherKey(N, K, word, w, stem + [c]);
    }
  }

  lemma CutWord(cut: Word, u: Word, c: Letter)
    requires cut != []
    ensures IsPrefix(cut, u + [c]) <==> IsPrefix(cut, u) || u + [c] == cut
  {
    PrefixesOfSnoc(u, c);
  }

  /** The nodes left when everything from `cut` on is taken away. */
  function Pruned(nodes: map<Word, TrieNode>, cut: Word): map<Word, TrieNode> {
    map w | w in nodes && !IsPrefix(cut, w) :: nodes[w]
  }

  /** The link by which `child` hangs below `stem`. */
  lemma LinkTo(nodes: map<Word, TrieNode>, stem: Word, c: Letter, i: nat)
    requires Tree(nodes) && stem in nodes && stem + [c] in nodes && i < |nodes[stem].next|
    ensures nodes[stem].next[i].child == To(nodes[stem + [c]]) <==> nodes[stem].next[i].letter == c
  {
    ChildIsNode(nodes, stem, i);
    SnocsDiffer(stem, nodes[stem].next[i].letter, stem, c);
    assert nodes[stem + [c]].word == stem + [c];
  }

  /** Unlinks the subtrie of `stem` + [letter]. */
  method Unlink(a: Automaton, stem: TrieNode, letter: Letter, child: TrieNode)
    requires Tree(a.nodes) && IsNode(a.nodes, stem)
    requires IsNode(a.nodes, child) && child.word == stem.word + [letter]
    modifies a`nodes, stem`next
    ensures a.nodes == Pruned(old(a.nodes), stem.word + [letter]) && Tree(a.nodes)
  {
    ghost var nodes, w, cut := a.nodes, stem.word, stem.word + [letter];
    ghost var before := stem.next;
    NodeIsChild(nodes, w, letter);
    forall i | 0 <= i < |before| ensures before[i].child == To(child) <==> before[i].letter == letter {
      LinkTo(nodes, w, letter, i);
    }
    var found, index := stem.UnsetNextPointer(child);
    a.nodes := Pruned(a.nodes, cut);
    forall u, c | u in a.nodes ensures Lookup(a.nodes[u].next, c) == Target(a.nodes, u + [c]) {
      CutWord(cut, u, c);
      SnocsDiffer(u, c, w, letter);
      if u == w {
        LookupRemoved(before, index, c);
      }
      assert old(Lookup(nodes[u].next, c)) == Target(nodes, u + [c]);
    }
    LookupRemoved(before, index, letter);
  }

  /** Releases the chain of nodes from `node` down to the end of `word`, each once. */
  method FreeTail(node: TrieNode, word: Word, cut: nat, ghost nodes: map<Word, TrieNode>)
      returns (ghost freed: seq<TrieNode>)
    requires Tree(nodes) && word in nodes && 1 <= cut <= |word| && word[..cut] in nodes && node == nodes[word[..cut]]
    ensures |freed| == |word| - cut + 1
    ensures forall j :: cut <= j <= |word| ==> word[..j] in nodes && freed[j - cut] == nodes[word[..j]]
  {
    var current := node;
    freed := [];
    var i := cut;
    while i < |word|
      invariant cut <= i <= |word| && |freed| == i - cut
      invariant word[..i] in nodes && current == nodes[word[..i]]
      invariant forall j :: cut <= j < i ==> word[..j] in nodes && freed[j - cut] == nodes[word[..j]]
    {
      TakeNext(word, i);
      PrefixesAreNodes(nodes.Keys, word, i + 1);
      var child := current.GetNext(word[i]);
      freed := freed + [current];
      current := child.node;
      i := i + 1;
    }
    freed := freed + [current];
    assert word[..|word|] == word;
  }

  /** Walks down `word` and finds the last node that stays without it: everything behind has one way to go. */
  method FindStem(a: Automaton, word: Word) returns (node: Ptr, stem: TrieNode, at: nat)
    requires Tree(a.nodes) && a.root == To(a.nodes[[]])
    ensures node == Target(a.nodes, word)
    ensures at <= |word| && word[..at] in a.nodes && stem == a.nodes[word[..at]] && (at == 0 || Multiway(stem))
    ensures node != Null ==> forall j :: at < j <= |word| ==> word[..j] in a.nodes && !Multiway(a.nodes[word[..j]])
  {
    node := a.root;
    stem, at := node.node, 0;
    var i := 0;
    assert word[..0] == [];
    while i < |word|
      invariant 0 <= at <= i <= |word|
      invariant word[..i] in a.nodes && node == To(a.nodes[word[..i]])
      invariant word[..at] in a.nodes && stem == a.nodes[word[..at]] && (at == 0 || Multiway(stem))
      invariant forall j :: at < j <= i ==> word[..j] in a.nodes && !Multiway(a.nodes[word[..j]])
    {
      TakeNext(word, i);
      node := node.node.GetNext(word[i]);
      if node == Null {
        PrefixMissing(a.nodes.Keys, word, i + 1);
        return;
      }
      i := i + 1;
      if Multiway(node.node) {
        stem, at := node.node, i;
      }
    }
    assert word[..|word|] == word;
  }

  lemma InnerKey(nodes: map<Word, TrieNode>, N: set<Word>, K: set<Word>, word: Word)
    requires Tree(nodes) && N == nodes.Keys && TrieOf(N, K) && word in K && nodes[word].next != []
    ensures TrieOf(N, K - {word})
  {
    ChildIsNode(nodes, word, 0);
    LosesInnerKey(N, K, word, nodes[word].next[0].letter);
  }

  lemma Tail(nodes: map<Word, TrieNode>, K: set<Word>, word: Word, at: nat)
    requires Tree(nodes) && TrieOf(nodes.Keys, K) && K == KeysIn(nodes).Keys
    requires word in K && nodes[word].next == [] && at < |word| && word[..at] in nodes
    requires at == 0 || Multiway(nodes[word[..at]])
    requires forall j :: at < j <= |word| ==> word[..j] in nodes && !Multiway(nodes[word[..j]])
    ensures forall w :: w in nodes && IsPrefix(word[..at + 1], w) ==> IsPrefix(w, word)
    ensures K - {word} <= Pruned(nodes, word[..at + 1]).Keys
    ensures TrieOf(Pruned(nodes, word[..at + 1]).Keys, K - {word})
  {
    var cut := at + 1;
    var left := Pruned(nodes, word[..cut]).Keys;
    forall w | w in nodes && IsPrefix(word[..cut], w) ensures IsPrefix(w, word) {
      BelowCut(nodes, word, cut, w);
    }
    forall k | k in K - {word} ensures k in left {
      if IsPrefix(word[..cut], k) {
        KeyOnTail(nodes, word, cut, k);
      }
    }
    StemKeeps(nodes, K, word, at);
    LosesTail(nodes.Keys, left, K, word, cut);
  }

  /** No key but `word` lies on its single path. */
  lemma KeyOnTail(nodes: map<Word, TrieNode>, word: Word, cut: nat, k: Word)
    requires Tree(nodes) && cut <= |word| && word in nodes
    requires forall j :: cut <= j <= |word| ==> word[..j] in nodes && !Multiway(nodes[word[..j]])
    requires k in nodes && nodes[k].eow && IsPrefix(word[..cut], k) && IsPrefix(k, word)
    ensures k == word
  {
    if k != word {
      assert k == word[..|k|];
      TakeNext(word, |k|);
      NodeIsChild(nodes, k, word[|k|]);
    }
  }

  lemma StemKeeps(nodes: map<Word, TrieNode>, K: set<Word>, word: Word, at: nat)
    requires Tree(nodes) && K == (set w | w in nodes && nodes[w].eow)
    requires at < |word| && word[..at] in nodes && (at == 0 || Multiway(nodes[word[..at]]))
    ensures at == 0 || word[..at] in K || exists c :: c != word[at] && word[..at] + [c] in nodes
  {
    var stem := word[..at];
    if at != 0 && stem !in K {
      var i := if nodes[stem].next[0].letter == word[at] then 1 else 0;
      assert nodes[stem].next[0].letter != nodes[stem].next[1].letter;
      ChildIsNode(nodes, stem, i);
      assert nodes[stem].next[i].letter != word[at];
    }
  }

  /** The remaining nodes keep their identity; the freed nodes are exactly the others. */
  ghost predicate OnceEach(freed: seq<TrieNode>) {
    forall i, j :: 0 <= i < j < |freed| ==> freed[i] != freed[j]
  }

  ghost predicate Shrunk(before: map<Word, TrieNode>, after: map<Word, TrieNode>, freed: seq<TrieNode>) {
    (forall w :: w in after ==> w in before && after[w] == before[w]) &&
    forall w :: w in before ==> (w !in after <==> before[w] in freed)
  }

  /** trie_remove_word: gives back what was stored with `word`, null if it was no key. The trie loses `word`
      and exactly the nodes that no other key needs. */
  method TrieRemoveWord(a: Automaton, word: Word) returns (value: Output, ghost freed: seq<TrieNode>)
    requires a.Shape() && a.RootIsTop() && word != []
    modifies a`kind, a`nodes, a.nodes.Values`next, a.nodes.Values`eow
    ensures a.Shape() && a.RootIsTop()
    ensures value == if word in old(a.Keys()) then old(a.Keys())[word] else 0
    ensures word in old(a.Keys()) ==> a.kind == Trie
    ensures word !in old(a.Keys()) ==> a.kind == old(a.kind) && a.nodes == old(a.nodes) && freed == []
    ensures a.Keys() == old(a.Keys()) - {word}
    ensures a.nodes.Keys <= old(a.nodes.Keys) && Shrunk(old(a.nodes), a.nodes, freed) && OnceEach(freed)
    ensures a.nodes.Keys == old(a.nodes.Keys) ==> TablesOf(a.nodes) == old(TablesOf(a.nodes))
  {
    hide Tree, Tidy, TrieOf, Multiway, PrefixClosed, IsPrefix, Lookup, SinglePath, KeysIn, Pruned, TablesOf;
    freed := [];
    KeyIsNode(a.nodes, word);
    if a.root == Null {
      return 0, freed;
    }
    var node, stem, at := FindStem(a, word);
    if node == Null || !node.node.eow {
      return 0, freed;
    }
    value := node.node.output;
    freed := TakeKey(a, word, node.node, stem, at);
    a.kind := Trie;
    assert a.Keys().Keys == old(a.Keys().Keys) - {word};
  }

  /** Takes out a key that was found: a leaf with its tail; any other node only loses its mark. */
  method TakeKey(a: Automaton, word: Word, node: TrieNode, stem: TrieNode, at: nat)
      returns (ghost freed: seq<TrieNode>)
    requires Tree(a.nodes) && TrieOf(a.nodes.Keys, a.Keys().Keys) && word in a.Keys() && node == a.nodes[word]
    requires at <= |word| && word[..at] in a.nodes && stem == a.nodes[word[..at]] && (at == 0 || Multiway(stem))
    requires (forall j :: at < j <= |word| ==> word[..j] in a.nodes && !Multiway(a.nodes[word[..j]])) && word != []
    modifies a`nodes, stem`next, node`eow
    ensures Tree(a.nodes) && TrieOf(a.nodes.Keys, old(a.Keys().Keys) - {word})
    ensures a.Keys() == old(a.Keys()) - {word} && [] in a.nodes && a.nodes[[]] == old(a.nodes)[[]]
    ensures a.nodes.Keys <= old(a.nodes.Keys) && Shrunk(old(a.nodes), a.nodes, freed) && OnceEach(freed)
    ensures a.nodes.Keys == old(a.nodes.Keys) ==> TablesOf(a.nodes) == old(TablesOf(a.nodes))
  {
    hide Tree, Tidy, TrieOf, Multiway, PrefixClosed, IsPrefix, Lookup, SinglePath, KeysIn, Pruned, TablesOf;
    freed := [];
    TreeWords(a.nodes);
    KeyIsNode(a.nodes, word);
    if |node.next| == 0 {
      freed := RemoveTail(a, word, stem, at);
      PrunedKeys(old(a.nodes), word[..at + 1], freed);
    } else {
      Unmark(a, word, node);
    }
  }

  lemma PrunedKeys(nodes: map<Word, TrieNode>, cut: Word, freed: seq<TrieNode>)
    requires [] in nodes && cut != [] && forall w :: w in nodes ==> (w !in Pruned(nodes, cut) <==> nodes[w] in freed)
    ensures Pruned(nodes, cut).Keys <= nodes.Keys && [] in Pruned(nodes, cut) && Pruned(nodes, cut)[[]] == nodes[[]]
    ensures Shrunk(nodes, Pruned(nodes, cut), freed)
  {
  }

  /** A key with longer words below it only loses its mark. */
  method Unmark(a: Automaton, word: Word, node: TrieNode)
    requires Tree(a.nodes) && TrieOf(a.nodes.Keys, a.Keys().Keys)
    requires word in a.Keys() && node == a.nodes[word] && node.next != []
    modifies node`eow
    ensures TrieOf(a.nodes.Keys, old(a.Keys().Keys) - {word}) && a.Keys() == old(a.Keys()) - {word}
  {
    hide Tree, TrieOf;
    InnerKey(a.nodes, a.nodes.Keys, a.Keys().Keys, word);
    TreeWords(a.nodes);
    node.eow := false;
  }

  lemma StemIsShort(nodes: map<Word, TrieNode>, word: Word, at: nat)
    requires word in nodes && nodes[word].next == [] && word != []
    requires at <= |word| && word[..at] in nodes && (at == 0 || Multiway(nodes[word[..at]]))
    ensures at < |word|
  {
    assert word[..|word|] == word;
  }

  method RemoveTail(a: Automaton, word: Word, stem: TrieNode, at: nat) returns (ghost freed: seq<TrieNode>)
    requires Tree(a.nodes) && TrieOf(a.nodes.Keys, a.Keys().Keys)
    requires word in a.Keys() && a.nodes[word].next == []
    requires at <= |word| && word[..at] in a.nodes && stem == a.nodes[word[..at]] && (at == 0 || Multiway(stem))
    requires forall j :: at < j <= |word| ==> word[..j] in a.nodes && !Multiway(a.nodes[word[..j]])
    requires word != []
    modifies a`nodes, stem`next
    ensures Tree(a.nodes) && TrieOf(a.nodes.Keys, old(a.Keys().Keys) - {word})
    ensures at < |word| && a.nodes == Pruned(old(a.nodes), word[..at + 1])
    ensures a.Keys() == old(a.Keys()) - {word}
    ensures forall w :: w in old(a.nodes) ==> (w !in a.nodes <==> old(a.nodes)[w] in freed)
    ensures word !in a.nodes && OnceEach(freed)
  {
    hide Tree, Tidy, TrieOf, Multiway, SinglePath, Lookup, KeysIn, Pruned;
    ghost var nodes := a.nodes;
    KeyIsNode(nodes, word);
    StemIsShort(nodes, word, at);
    TakeNext(word, at);
    TreeWords(nodes);
    TreeLookup(nodes, word[..at], word[at]);
    Tail(nodes, a.Keys().Keys, word, at);
    var child := stem.GetNext(word[at]);
    freed := FreeTail(child.node, word, at + 1, nodes);
    Unlink(a, stem, word[at], child.node);
    FreedAreDead(nodes, word, at + 1, freed);
    KeysPruned(nodes, word, at + 1);
  }

  lemma KeyIsNode(nodes: map<Word, TrieNode>, word: Word)
    ensures word in KeysIn(nodes) <==> word in nodes && nodes[word].eow
    ensures word in KeysIn(nodes) ==> KeysIn(nodes)[word] == nodes[word].output
  {
  }

  lemma KeysPruned(nodes: map<Word, TrieNode>, word: Word, cut: nat)
    requires word in nodes && nodes[word].eow && cut <= |word|
    requires KeysIn(nodes).Keys - {word} <= Pruned(nodes, word[..cut]).Keys
    ensures KeysIn(Pruned(nodes, word[..cut])) == KeysIn(nodes) - {word} && word !in Pruned(nodes, word[..cut])
  {
  }

  lemma FreedAreDead(nodes: map<Word, TrieNode>, word: Word, cut: nat, freed: seq<TrieNode>)
    requires 1 <= cut <= |word| && |freed| == |word| - cut + 1
    requires forall w :: w in nodes ==> nodes[w].word == w
    requires forall j :: cut <= j <= |word| ==> word[..j] in nodes && freed[j - cut] == nodes[word[..j]]
    requires forall w :: w in nodes && IsPrefix(word[..cut], w) ==> IsPrefix(w, word)
    ensures forall w :: w in nodes ==> (w !in Pruned(nodes, word[..cut]) <==> nodes[w] in freed)
    ensures OnceEach(freed)
  {
    forall i, j | 0 <= i < j < |freed| ensures freed[i] != freed[j] {
      assert freed[i + cut - cut].word == word[..i + cut] && freed[j + cut - cut].word == word[..j + cut];
    }
    forall w | w in nodes ensures IsPrefix(word[..cut], w) <==> nodes[w] in freed {
      if IsPrefix(word[..cut], w) {
        assert w == word[..|w|];
        assert freed[|w| - cut] == nodes[w];
      }
      if nodes[w] in freed {
        var i :| 0 <= i < |freed| && freed[i] == nodes[w];
        assert freed[i + cut - cut] == nodes[word[..i + cut]];
      }
    }
  }

  // ---------------------------------------------------------------- finding

  /** trie_find: the node that spells `word`, if there is one. */
  method TrieFind(root: Ptr, word: Word, ghost nodes: map<Word, TrieNode>) returns (node: Ptr)
    requires if nodes == map[] then root == Null else Tree(nodes) && root == To(nodes[[]])
    ensures node == Target(nodes, word)
  {
    node := root;
    if node != Null {
      var i := 0;
      while i < |word|
        invariant 0 <= i <= |word|
        invariant word[..i] in nodes && node == To(nodes[word[..i]])
      {
        TakeNext(word, i);
        node := node.node.GetNext(word[i]);
        if node == Null {
          PrefixMissing(nodes.Keys, word, i + 1);
          return;
        }
        i := i + 1;
      }
      assert word[..|word|] == word;
    }
  }

  lemma PrefixMissing(N: set<Word>, word: Word, i: nat)
    requires PrefixClosed(N) && i <= |word| && word[..i] !in N
    ensures forall k :: i <= k <= |word| ==> word[..k] !in N
    ensures word !in N
  {
    forall k | i <= k <= |word| ensures word[..k] !in N {
      ShorterPrefix(N, word, i, k);
    }
    assert word[..|word|] == word;
  }

  /** trie_longest: the length of the longest prefix of `word` that is spelled in the trie, for a word of letters in an
      automaton without nodes nothing, because the null root is followed. */
  method TrieLongest(root: Ptr, word: Word, ghost nodes: map<Word, TrieNode>) returns (longest: Option<int>)
    requires if nodes == map[] then root == Null else Tree(nodes) && root == To(nodes[[]])
    ensures longest == None <==> nodes == map[] && word != []
    ensures longest.Some? ==> 0 <= longest.value <= |word| && (nodes != map[] ==> [] in nodes)
    ensures longest.Some? ==> forall k :: 0 < k <= |word| ==> (word[..k] in nodes <==> k <= longest.value)
  {
    if root == Null {
      longest := if word == [] then Some(0) else None;
    } else {
      var len := LongestFrom(root.node, word, nodes);
      longest := Some(len);
    }
  }

  method LongestFrom(root: TrieNode, word: Word, ghost nodes: map<Word, TrieNode>) returns (len: int)
    requires Tree(nodes) && root == nodes[[]]
    ensures 0 <= len <= |word| && forall k :: 0 <= k <= |word| ==> (word[..k] in nodes <==> k <= len)
  {
    var node := To(root);
    len := 0;
    var i := 0;
    while i < |word|
      invariant 0 <= i <= |word| && len == i
      invariant word[..i] in nodes && node == To(nodes[word[..i]])
    {
      TakeNext(word, i);
      node := node.node.GetNext(word[i]);
      if node == Null {
        PrefixMissing(nodes.Keys, word, i + 1);
        break;
      }
      len := len + 1;
      i := i + 1;
    }
    forall k | 0 <= k <= len ensures word[..k] in nodes {
      ShorterPrefix(nodes.Keys, word, k, len);
    }
  }

  // ---------------------------------------------------------------- the transition function

  /** The nodes `rest` are some of `nodes`, and their fail links are those that all of these had. */
  ghost predicate LinkedWithin(nodes: map<Word, TrieNode>, rest: map<Word, TrieNode>)
    reads rest.Values`fail
  {
    && [] in rest && rest[[]].fail == Null
    && (forall w :: w in rest ==> w in nodes && rest[w] == nodes[w])
    && forall w :: w in rest && w != [] ==> rest[w].fail == To(nodes[Fail(nodes.Keys, w)])
  }

  lemma AllLinked(nodes: map<Word, TrieNode>, s: Word, c: Letter)
    requires PrefixClosed(nodes.Keys) && Linked(nodes) && s in nodes
    ensures LinkedWithin(nodes, nodes)
    ensures Transit(nodes.Keys, nodes.Keys, s, c) == Some(LongestSuffix(nodes.Keys, s + [c]))
  {
    TransitAmongAll(nodes.Keys, s, c);
    TransitIsLongest(nodes.Keys, nodes.Keys, s, c);
  }

  lemma TransitLookups(nodes: map<Word, TrieNode>, s: Word, c: Letter)
    requires PrefixClosed(nodes.Keys) && s in nodes
    ensures var n := |LongestSuffix(nodes.Keys, s + [c])|;
            Lookups(nodes.Keys, s, c) == |(set u | u in nodes && IsSuffix(u, s) && |u| + 1 >= n)|
  {
    LookupsAre(nodes.Keys, s, c);
    var n := |LongestSuffix(nodes.Keys, s + [c])|;
    assert (set u | u in nodes && IsSuffix(u, s) && |u| + 1 >= n) ==
           set u | u in nodes.Keys && IsSuffix(u, s) && |u| + 1 >= |LongestSuffix(nodes.Keys, s + [c])|;
  }

  /** ahocorasick_next: looks into the node and along its fail links until one reads the letter, which leads to the
      longest suffix. When some nodes were freed and the links are old, it still does, if no freed node is met on the
      way. */
  method AhocorasickNext(node: TrieNode, root: TrieNode, letter: Letter, ghost nodes: map<Word, TrieNode>,
                         ghost rest: map<Word, TrieNode>) returns (next: TrieNode, ghost lookups: nat)
    requires Tree(rest) && LinkedWithin(nodes, rest) && IsNode(rest, node) && root == rest[[]]
    requires Transit(nodes.Keys, rest.Keys, node.word, letter).Some?
    ensures IsNode(rest, next) && Some(next.word) == Transit(nodes.Keys, rest.Keys, node.word, letter)
    ensures next.word == LongestSuffix(rest.Keys, node.word + [letter])
    ensures rest.Keys == nodes.Keys ==> lookups == Lookups(nodes.Keys, node.word, letter)
    ensures rest.Keys == nodes.Keys ==>
              lookups == |(set u | u in nodes && IsSuffix(u, node.word) && |u| + 1 >= |next.word|)|
  {
    hide LongestSuffix;
    ghost var N, N' := nodes.Keys, rest.Keys;
    TransitIsLongest(N, N', node.word, letter);
    if N' == N {
      TransitLookups(nodes, node.word, letter);
    }
    var state := To(node);
    lookups := 0;
    while state != Null
      invariant state == Null || (state.To? && IsNode(rest, state.node))
      invariant Transit(N, N', node.word, letter)
             == if state == Null then Some([]) else Transit(N, N', state.node.word, letter)
      invariant N' == N ==> Lookups(N, node.word, letter) ==
                              lookups + if state == Null then 0 else Lookups(N, state.node.word, letter)
      decreases if state == Null then 0 else |state.node.word| + 1
    {
      ghost var w := state.node.word;
      TreeLookup(rest, w, letter);
      var child := state.node.GetNext(letter);
      lookups := lookups + 1;
      if child != Null {
        return child.node, lookups;
      }
      state := state.node.fail;
    }
    next := root;
  }
}
