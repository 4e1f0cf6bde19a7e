/** What becomes of the iterators when a removal frees nodes without changing the version: when their invariant still
    holds, and when the steps to come look into remaining nodes only. */
module Freed {
  import opened Options
  import opened Words
  import opened Matches
  import opened Longest
  import opened Touched
  import opened TrieNodes
  import opened Automata
  import opened Tries
  import opened Traversal
  import opened Patterns
  import opened Dictionary
  import opened Dicts
  import opened Runs
  import opened Interleavings

  /** The state after reading `t` is among the remaining nodes. */
  ghost predicate StateRemains(N: set<Word>, N': set<Word>, t: Word)
    requires [] in N
  {
    LongestSuffix(N, t) in N'
  }

  /** Whatever was read, its state remains, exactly if no node was freed. */
  lemma AllStatesRemain(N: set<Word>, N': set<Word>)
    requires [] in N' && N' <= N
    ensures (forall t :: StateRemains(N, N', t)) <==> N' == N
  {
    if forall t :: StateRemains(N, N', t) {
      forall w | w in N ensures w in N' {
        assert StateRemains(N, N', w);
        NodeIsItsSuffix(N, w);
      }
      assert N' == N;
    }
  }

  /** The nodes `rest` remain of `nodes`, which were linked; the remaining ones keep their fail links. */
  ghost predicate Remain(nodes: map<Word, TrieNode>, rest: map<Word, TrieNode>)
    reads rest.Values`fail
  {
    Injective(nodes) && LinkedWithin(nodes, rest)
  }

  lemma LinkedExactly(nodes: map<Word, TrieNode>, rest: map<Word, TrieNode>)
    requires Remain(nodes, rest)
    ensures Linked(rest) <==> FailsRemain(nodes.Keys, rest.Keys)
  {
    var N, N' := nodes.Keys, rest.Keys;
    forall w | w in rest && w != []
      ensures rest[w].fail == To(rest[Fail(N', w)]) <==> Fail(N, w) in N' {
      SuffixKept(N, N', w[1..]);
      assert rest[Fail(N', w)] == nodes[Fail(N', w)];
      if nodes[Fail(N, w)] == nodes[Fail(N', w)] {
        assert Fail(N, w) == Fail(N', w);
      }
    }
  }

  // ---------------------------------------------------------------- when the invariants hold

  /** After nodes were freed under its version, the invariant of a search iterator holds exactly if the nodes it holds
      remain and no fail link of a remaining node leads to a freed one. */
  lemma SearchReadyExactly(a: Automaton, it: SearchIter, nodes: map<Word, TrieNode>)
    requires Valid(a) && a.kind != Empty && it.automaton == a && Remain(nodes, a.nodes) && it.Placed(nodes)
    ensures it.Ready() <==>
              && LongestSuffix(nodes.Keys, it.history) in a.nodes && (it.output != Null ==> it.outputWord in a.nodes)
              && FailsRemain(nodes.Keys, a.nodes.Keys)
  {
    hide Valid, Linked, FailsRemain;
    FinderReady(a, it);
    LinkedExactly(nodes, a.nodes);
    SuffixKept(nodes.Keys, a.nodes.Keys, it.history);
  }

  /** The same for a longest-match iterator between two steps. */
  lemma LongReadyExactly(a: Automaton, it: LongIter, nodes: map<Word, TrieNode>)
    requires Valid(a) && a.kind != Empty && it.automaton == a && Remain(nodes, a.nodes) && it.Placed(nodes)
    requires it.Resting()
    ensures it.Ready() <==> it.stateWord in a.nodes && FailsRemain(nodes.Keys, a.nodes.Keys)
  {
    hide Valid, Linked, FailsRemain;
    ScannerReady(a, it);
    LinkedExactly(nodes, a.nodes);
  }

  /** That of an enumerator, which follows no fail links, holds exactly if the nodes on its stack remain. */
  lemma ItemsReadyExactly(a: Automaton, it: ItemsIter, nodes: map<Word, TrieNode>)
    requires Valid(a) && a.kind != Empty && it.automaton == a && it.Placed(nodes) && [] in a.nodes && Injective(nodes)
    requires forall w :: w in a.nodes ==> w in nodes && a.nodes[w] == nodes[w]
    ensures it.Ready() <==> forall w :: w in it.words ==> w in a.nodes
  {
    hide Valid;
    ListerReady(a, it);
    if forall w :: w in it.words ==> w in a.nodes {
      forall i | 0 <= i < |it.words| ensures Target(a.nodes, it.words[i]) == Target(nodes, it.words[i]) {
        assert it.words[i] in it.words;
      }
    }
  }

  // ---------------------------------------------------------------- what a search iterator touches

  /** The letters that the iterator has still to read of its slice. */
  ghost function ToRead(it: SearchIter): Word
    requires -1 <= it.index && it.end <= |it.input|
    reads it
  {
    Letters(Feed(it.Skip(), it.input, it.index + 1, it.end, it.shift))
  }

  /** The steps that give the pending outputs and read `t` look into nodes of N' only, where the links are those of
      N. */
  ghost predicate Harmless(it: SearchIter, N: set<Word>, N': set<Word>, t: Word)
    requires [] in N
    reads it
  {
    (it.output != Null ==> ChainStays(N, N', it.outputWord)) && ReadsOnly(N, N', LongestSuffix(N, it.history), t)
  }

  /** Whatever text follows. */
  ghost predicate AlwaysHarmless(it: SearchIter, N: set<Word>, N': set<Word>)
    requires [] in N
    reads it
  {
    forall t :: Clean(it.Skip(), t) ==> Harmless(it, N, N', t)
  }

  lemma StateIsClean(it: SearchIter, nodes: map<Word, TrieNode>)
    requires it.Placed(nodes)
    ensures Clean(it.Skip(), LongestSuffix(nodes.Keys, it.history))
  {
    var s, h := LongestSuffix(nodes.Keys, it.history), it.history;
    LongestSuffixIsSuffix(nodes.Keys, h);
    assert forall c :: c in h[|h| - |s|..] ==> c in h;
  }

  /** Whatever text follows, the steps of a search iterator look into remaining nodes only, exactly if the node it
      stands on remains, all nodes along the fail links from its output do, and no fail link of a remaining node
      without skipped letters leads to a freed one. */
  lemma HarmlessExactly(it: SearchIter, nodes: map<Word, TrieNode>, N': set<Word>)
    requires it.Placed(nodes) && PrefixClosed(N') && N' <= nodes.Keys
    ensures [] in nodes
    ensures AlwaysHarmless(it, nodes.Keys, N') <==>
              && LongestSuffix(nodes.Keys, it.history) in N'
              && (it.output != Null ==> ChainStays(nodes.Keys, N', it.outputWord))
              && CleanFailsRemain(it.Skip(), nodes.Keys, N')
  {
    hide LongestSuffix, ReadsOnly, ChainStays, CleanFailsRemain;
    StateIsClean(it, nodes);
    ReadsOnlyExactly(it.Skip(), nodes.Keys, N', LongestSuffix(nodes.Keys, it.history));
    assert Clean(it.Skip(), []);
    if AlwaysHarmless(it, nodes.Keys, N') {
      assert Harmless(it, nodes.Keys, N', []);
      forall t | Clean(it.Skip(), t) ensures ReadsOnly(nodes.Keys, N', LongestSuffix(nodes.Keys, it.history), t) {
        assert Harmless(it, nodes.Keys, N', t);
      }
    }
  }

  /** An iterator that skips nothing is harmless, whatever text follows, exactly if its invariant holds. */
  lemma HarmlessIsReady(a: Automaton, it: SearchIter, nodes: map<Word, TrieNode>)
    requires Valid(a) && a.kind != Empty && it.automaton == a && Remain(nodes, a.nodes) && it.Placed(nodes)
    requires !it.ignoreWhiteSpace
    ensures AlwaysHarmless(it, nodes.Keys, a.nodes.Keys) <==> it.Ready()
  {
    hide Valid, SearchIter.Ready, AlwaysHarmless, TrieOf;
    var N, N' := nodes.Keys, a.nodes.Keys;
    KeysHaveTrie(a);
    TrieIsClosed(N', a.Keys().Keys);
    HarmlessExactly(it, nodes, N');
    SearchReadyExactly(a, it, nodes);
    AllClean(it.Skip(), N, N');
    if FailsRemain(N, N') && it.output != Null && it.outputWord in N' {
      ChainSafe(it.Skip(), N, N', it.outputWord);
    }
  }

  lemma TrieIsClosed(N: set<Word>, K: set<Word>)
    requires TrieOf(N, K)
    ensures PrefixClosed(N) && [] !in K && K <= N
  {
  }

  /** The hits that the steps to come meet along the old links. */
  ghost function Met(it: SearchIter, N: set<Word>, N': set<Word>, K: set<Word>): seq<Hit>
    requires [] in N && -1 <= it.index && it.end <= |it.input| && Harmless(it, N, N', ToRead(it))
    reads it
  {
    At(it.index + it.shift, if it.output == Null then [] else FailChain(N, K, it.outputWord)) +
    Meets(N, N', K, LongestSuffix(N, it.history), Feed(it.Skip(), it.input, it.index + 1, it.end, it.shift))
  }

  /** Steps that look into remaining nodes only give what the search for the remaining keys gives. */
  lemma HarmlessIsRight(a: Automaton, it: SearchIter, nodes: map<Word, TrieNode>)
    requires Valid(a) && a.kind != Empty && it.automaton == a && Remain(nodes, a.nodes) && it.Placed(nodes)
    requires Harmless(it, nodes.Keys, a.nodes.Keys, ToRead(it))
    ensures [] in a.nodes
    ensures Met(it, nodes.Keys, a.nodes.Keys, a.Keys().Keys) == Coming(it, a.nodes.Keys, a.Keys().Keys)
  {
    hide Valid, TrieOf, FailChain, ReadsOnly, ChainStays;
    var N, N', K := nodes.Keys, a.nodes.Keys, a.Keys().Keys;
    var feed := Feed(it.Skip(), it.input, it.index + 1, it.end, it.shift);
    KeysHaveTrie(a);
    TrieIsClosed(N', K);
    if feed != [] {
      StateLookedInto(N, N', LongestSuffix(N, it.history), ToRead(it));
      SuffixKept(N, N', it.history);
      MeetsRightHits(N, N', K, it.history, feed);
    }
    if it.output != Null {
      FailChainIsSuffixKeys(N, K, it.outputWord);
      FailChainIsSuffixKeys(N', K, it.outputWord);
    }
  }

  lemma StateLookedInto(N: set<Word>, N': set<Word>, s: Word, t: Word)
    requires [] in N && ReadsOnly(N, N', s, t) && t != []
    ensures s in N'
  {
  }

  /** An iterator that has read `x` of the text `xy` stands on a node that remains when `y` is removed, and holds no
      other. At the end of its text it does no harm. But a `y` that follows leads to `xy`, whose fail link is
      followed to the freed node. */
  lemma StaleLinkAhead(a: Automaton, it: SearchIter, nodes: map<Word, TrieNode>, x: Letter, y: Letter)
    requires Valid(a) && a.kind != Empty && it.automaton == a && Remain(nodes, a.nodes) && it.Placed(nodes)
    requires PairStays(nodes.Keys, a.nodes.Keys, x, y) && it.history == [x] && it.output == Null
    ensures LongestSuffix(nodes.Keys, it.history) == [x] && it.Placed(a.nodes)
    ensures Harmless(it, nodes.Keys, a.nodes.Keys, []) && !Harmless(it, nodes.Keys, a.nodes.Keys, [y])
    ensures Transit(nodes.Keys, a.nodes.Keys, [x], y) == Some([x, y])
    ensures a.nodes[[x, y]].fail == To(nodes[[y]]) && nodes[[y]] !in a.nodes.Values
    ensures !it.Ready()
  {
    hide Valid;
    SearchReadyExactly(a, it, nodes);
    assert [x] in nodes && LongestSuffix(nodes.Keys, [x]) == [x];
    SuffixKept(nodes.Keys, a.nodes.Keys, it.history);
    forall w | w in a.nodes ensures a.nodes[w] != nodes[[y]] {
      assert a.nodes[w] == nodes[w];
    }
    PairHarms(nodes.Keys, a.nodes.Keys, x, y);
  }

  lemma PairHarms(N: set<Word>, N': set<Word>, x: Letter, y: Letter)
    requires PairStays(N, N', x, y)
    ensures Transit(N, N', [x], y) == Some([x, y]) && !ReadsOnly(N, N', [x], [y])
  {
    assert [x] + [y] == [x, y];
    assert !ChainStays(N, N', [y]);
    assert !ChainStays(N, N', [x, y]);
  }

  // ---------------------------------------------------------------- what the other iterators touch

  /** A longest-match iterator whose invariant holds looks into remaining nodes only, whatever it scans. While no
      early return can fire, every scan does so exactly if the fail links of remaining nodes that are no keys lead to
      remaining nodes. */
  lemma LongHarmlessExactly(a: Automaton, it: LongIter, nodes: map<Word, TrieNode>)
    requires Valid(a) && a.kind != Empty && it.automaton == a && Remain(nodes, a.nodes) && it.Placed(nodes)
    requires it.Resting()
    ensures var N, N', K := nodes.Keys, a.nodes.Keys, a.Keys().Keys;
            && (it.Ready() ==> forall t :: ScanStays(N, N', K, t))
            && (NeverEarly(N, N', K) ==> ((forall t :: ScanStays(N, N', K, t)) <==> InnerFailsRemain(N, N', K)))
  {
    hide Valid, LongIter.Ready, ScansOnly, TrieOf;
    var N, N', K := nodes.Keys, a.nodes.Keys, a.Keys().Keys;
    KeysHaveTrie(a);
    TrieIsClosed(N', K);
    LongReadyExactly(a, it, nodes);
    AllClean(KeepAll, N, N');
    if it.Ready() {
      forall t ensures ScanStays(N, N', K, t) {
        ScanSafe(KeepAll, N, N', K, [], t, false);
      }
    }
    if NeverEarly(N, N', K) {
      ScansOnlyExactly(N, N', K);
    }
  }

  /** If the search is greedy leftmost-longest for the keys, no early return can fire after a removal that freed the
      node of the word. */
  lemma GreedyNeverEarly(N: set<Word>, N': set<Word>, K: set<Word>, word: Word)
    requires [] in N && N' <= N && FailKeysAreKeys(N, K) && word !in N'
    ensures NeverEarly(N, N', K - {word})
  {
  }

  /** A longest-match iterator may be harmless where a search iterator is not: for these keys it never follows the fail
      link of one. */
  lemma ScansPastKeys(N: set<Word>, x: Letter, y: Letter)
    requires PairStays(N, {[], [x], [x, y]}, x, y) && x != y
    ensures !FailsRemain(N, {[], [x], [x, y]})
    ensures forall t :: ScanStays(N, {[], [x], [x, y]}, {[x, y]}, t)
  {
    var N', K: set<Word> := {[], [x], [x, y]}, {[x, y]};
    assert Parent([x]) == [] && Parent([x, y]) == [x];
    assert Fail(N, [x]) == [];
    ScansOnlyExactly(N, N', K);
  }

  /** Visiting the entry `w` of the stack of an enumerator, and all that it pushes, looks into nodes of T only. */
  ghost predicate WalkStays(T: Table, p: Pattern, w: Word, bound: nat)
    requires Bounded(T.Keys, bound)
    decreases bound - |w|
  {
    p.Drops(|w|) || (w in T && forall c :: c in p.Chosen(T[w], |w|) ==> WalkStays(T, p, w + [c], bound))
  }

  lemma {:induction false} WalkStaysExactly(T: Table, p: Pattern, w: Word, bound: nat)
    requires TreeTable(T) && Bounded(T.Keys, bound)
    ensures WalkStays(T, p, w, bound) <==> p.Drops(|w|) || w in T
    decreases bound - |w|
  {
    if w in T && !p.Drops(|w|) {
      ChosenLetters(T, p, w);
      forall c | c in p.Chosen(T[w], |w|) ensures WalkStays(T, p, w + [c], bound) {
        WalkStaysExactly(T, p, w + [c], bound);
      }
    }
  }

  /** The steps of an enumerator look into remaining nodes only, exactly if the nodes on its stack remain that are
      not too deep for its pattern. */
  lemma WalkHarmlessExactly(a: Automaton, it: ItemsIter, nodes: map<Word, TrieNode>)
    requires Valid(a) && a.kind != Empty && it.automaton == a && it.Placed(nodes) && a.nodes.Keys <= nodes.Keys
    ensures TreeTable(TableOf(a.nodes)) && it.buffer.Length > 0 && Bounded(TableOf(a.nodes).Keys, it.Bound())
    ensures (forall w :: w in it.words ==> WalkStays(TableOf(a.nodes), it.pattern, w, it.Bound())) <==>
              forall w :: w in it.words ==> it.pattern.Drops(|w|) || w in a.nodes
  {
    hide WalkStays;
    TableIsTree(a.nodes);
    assert TableOf(a.nodes).Keys == a.nodes.Keys;
    forall w ensures WalkStays(TableOf(a.nodes), it.pattern, w, it.Bound()) <==> it.pattern.Drops(|w|) || w in a.nodes {
      WalkStaysExactly(TableOf(a.nodes), it.pattern, w, it.Bound());
    }
  }

  // ---------------------------------------------------------------- an unnoticed removal

  lemma RemainAfter(n: map<Word, TrieNode>, f: map<Word, Ptr>, nodes: map<Word, TrieNode>)
    requires f.Keys == n.Keys && LinkedIn(n, f) && Injective(n) && Restricts(n, f, nodes, FailsOf(nodes)) && [] in nodes
    ensures Remain(n, nodes)
  {
    hide Injective;
    assert forall w :: w in nodes ==> FailsOf(nodes)[w] == nodes[w].fail;
  }

  /** A removal that goes unnoticed, under a search iterator of the current version: the nodes that other keys need
      remain, all of them exactly if another key starts with the word. The remaining nodes keep their links, and the
      invariant of the iterator still holds under the condition above. */
  method RemoveUnder(a: Automaton, op: Op, it: SearchIter) returns (reply: Reply)
    requires Valid(a) && it.automaton == a && it.version == a.version && it.Ready() && DictOf(a).Unnoticed(op)
    modifies a`kind, a`count, a`nodes, a`held, a`version, a`unseen, a`lost, a.nodes.Values`next, a.nodes.Values`eow
    ensures Valid(a) && it.version == a.version && [] in old(a.nodes) && it.Placed(old(a.nodes))
    ensures Remain(old(a.nodes), a.nodes) && a.kind == Trie && a.Keys() == old(a.Keys()) - {op.word}
    ensures reply == old(DictOf(a)).Answer(op)
    ensures a.nodes.Keys == old(DictOf(a)).Needed(op.word)
    ensures a.nodes.Keys == old(a.nodes.Keys) <==> !old(DictOf(a)).Frees(op)
    ensures it.Ready() <==>
              && LongestSuffix(old(a.nodes.Keys), it.history) in a.nodes
              && (it.output != Null ==> it.outputWord in a.nodes)
              && FailsRemain(old(a.nodes.Keys), a.nodes.Keys)
    ensures !it.ignoreWhiteSpace ==> (it.Ready() <==> AlwaysHarmless(it, old(a.nodes.Keys), a.nodes.Keys))
  {
    hide Valid, Automaton.Keys, States, Dict.Sane, Restricts, FailsOf, Injective, Dict.Frees, Dict.Needed, Linked;
    hide LinkedIn, TakenReply, AlwaysHarmless;
    hide Remain, FailsRemain, SearchIter.Placed, SearchIter.Ready;
    ghost var d, n, f := DictOf(a), a.nodes, FailsOf(a.nodes);
    ValidIsSane(a);
    StatsBehind(a);
    FinderReady(a, it);
    LinkedByFails(a.nodes);
    reply := RemoveLinked(a, op);
    RootThere(a);
    RootIn(n, f);
    RemainAfter(n, f, a.nodes);
    SearchReadyExactly(a, it, n);
    if !it.ignoreWhiteSpace {
      HarmlessIsReady(a, it, n);
    }
    KeysHaveTrie(a);
    assert a.Keys().Keys == d.keys.Keys - {op.word};
    WithoutLinks(d, op.word, n, f, a.nodes, FailsOf(a.nodes), a.Keys().Keys);
    FreesExactly(d, op);
    TakenAnswer(d, op);
  }

  /** The letter `x` read from the root of the two keys meets none of them. */
  lemma NothingYet(it: SearchIter, x: Letter, y: Letter)
    requires it.Ready() && it.automaton.Keys() == TwoKeys(x, y) && x != y && !it.ignoreWhiteSpace
    requires it.input == [x] && it.index == -1 && it.end == 1 && it.shift == 0 && it.output == Null && it.history == []
    ensures it.Pending() == [] && it.FinalHistory() == [x]
  {
    assert Feed(KeepAll, [x], 1, 1, 0) == [];
    assert Feed(KeepAll, [x], 0, 1, 0) == [Cell(x, 0)];
    var K := it.automaton.Keys().Keys;
    assert [x, y][0] == x;
    assert SuffixKeys(K, [x]) == [];
    assert [] + [x] == [x];
    RunOver(K, x);
  }

  lemma RunOver(K: set<Word>, x: Letter)
    requires SuffixKeys(K, [x]) == []
    ensures Matches.Run(K, [], [Cell(x, 0)]) == [] && Letters([Cell(x, 0)]) == [x]
  {
    assert [Cell(x, 0)][1..] == [];
    assert [] + [x] == [x];
  }

  /** The iterator reads the text `x` to its end. */
  method ReadFirst(a: Automaton, x: Letter, y: Letter, isSpace: Letter -> bool) returns (it: SearchIter)
    requires Valid(a) && a.kind == AhoCorasick && a.Keys() == TwoKeys(x, y) && x != y
    ensures fresh(it) && it.automaton == a && it.version == a.version && it.Ready() && !it.ignoreWhiteSpace
    ensures it.history == [x] && it.output == Null && it.end <= it.index
  {
    hide Valid, Linked, LongestSuffix, Automaton.Shape, Automaton.Keys, SearchIter.Ready, SearchIter.Pending;
    hide SearchIter.FinalHistory, SearchIter.Extra, SearchIter.Stepped, SearchIter.Placed;
    ValidParts(a, BooksOf(a), a.nodes.Keys, a.Keys());
    SturdyParts(a);
    it := new SearchIters.SearchIter(a, [x], 0, 1, isSpace, false);
    NothingYet(it, x, y);
    var r := it.Next();
    AtTheEnd(it, -1, r);
  }

  lemma AtTheEnd(it: SearchIter, was: int, r: SearchIters.Result)
    requires it.Ready() && it.Stepped([], was, r)
    ensures it.output == Null && it.end <= it.index && it.FinalHistory() == it.history
  {
  }

  lemma TakenAnswer(d: Dict, op: Op)
    requires op.RemoveWord? || op.Pop?
    ensures TakenReply(op, d.keys) == d.Answer(op)
  {
  }

  lemma RootIn(n: map<Word, TrieNode>, f: map<Word, Ptr>)
    requires f.Keys == n.Keys && LinkedIn(n, f)
    ensures [] in n
  {
  }

  /** An automaton of the two keys with its fail links. */
  method PairAutomaton(x: Letter, y: Letter, ref: Reference) returns (a: Automaton)
    ensures fresh(a) && Valid(a) && (forall n :: n in a.nodes.Values ==> fresh(n))
    ensures a.kind == AhoCorasick && a.Keys() == TwoKeys(x, y)
  {
    hide Valid, DictOf, Dict.Sane, Dict.Live, Dict.Replay, Dict.Answers, PairRun, Automaton.Keys;
    PairBuilt(x, y, ref);
    var replies;
    a, replies := RunNew(Ints, String, PairRun(x, y, ref));
    DictKind(a);
  }

  lemma DictKind(a: Automaton)
    ensures DictOf(a).kind == a.kind && DictOf(a).keys == a.Keys()
  {
  }

  /** The removal of `y` under an iterator that has read `x`. */
  method RemoveSuffix(a: Automaton, it: SearchIter, x: Letter, y: Letter) returns (reply: Reply)
    requires Valid(a) && a.kind == AhoCorasick && a.Keys() == TwoKeys(x, y) && x != y
    requires it.automaton == a && it.version == a.version && it.Ready() && it.history == [x] && it.output == Null
    modifies a`kind, a`count, a`nodes, a`held, a`version, a`unseen, a`lost, a.nodes.Values`next, a.nodes.Values`eow
    ensures Valid(a) && a.kind == Trie && it.version == a.version && reply == Flag(Ok(false))
    ensures a.Keys() == map[[x, y] := 1]
    ensures Remain(old(a.nodes), a.nodes) && it.Placed(old(a.nodes))
    ensures PairStays(old(a.nodes.Keys), a.nodes.Keys, x, y)
  {
    hide Valid, DictOf, Dict.Sane, Dict.After, Dict.Answer, Dict.Frees, Dict.Live, Dict.Needed, Remain, PairStays;
    hide SearchIter.Placed, SearchIter.Ready, Automaton.Keys, Dict.Unnoticed;
    DictKind(a);
    ValidIsSane(a);
    SuffixFreed(DictOf(a), x, y);
    reply := RemoveUnder(a, RemoveWord([y]), it);
    assert TwoKeys(x, y) - {[y]} == map[[x, y] := 1];
  }

  /** Such a run, from a new automaton: two keys, the links, an iterator that reads `x` to the end of its text, the
      removal of `y`, and the text `y` for the iterator. Its version is still that of the automaton, so its next step
      reads the letter and follows a fail link to the freed node. */
  method RunIntoFreed(x: Letter, y: Letter, ref: Reference, isSpace: Letter -> bool)
      returns (a: Automaton, it: SearchIter, reply: Reply, ghost nodes: map<Word, TrieNode>)
    requires x != y
    ensures fresh(a) && fresh(it) && Valid(a) && it.automaton == a && it.version == a.version
    ensures reply == Flag(Ok(false)) && a.Keys() == map[[x, y] := 1]
    ensures Remain(nodes, a.nodes) && it.Placed(nodes) && PairStays(nodes.Keys, a.nodes.Keys, x, y)
    ensures ToRead(it) == [y] && !Harmless(it, nodes.Keys, a.nodes.Keys, ToRead(it))
  {
    hide Valid, PairStays, Remain, SearchIter.Ready, Automaton.Keys, LongestSuffix, ReadsOnly, ChainStays;
    a := PairAutomaton(x, y, ref);
    it := ReadFirst(a, x, y, isSpace);
    nodes := a.nodes;
    reply := RemoveSuffix(a, it, x, y);
    StaleLinkAhead(a, it, nodes, x, y);
    it.Set([y], false);
    OneLetter(it, y);
  }

  lemma OneLetter(it: SearchIter, y: Letter)
    requires it.input == [y] && it.index == -1 && it.end == 1 && !it.ignoreWhiteSpace
    ensures ToRead(it) == [y]
  {
    assert Feed(KeepAll, [y], 1, 1, it.shift) == [];
    assert Feed(KeepAll, [y], 0, 1, it.shift) == [Cell(y, it.shift)];
    assert Letters([Cell(y, it.shift)]) == [y] + Letters([]);
  }
}
