/** Whole runs: any sequence of operations on one automaton refines the abstract dictionary. */
module Runs {
  import opened Options
  import opened Words
  import opened TrieNodes
  import opened Automata
  import opened Tries
  import opened Copies
  import opened Dictionary
  import opened Dicts
  import Frontiers
  import Links
  import Upkeep

  // ---------------------------------------------------------------- what an automaton stands for

  ghost function FailsOf(nodes: map<Word, TrieNode>): map<Word, Ptr>
    reads nodes.Values`fail
  {
    map w | w in nodes :: nodes[w].fail
  }

  ghost function StateOf(nodes: map<Word, TrieNode>, fail: Ptr): FailState {
    if fail == Null then NoLink
    else if exists u :: u in nodes && fail == To(nodes[u]) then
      var u :| u in nodes && fail == To(nodes[u]);
      Leads(u)
    else Stale
  }

  ghost function States(nodes: map<Word, TrieNode>, fails: map<Word, Ptr>): Dicts.Links {
    map w | w in fails :: StateOf(nodes, fails[w])
  }

  function NumbersOf(s: Stats): Numbers {
    Numbers(s.nodesCount, s.wordsCount, s.longestWord, s.linksCount)
  }

  /** The abstract dictionary that the automaton stands for. */
  ghost function DictOf(a: Automaton): Dict
    reads a, a.nodes.Values
  {
    Dict(a.store, a.Keys(), a.lost, a.kind, a.version,
         if a.stats.version == a.version then Some(NumbersOf(a.stats)) else None, States(a.nodes, FailsOf(a.nodes)))
  }

  ghost predicate Injective(nodes: map<Word, TrieNode>) {
    forall w, u :: w in nodes && u in nodes && nodes[w] == nodes[u] ==> w == u
  }

  lemma StateIs(nodes: map<Word, TrieNode>, u: Word)
    requires Injective(nodes) && u in nodes
    ensures StateOf(nodes, To(nodes[u])) == Leads(u)
  {
  }

  lemma NodesDiffer(a: Automaton)
    requires Sturdy(a)
    ensures Injective(a.nodes)
  {
    if a.kind != Empty {
      TreeWords(a.nodes);
    }
  }

  /** The links of linked nodes are those that make_automaton builds. */
  lemma LinkedStates(nodes: map<Word, TrieNode>)
    requires Injective(nodes) && [] in nodes
    requires Linked(nodes)
    ensures States(nodes, FailsOf(nodes)) == LinksFor(nodes.Keys)
  {
    hide StateOf;
    forall w | w in nodes ensures StateOf(nodes, nodes[w].fail) == LinksFor(nodes.Keys)[w] {
      if w != [] {
        StateIs(nodes, Fail(nodes.Keys, w));
      } else {
        NullState(nodes);
      }
    }
  }

  lemma NullState(nodes: map<Word, TrieNode>)
    ensures StateOf(nodes, Null) == NoLink
  {
  }

  lemma StatesInside(nodes: map<Word, TrieNode>, fails: map<Word, Ptr>)
    requires fails.Keys == nodes.Keys
    ensures Inside(States(nodes, fails)) && States(nodes, fails).Keys == nodes.Keys
  {
  }

  /** A valid automaton stands for a sane dictionary. */
  lemma ValidIsSane(a: Automaton)
    requires Valid(a)
    ensures DictOf(a).Sane() && Injective(a.nodes) && DictOf(a).links.Keys == a.nodes.Keys
    ensures a.count == DictOf(a).Count()
  {
    hide Inside, StateOf, States, Linked, Tree, Injective;
    NodesDiffer(a);
    StatesInside(a.nodes, FailsOf(a.nodes));
    if a.kind == AhoCorasick {
      LinkedStates(a.nodes);
    }
  }

  /** Fail links can be pickled exactly if the dictionary's links are live. */
  lemma LiveByDict(a: Automaton)
    ensures Live(a.nodes) <==> DictOf(a).Live()
  {
    var links := States(a.nodes, FailsOf(a.nodes));
    assert links.Keys == a.nodes.Keys;
    forall w | w in a.nodes
      ensures links[w] != Stale <==>
                a.nodes[w].fail == Null || exists u :: u in a.nodes && a.nodes[w].fail == To(a.nodes[u]) {
    }
  }

  // ---------------------------------------------------------------- links through the operations

  lemma TrieIsUnique(N: set<Word>, N': set<Word>, K: set<Word>)
    requires TrieOf(N, K) && TrieOf(N', K)
    ensures N == N'
  {
    TrieWithin(N, N', K);
    TrieWithin(N', N, K);
  }

  lemma TrieWithin(N: set<Word>, N': set<Word>, K: set<Word>)
    requires TrieOf(N, K) && TrieOf(N', K)
    ensures N <= N'
  {
    forall w | w in N && w != [] ensures w in N' {
      assert Reaches(K, w);
      var k :| k in K && IsPrefix(w, k);
      PrefixesAreNodes(N', k, |w|);
      assert k[..|w|] == w;
    }
  }

  /** Old nodes keep their identity and fail link; new ones have none and nothing leads to them. */
  ghost predicate Extends(n: map<Word, TrieNode>, f: map<Word, Ptr>, n': map<Word, TrieNode>, f': map<Word, Ptr>) {
    && f.Keys == n.Keys && f'.Keys == n'.Keys
    && (forall w :: w in n ==> w in n' && n'[w] == n[w] && f'[w] == f[w])
    && (forall w :: w in n' && w !in n ==> f'[w] == Null)
    && forall w, u :: w in n && u in n' && u !in n ==> f[w] != To(n'[u])
  }

  lemma StateExtends(n: map<Word, TrieNode>, f: map<Word, Ptr>, n': map<Word, TrieNode>, f': map<Word, Ptr>, w: Word)
    requires Extends(n, f, n', f') && Injective(n') && w in n
    ensures StateOf(n', f[w]) == StateOf(n, f[w])
  {
    if u :| u in n && f[w] == To(n[u]) {
      assert n'[u] == n[u];
      StateIs(n', u);
      assert Injective(n) by {
        forall p, q | p in n && q in n && n[p] == n[q] ensures p == q {
          assert n'[p] == n'[q];
        }
      }
      StateIs(n, u);
    }
  }

  lemma StatesExtended(n: map<Word, TrieNode>, f: map<Word, Ptr>, n': map<Word, TrieNode>, f': map<Word, Ptr>,
                       word: Word)
    requires Extends(n, f, n', f') && Injective(n') && n'.Keys == n.Keys + PrefixesOf(word)
    ensures States(n', f') == Extended(States(n, f), word)
  {
    hide StateOf, Injective;
    forall w | w in n' ensures StateOf(n', f'[w]) == if w in n then StateOf(n, f[w]) else NoLink {
      if w in n {
        StateExtends(n, f, n', f', w);
      } else {
        NullState(n');
      }
    }
  }

  /** The remaining nodes keep their identity and fail link. */
  ghost predicate Restricts(n: map<Word, TrieNode>, f: map<Word, Ptr>, n': map<Word, TrieNode>, f': map<Word, Ptr>) {
    f.Keys == n.Keys && f'.Keys == n'.Keys && forall w :: w in n' ==> w in n && n'[w] == n[w] && f'[w] == f[w]
  }

  lemma StateRestricts(n: map<Word, TrieNode>, f: map<Word, Ptr>, n': map<Word, TrieNode>, f': map<Word, Ptr>, w: Word)
    requires Restricts(n, f, n', f') && Injective(n) && w in n'
    ensures StateOf(n', f[w]) ==
              if StateOf(n, f[w]).Leads? && StateOf(n, f[w]).word !in n' then Stale else StateOf(n, f[w])
  {
    if u :| u in n && f[w] == To(n[u]) {
      StateIs(n, u);
      if u in n' {
        assert n'[u] == n[u];
        forall p, q | p in n' && q in n' && n'[p] == n'[q] ensures p == q {
          assert n[p] == n[q];
        }
        StateIs(n', u);
      } else {
        forall p | p in n' ensures f[w] != To(n'[p]) {
          assert n'[p] == n[p];
        }
      }
    } else {
      forall p | p in n' ensures n'[p] == n[p] {
      }
    }
  }

  lemma StatesRestricted(n: map<Word, TrieNode>, f: map<Word, Ptr>, n': map<Word, TrieNode>, f': map<Word, Ptr>)
    requires Restricts(n, f, n', f') && Injective(n)
    ensures States(n', f') == Among(States(n, f), n'.Keys)
  {
    hide StateOf, Injective;
    forall w | w in n'
      ensures StateOf(n', f'[w]) ==
                if StateOf(n, f[w]).Leads? && StateOf(n, f[w]).word !in n' then Stale else StateOf(n, f[w]) {
      StateRestricts(n, f, n', f', w);
    }
  }

  // ---------------------------------------------------------------- one operation

  /** Nodes are the ones of before or new ones. */
  twostate predicate Grown(a: Automaton)
    reads a`nodes
  {
    forall n :: n in a.nodes.Values ==> n in old(a.nodes.Values) || fresh(n)
  }

  /** The nodes, their child tables and their fail links are the same as before. */
  twostate predicate Unmoved(a: Automaton)
    reads a`nodes, a.nodes.Values`next, a.nodes.Values`fail
  {
    a.nodes == old(a.nodes) && TablesOf(a.nodes) == old(TablesOf(a.nodes)) && FailsOf(a.nodes) == old(FailsOf(a.nodes))
  }

  /** The automaton answers and has changed like the dictionary `d`. */
  ghost predicate Performed(d: Dict, a: Automaton, op: Op, reply: Reply)
    reads a, a.nodes.Values
  {
    DictOf(a) == d.After(op) && reply == d.Answer(op)
  }

  /** The operation neither changes the version nor frees nodes. */
  ghost predicate Quiet(d: Dict, op: Op) {
    !d.Bumps(op) && !d.Frees(op)
  }

  lemma WithLinks(d: Dict, word: Word, n: map<Word, TrieNode>, f: map<Word, Ptr>,
                  n': map<Word, TrieNode>, f': map<Word, Ptr>, K: set<Word>)
    requires d.Sane() && word != [] && d.links == States(n, f) && f.Keys == n.Keys
    requires TrieOf(n'.Keys, K) && K == d.keys.Keys + {word} && Extends(n, f, n', f') && Injective(n')
    ensures States(n', f') == Extended(d.links, word)
  {
    hide TrieOf, StateOf, Extends, Injective;
    WithIsTrie(d, word);
    TrieIsUnique(n'.Keys, Extended(d.links, word).Keys, K);
    assert Extended(d.links, word).Keys == n.Keys + PrefixesOf(word);
    StatesExtended(n, f, n', f', word);
  }

  lemma WithoutLinks(d: Dict, word: Word, n: map<Word, TrieNode>, f: map<Word, Ptr>,
                     n': map<Word, TrieNode>, f': map<Word, Ptr>, K: set<Word>)
    requires d.Sane() && word in d.keys && d.links == States(n, f)
    requires TrieOf(n'.Keys, K) && K == d.keys.Keys - {word} && Restricts(n, f, n', f') && Injective(n)
    ensures States(n', f') == Among(d.links, d.Needed(word)) && n'.Keys == d.Needed(word)
  {
    hide TrieOf, StateOf, Restricts, Injective;
    NeededIsTrie(d, word);
    TrieIsUnique(n'.Keys, d.Needed(word), K);
    StatesRestricted(n, f, n', f');
  }

  /** A valid automaton with keys has their trie. */
  lemma KeysHaveTrie(a: Automaton)
    requires Valid(a) && a.kind != Empty
    ensures TrieOf(a.nodes.Keys, a.Keys().Keys)
  {
  }

  lemma StatsBehind(a: Automaton)
    requires Valid(a)
    ensures a.stats.version <= a.version && FailsOf(a.nodes).Keys == a.nodes.Keys
  {
  }

  /** add_word, with what it does to the fail links. */
  method AddLinked(a: Automaton, word: Word, arg: Option<PyObject>) returns (r: Outcome<bool>)
    requires Valid(a)
    modifies a`kind, a`count, a`root, a`nodes, a`held, a`version, a`unseen, a`longestWord
    modifies a.nodes.Values`next, a.nodes.Values`eow, a.nodes.Values`output
    ensures Valid(a) && Grown(a)
    ensures Added(StoredValue(a.store, word, arg, old(a.count)), word, old(a.Keys()), a.Keys(), r)
    ensures Extends(old(a.nodes), old(FailsOf(a.nodes)), a.nodes, FailsOf(a.nodes))
    ensures if r.Ok? && word != [] then a.kind == Trie else a.kind == old(a.kind)
    ensures a.version == old(a.version) + if r == Ok(true) then 1 else 0
    ensures r != Ok(true) ==> a.nodes == old(a.nodes) && Unmoved(a)
  {
    hide Valid, Automaton.Keys, TablesOf;
    ghost var n, f := a.nodes, FailsOf(a.nodes);
    r := Dictionary.AddWord(a, word, arg);
    assert forall w :: w in n ==> a.nodes[w] == n[w] && FailsOf(a.nodes)[w] == f[w];
  }

  ghost predicate Added(stored: Outcome<Output>, word: Word, keys: map<Word, Output>, keys': map<Word, Output>,
                        r: Outcome<bool>)
  {
    match stored
    case Raised(e) => r == Raised(e) && keys' == keys
    case Ok(value) =>
      if word == [] then r == Ok(false) && keys' == keys else r == Ok(word !in keys) && keys' == keys[word := value]
  }

  /** The links after add_word are those of the dictionary. */
  lemma AddedLinks(d: Dict, a: Automaton, op: Op, n: map<Word, TrieNode>, f: map<Word, Ptr>, r: Outcome<bool>)
    requires d.Sane() && op.AddWord? && d.links == States(n, f) && f.Keys == n.Keys && Valid(a)
    requires Added(StoredValue(d.store, op.word, op.arg, d.Count()), op.word, d.keys, a.Keys(), r)
    requires Extends(n, f, a.nodes, FailsOf(a.nodes)) && (r != Ok(true) ==> a.nodes == n)
    requires r.Ok? && op.word != [] ==> a.kind == Trie
    ensures r.Ok? && op.word != [] ==> States(a.nodes, FailsOf(a.nodes)) == Extended(d.links, op.word)
    ensures !(r.Ok? && op.word != []) ==> States(a.nodes, FailsOf(a.nodes)) == d.links
  {
    hide Valid, Automaton.Keys, States, Dict.Sane, TrieOf, Injective, Extends, Extended, FailsOf, Dict.Count;
    hide StoredValue;
    if r.Ok? && op.word != [] {
      ValidIsSane(a);
      KeysHaveTrie(a);
      assert a.Keys().Keys == d.keys.Keys + {op.word};
      WithLinks(d, op.word, n, f, a.nodes, FailsOf(a.nodes), a.Keys().Keys);
    } else {
      ExtendsSame(n, f, FailsOf(a.nodes));
    }
  }

  lemma ExtendsSame(n: map<Word, TrieNode>, f: map<Word, Ptr>, f': map<Word, Ptr>)
    requires Extends(n, f, n, f')
    ensures f' == f
  {
  }

  lemma AddPerformed(d: Dict, a: Automaton, op: Op, r: Outcome<bool>)
    requires op.AddWord? && DictOf(a).store == d.store && DictOf(a).lost == d.lost
    requires Added(StoredValue(d.store, op.word, op.arg, d.Count()), op.word, d.keys, a.Keys(), r)
    requires a.kind == (if r.Ok? && op.word != [] then Trie else d.kind)
    requires a.version == d.version + if r == Ok(true) then 1 else 0
    requires DictOf(a).cached == if r == Ok(true) then None else d.cached
    requires DictOf(a).links == if r.Ok? && op.word != [] then Extended(d.links, op.word) else d.links
    ensures Performed(d, a, op, Flag(r)) && (Quiet(d, op) ==> r != Ok(true))
  {
    hide Automaton.Keys, States, Extended;
  }

  method PerformAdd(a: Automaton, op: Op) returns (reply: Reply)
    requires Valid(a) && op.AddWord?
    modifies a, a.nodes.Values
    ensures Valid(a) && Performed(old(DictOf(a)), a, op, reply) && Grown(a)
    ensures Quiet(old(DictOf(a)), op) ==> Unmoved(a)
  {
    hide Valid, Automaton.Keys, States, Dict.Sane, Extends, Grown, Unmoved, Performed, Quiet, Added, Extended, FailsOf;
    hide Dict.Count;
    ghost var d, n, f := DictOf(a), a.nodes, FailsOf(a.nodes);
    ValidIsSane(a);
    StatsBehind(a);
    var r := AddLinked(a, op.word, op.arg);
    reply := Flag(r);
    AddedLinks(d, a, op, n, f, r);
    AddPerformed(d, a, op, r);
  }

  /** remove_word and pop, with what they do to the nodes and the fail links. */
  method RemoveLinked(a: Automaton, op: Op) returns (reply: Reply)
    requires Valid(a) && (op.RemoveWord? || op.Pop?)
    modifies a`kind, a`count, a`nodes, a`held, a`version, a`unseen, a`lost, a.nodes.Values`next, a.nodes.Values`eow
    ensures Valid(a) && Grown(a) && a.Keys() == old(a.Keys()) - {op.word}
    ensures Restricts(old(a.nodes), old(FailsOf(a.nodes)), a.nodes, FailsOf(a.nodes))
    ensures reply == TakenReply(op, old(a.Keys()))
    ensures a.version == old(a.version) + if Noticed(op.word, old(a.Keys())) then 1 else 0
    ensures a.lost == old(a.lost) + if op.word in old(a.Keys()) && !Noticed(op.word, old(a.Keys())) then 1 else 0
    ensures if op.word in old(a.Keys()) then a.kind == Trie else a.nodes == old(a.nodes) && a.kind == old(a.kind)
    ensures a.nodes.Keys == old(a.nodes.Keys) ==> TablesOf(a.nodes) == old(TablesOf(a.nodes))
  {
    hide Valid, Automaton.Keys, TablesOf;
    ghost var n, f := a.nodes, FailsOf(a.nodes);
    if op.RemoveWord? {
      var r := Dictionary.RemoveWord(a, op.word);
      reply := Flag(Ok(r));
    } else {
      var r := Dictionary.Pop(a, op.word);
      reply := Value(r);
    }
    assert forall w :: w in a.nodes ==> a.nodes[w] == n[w] && FailsOf(a.nodes)[w] == f[w];
  }

  ghost predicate Noticed(word: Word, keys: map<Word, Output>) {
    word in keys && keys[word] != 0
  }

  ghost function TakenReply(op: Op, keys: map<Word, Output>): Reply
    requires op.RemoveWord? || op.Pop?
  {
    if op.RemoveWord? then Flag(Ok(Noticed(op.word, keys)))
    else Value(if Noticed(op.word, keys) then Ok(Object(keys[op.word])) else Raised(KeyError))
  }

  /** The nodes and links after a removal are those of the dictionary. */
  lemma TakenLinks(d: Dict, a: Automaton, op: Op, n: map<Word, TrieNode>, f: map<Word, Ptr>)
    requires d.Sane() && (op.RemoveWord? || op.Pop?) && d.links == States(n, f) && f.Keys == n.Keys && Injective(n)
    requires Valid(a) && a.Keys() == d.keys - {op.word} && Restricts(n, f, a.nodes, FailsOf(a.nodes))
    requires if op.word in d.keys then a.kind == Trie else a.nodes == n
    ensures States(a.nodes, FailsOf(a.nodes)) ==
              if op.word in d.keys then Among(d.links, d.Needed(op.word)) else d.links
    ensures !d.Frees(op) ==> a.nodes == n && FailsOf(a.nodes) == f
  {
    hide Valid, Automaton.Keys, States, Dict.Sane, TrieOf, Injective, Restricts, Among, FailsOf, Dict.Needed;
    if op.word in d.keys {
      KeysHaveTrie(a);
      assert a.Keys().Keys == d.keys.Keys - {op.word};
      WithoutLinks(d, op.word, n, f, a.nodes, FailsOf(a.nodes), a.Keys().Keys);
      FreesExactly(d, op);
      StatesKeys(n, f);
    } else {
      RestrictsSame(n, f, a.nodes, FailsOf(a.nodes));
    }
    if a.nodes.Keys == n.Keys {
      RestrictsSame(n, f, a.nodes, FailsOf(a.nodes));
    }
  }

  lemma StatesKeys(n: map<Word, TrieNode>, f: map<Word, Ptr>)
    ensures States(n, f).Keys == f.Keys
  {
  }

  lemma RestrictsSame(n: map<Word, TrieNode>, f: map<Word, Ptr>, n': map<Word, TrieNode>, f': map<Word, Ptr>)
    requires Restricts(n, f, n', f') && n'.Keys == n.Keys
    ensures n' == n && f' == f
  {
  }

  lemma TakenPerformed(d: Dict, a: Automaton, op: Op, reply: Reply)
    requires (op.RemoveWord? || op.Pop?) && DictOf(a).store == d.store && a.Keys() == d.keys - {op.word}
    requires a.kind == (if op.word in d.keys then Trie else d.kind)
    requires a.version == d.version + if Noticed(op.word, d.keys) then 1 else 0
    requires a.lost == d.lost + if op.word in d.keys && !Noticed(op.word, d.keys) then 1 else 0
    requires DictOf(a).cached == if Noticed(op.word, d.keys) then None else d.cached
    requires DictOf(a).links == if op.word in d.keys then Among(d.links, d.Needed(op.word)) else d.links
    requires reply == TakenReply(op, d.keys)
    ensures Performed(d, a, op, reply)
  {
    hide Automaton.Keys, States, Among, Dict.Needed;
    assert op.word !in d.keys ==> d.keys - {op.word} == d.keys;
  }

  method PerformRemoval(a: Automaton, op: Op) returns (reply: Reply)
    requires Valid(a) && (op.RemoveWord? || op.Pop?)
    modifies a, a.nodes.Values
    ensures Valid(a) && Performed(old(DictOf(a)), a, op, reply) && Grown(a)
    ensures Quiet(old(DictOf(a)), op) ==> Unmoved(a)
  {
    hide Valid, Automaton.Keys, States, Dict.Sane, Restricts, Grown, Performed, Among, FailsOf, TablesOf, Injective;
    hide Dict.Frees;
    hide Dict.Needed, TakenReply;
    ghost var d, n, f := DictOf(a), a.nodes, FailsOf(a.nodes);
    ValidIsSane(a);
    StatsBehind(a);
    reply := RemoveLinked(a, op);
    TakenLinks(d, a, op, n, f);
    TakenPerformed(d, a, op, reply);
  }

  // ---------------------------------------------------------------- the other operations

  /** make_automaton keeps the bookkeeping. */
  method Build(a: Automaton) returns (made: bool)
    requires Valid(a)
    modifies a`kind, a`version, a`unseen, a.nodes.Values`fail
    ensures Valid(a) && made == (old(a.kind) == Trie) && a.kind == (if made then AhoCorasick else old(a.kind))
    ensures a.version == old(a.version) + if made then 1 else 0
    ensures made ==> Linked(a.nodes)
    ensures !made ==> FailsOf(a.nodes) == old(FailsOf(a.nodes))
  {
    hide Valid, Sturdy, Automaton.Shape, Automaton.RootIsTop, Automaton.Keys, Linked, Books.Fit, BooksOf;
    ghost var b, keys := BooksOf(a), a.Keys();
    ValidParts(a, b, a.nodes.Keys, keys);
    SturdyParts(a);
    made := MakeLinks(a);
    StillValid(a, b, if made then b.(version := b.version + 1, unseen := false) else b, keys);
  }

  method MakeLinks(a: Automaton) returns (made: bool)
    requires a.Shape() && a.RootIsTop()
    modifies a`kind, a`version, a`unseen, a.nodes.Values`fail
    ensures made == (old(a.kind) == Trie) && a.kind == (if made then AhoCorasick else old(a.kind))
    ensures a.Shape() && a.RootIsTop() && a.Keys() == old(a.Keys())
    ensures a.version == old(a.version) + if made then 1 else 0
    ensures var b := old(BooksOf(a)); BooksOf(a) == if made then b.(version := b.version + 1, unseen := false) else b
    ensures made ==> Linked(a.nodes)
    ensures !made ==> FailsOf(a.nodes) == old(FailsOf(a.nodes)) && (old(Linked(a.nodes)) ==> Linked(a.nodes))
  {
    hide Automaton.Shape, Automaton.RootIsTop, Automaton.Keys, Linked, Frontiers.AllFollowed, Frontiers.BuildSteps;
    hide Frontiers.TotalLength;
    ghost var steps;
    made, steps := Links.MakeAutomaton(a);
    if made {
      a.unseen := false;
    }
  }

  lemma SturdyParts(a: Automaton)
    requires Sturdy(a)
    ensures a.Shape() && a.RootIsTop() && (a.kind == AhoCorasick ==> Linked(a.nodes))
  {
  }

  lemma StillValid(a: Automaton, b: Books, b': Books, keys: map<Word, Output>)
    requires b.Fit(a.nodes.Keys, keys) && keys == a.Keys() && BooksOf(a) == b'
    requires a.Shape() && a.RootIsTop() && (a.kind == AhoCorasick ==> Linked(a.nodes))
    requires b' == b || b' == b.(version := b.version + 1, unseen := false)
    ensures Valid(a)
  {
    hide Automaton.Shape, Automaton.RootIsTop, Automaton.Keys, Linked, Fitting, StatsFit;
  }

  method PerformClear(a: Automaton) returns (reply: Reply)
    requires Valid(a)
    modifies a, a.nodes.Values
    ensures Valid(a) && Performed(old(DictOf(a)), a, Op.Clear, reply) && Grown(a)
  {
    hide Valid, Automaton.Keys;
    StatsBehind(a);
    ghost var freed := Upkeep.Clear(a);
    reply := Done;
    assert FailsOf(a.nodes) == map[];
  }

  method PerformBuild(a: Automaton) returns (reply: Reply)
    requires Valid(a)
    modifies a, a.nodes.Values
    ensures Valid(a) && Performed(old(DictOf(a)), a, Op.MakeAutomaton, reply) && Grown(a)
    ensures Quiet(old(DictOf(a)), Op.MakeAutomaton) ==> Unmoved(a)
  {
    hide Valid, Automaton.Keys, States, Linked, Injective, TablesOf, FailsOf, Performed, LinksFor, Dict.Sane;
    ghost var d := DictOf(a);
    StatsBehind(a);
    ValidIsSane(a);
    var made := Build(a);
    reply := Built(made);
    if made {
      ValidIsSane(a);
      RootThere(a);
      LinkedStates(a.nodes);
    }
    BuiltPerformed(d, a, made);
  }

  lemma BuiltPerformed(d: Dict, a: Automaton, made: bool)
    requires made == (d.kind == Trie) && DictOf(a).store == d.store && DictOf(a).lost == d.lost && a.Keys() == d.keys
    requires a.kind == (if made then AhoCorasick else d.kind) && a.version == d.version + if made then 1 else 0
    requires DictOf(a).cached == if made then None else d.cached
    requires DictOf(a).links == if made then LinksFor(d.links.Keys) else d.links
    ensures Performed(d, a, Op.MakeAutomaton, Built(made))
  {
    hide Automaton.Keys, States, LinksFor;
  }

  lemma RootThere(a: Automaton)
    requires Valid(a) && a.kind != Empty
    ensures [] in a.nodes
  {
  }

  lemma FitIsFresh(s: Stats, N: set<Word>, K: set<Word>)
    requires StatsFit(s, N, K)
    ensures NumbersOf(s) == Dicts.Fresh(N, K)
  {
  }

  method PerformStats(a: Automaton) returns (reply: Reply)
    requires Valid(a)
    modifies a, a.nodes.Values
    ensures Valid(a) && Performed(old(DictOf(a)), a, Op.GetStats, reply) && Grown(a) && Unmoved(a)
  {
    hide Valid, Automaton.Keys, States, TablesOf, FailsOf, StatsFit, Dicts.Fresh, Dict.Sane, Injective;
    ghost var d := DictOf(a);
    ValidIsSane(a);
    var s := Upkeep.GetStats(a, 0, 0);
    reply := Statistics(NumbersOf(s));
    if d.cached.None? {
      FitIsFresh(s, a.nodes.Keys, a.Keys().Keys);
    }
  }

  method PerformRead(a: Automaton, op: Op) returns (reply: Reply)
    requires Valid(a) && (op.Get? || op.Len?)
    ensures Performed(DictOf(a), a, op, reply)
  {
    hide Valid, Automaton.Keys, States, Dict.Sane;
    ValidIsSane(a);
    if op.Get? {
      var r := Dictionary.Get(a, op.word, op.default);
      reply := Value(r);
    } else {
      reply := Number(a.count);
    }
  }

  /** One operation: the automaton answers and changes like the dictionary. While the version stays and no node is
      freed, nodes, child tables and fail links stay. */
  method Perform(a: Automaton, op: Op) returns (reply: Reply)
    requires Valid(a)
    modifies a, a.nodes.Values
    ensures Valid(a) && Performed(old(DictOf(a)), a, op, reply) && Grown(a)
    ensures Quiet(old(DictOf(a)), op) ==> Unmoved(a)
  {
    hide Valid, Performed, DictOf;
    match op
    case AddWord(_, _) => reply := PerformAdd(a, op);
    case RemoveWord(_) => reply := PerformRemoval(a, op);
    case Pop(_) => reply := PerformRemoval(a, op);
    case Clear => reply := PerformClear(a);
    case MakeAutomaton => reply := PerformBuild(a);
    case GetStats => reply := PerformStats(a);
    case _ => reply := PerformRead(a, op);
  }

  /** Every run answers like the same run of the dictionary, and keeps every invariant. */
  method Run(a: Automaton, ops: seq<Op>) returns (replies: seq<Reply>)
    requires Valid(a)
    modifies a, a.nodes.Values
    ensures Valid(a) && Grown(a)
    ensures DictOf(a) == old(DictOf(a)).Replay(ops) && replies == old(DictOf(a)).Answers(ops)
  {
    hide Valid, DictOf, Dict.After, Dict.Answer, Quiet, Automaton.Keys, Dict.Replay, Dict.Answers;
    ghost var start := DictOf(a);
    replies := [];
    NothingRun(start);
    var i := 0;
    while i < |ops|
      invariant 0 <= i <= |ops| && Valid(a) && Grown(a)
      invariant DictOf(a) == start.Replay(ops[..i]) && replies == start.Answers(ops[..i])
    {
      assert ops[..i + 1] == ops[..i] + [ops[i]];
      AnswersNext(start, ops[..i], ops[i]);
      var reply := Perform(a, ops[i]);
      replies := replies + [reply];
      i := i + 1;
    }
    assert ops[..i] == ops;
  }

  lemma NothingRun(d: Dict)
    ensures d.Replay([]) == d && d.Answers([]) == []
  {
  }

  lemma NewDict(a: Automaton)
    requires a.kind == Empty && a.count == 0 && a.longestWord == 0 && a.version == 0 && a.stats.version == -1
    requires a.root == Null && a.nodes == map[] && a.held == multiset{} && a.lost == 0 && !a.unseen
    ensures Valid(a) && DictOf(a) == Start(a.store)
  {
    NewIsValid(a);
    assert FailsOf(a.nodes) == map[];
  }

  /** A run from a new automaton. Its fail links can be followed, by pickling for one, exactly if no remaining node
      had a link whose target was freed since the links were built; so whenever nothing was freed since. */
  method RunNew(store: Store, keyType: KeyType, ops: seq<Op>) returns (a: Automaton, replies: seq<Reply>)
    ensures fresh(a) && Valid(a) && DictOf(a) == Start(store).Replay(ops) && replies == Start(store).Answers(ops)
    ensures forall n :: n in a.nodes.Values ==> fresh(n)
    ensures Live(a.nodes) <==> forall w :: !CutSince(Start(store), ops, w)
    ensures !FreesSome(Start(store), ops) ==> Live(a.nodes)
  {
    hide Valid, DictOf, Dict.Replay, Dict.Answers, Live, FreesSome, Dict.Live, Dict.Sane, CutSince;
    a := new Automaton(store, keyType);
    NewDict(a);
    StartIsSane(store);
    replies := Run(a, ops);
    LiveByDict(a);
    LiveExactlyAlong(Start(store), ops);
    if !FreesSome(Start(store), ops) {
      LiveUnlessFreed(Start(store), ops);
    }
  }

  lemma StartIsSane(store: Store)
    ensures Start(store).Sane() && Start(store).Live()
  {
  }
}
