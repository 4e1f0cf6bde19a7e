/** The abstract dictionary that every run of an automaton refines: keys, nodes, fail links, version and statistics,
    without any pointer. */
module Dicts {
  import opened Options
  import opened Words
  import opened TrieNodes
  import opened Automata
  import opened Dictionary

  datatype Op =
    | AddWord(word: Word, arg: Option<PyObject>)
    | RemoveWord(word: Word)
    | Pop(word: Word)
    | Get(word: Word, default: Option<Reference>)
    | Len
    | Clear
    | MakeAutomaton
    | GetStats

  /** The numbers of get_stats. */
  datatype Numbers = Numbers(nodes: int, words: int, longest: int, links: int)

  datatype Reply =
    | Flag(flag: Outcome<bool>)
    | Value(value: Outcome<PyValue>)
    | Number(number: int)
    | Statistics(numbers: Numbers)
    | Built(made: bool)
    | Done

  /** Where a fail link leads: nowhere, to the node of a word, or to a node that was freed. */
  datatype FailState = NoLink | Leads(word: Word) | Stale

  ghost function LongestOf(N: set<Word>): (n: nat)
    ensures forall w :: w in N ==> |w| <= n
    ensures if N == {} then n == 0 else exists w :: w in N && |w| == n
  {
    if N == {} then 0
    else
      var w :| w in N;
      var n := LongestOf(N - {w});
      assert forall u :: u in N && u != w ==> u in N - {w};
      if |w| > n then |w| else n
  }

  /** What a traversal of the nodes N of the keys K finds. */
  ghost function Fresh(N: set<Word>, K: set<Word>): Numbers {
    Numbers(|N|, |K|, LongestOf(N), if N == {} then 0 else |N| - 1)
  }

  function PrefixesOf(word: Word): set<Word> {
    set i | 0 <= i <= |word| :: word[..i]
  }

  lemma ArePrefixes(word: Word, u: Word)
    ensures u in PrefixesOf(word) <==> IsPrefix(u, word)
  {
    if IsPrefix(u, word) {
      assert u == word[..|u|];
    }
  }

  type Links = map<Word, FailState>

  /** What make_automaton builds. */
  ghost function LinksFor(N: set<Word>): Links {
    map w | w in N :: if w == [] || [] !in N then NoLink else Leads(Fail(N, w))
  }

  /** The links when nodes for `word` come in: new nodes have none. */
  function Extended(links: Links, word: Word): Links {
    map w | w in links.Keys + PrefixesOf(word) :: if w in links then links[w] else NoLink
  }

  /** The links when the nodes N are left: those to other nodes are stale. */
  function Among(links: Links, N: set<Word>): Links {
    map w | w in links && w in N :: if links[w].Leads? && links[w].word !in N then Stale else links[w]
  }

  ghost predicate Inside(links: Links) {
    forall w :: w in links && links[w].Leads? ==> links[w].word in links
  }

  predicate AllLive(links: Links) {
    forall w :: w in links ==> links[w] != Stale
  }

  lemma AmongInside(links: Links, N: set<Word>)
    requires Inside(links) && N <= links.Keys
    ensures Inside(Among(links, N)) && Among(links, N).Keys == N
    ensures N == links.Keys ==> Among(links, N) == links
  {
  }

  /** All that an automaton's replies depend on. `lost` counts words that went unnoticed, `cached` are the statistics
      taken of this version, `links` has the fail link of every node. */
  datatype Dict = Dict(store: Store, keys: map<Word, Output>, lost: nat, kind: Kind, version: int,
                       cached: Option<Numbers>,
                       links: Links)
  {
    /** The nodes spell the prefixes of the keys; an Aho-Corasick automaton has its fail links. */
    ghost predicate Sane() {
      && (if kind == Empty then keys == map[] && links == map[] && lost == 0 else TrieOf(links.Keys, keys.Keys))
      && (kind == AhoCorasick ==> links == LinksFor(links.Keys))
      && Inside(links)
    }

    /** No fail link leads to a freed node. */
    predicate Live() {
      AllLive(links)
    }

    function Count(): nat {
      |keys| + lost
    }

    predicate Reported(word: Word) {
      word in keys && keys[word] != 0
    }

    predicate Removes(op: Op) {
      (op.RemoveWord? || op.Pop?) && op.word in keys
    }

    /** A removal that leaves no trace in the count and the version. */
    predicate Unnoticed(op: Op) {
      Removes(op) && keys[op.word] == 0
    }

    /** A removal that frees nodes: no other key starts with the word. */
    predicate Frees(op: Op) {
      Removes(op) && forall k :: k in keys && IsPrefix(op.word, k) ==> k == op.word
    }

    /** The version changes with the set of words and with the fail links. */
    predicate Bumps(op: Op) {
      match op
      case AddWord(word, arg) => StoredValue(store, word, arg, Count()).Ok? && word != [] && word !in keys
      case RemoveWord(word) => Reported(word)
      case Pop(word) => Reported(word)
      case Clear => true
      case MakeAutomaton => kind == Trie
      case _ => false
    }

    /** The nodes that other keys than `word` need. */
    ghost function Needed(word: Word): set<Word> {
      set w | w in links && (w == [] || Reaches(keys.Keys - {word}, w))
    }

    ghost function Without(word: Word): Dict {
      if word !in keys then this
      else
        var rest := this.(keys := keys - {word}, kind := Trie, links := Among(links, Needed(word)));
        if keys[word] == 0 then rest.(lost := lost + 1) else rest.(version := version + 1, cached := None)
    }

    ghost function With(word: Word, value: Output): Dict {
      var more := this.(keys := keys[word := value], kind := Trie, links := Extended(links, word));
      if word in keys then more else more.(version := version + 1, cached := None)
    }

    /** The statistics that get_stats gives: those of this version, if there are any. */
    ghost function Known(): Numbers {
      if cached.Some? then cached.value else Fresh(links.Keys, keys.Keys)
    }

    ghost function After(op: Op): Dict {
      match op
      case AddWord(word, arg) =>
        var stored := StoredValue(store, word, arg, Count());
        if stored.Raised? || word == [] then this else With(word, stored.value)
      case RemoveWord(word) => Without(word)
      case Pop(word) => Without(word)
      case Clear => Dict(store, map[], 0, Empty, version + 1, None, map[])
      case MakeAutomaton =>
        if kind != Trie then this
        else this.(kind := AhoCorasick, version := version + 1, cached := None, links := LinksFor(links.Keys))
      case GetStats => this.(cached := Some(Known()))
      case _ => this
    }

    ghost function Answer(op: Op): Reply {
      match op
      case AddWord(word, arg) =>
        var stored := StoredValue(store, word, arg, Count());
        if stored.Raised? then Flag(Raised(stored.error)) else Flag(Ok(word != [] && word !in keys))
      case RemoveWord(word) => Flag(Ok(Reported(word)))
      case Pop(word) => Value(if Reported(word) then Ok(Object(keys[word])) else Raised(KeyError))
      case Get(word, default) =>
        Value(if word in keys then Ok(Shown(store, keys[word]))
              else if default.Some? then Ok(Object(default.value)) else Raised(KeyError))
      case Len => Number(Count())
      case Clear => Done
      case MakeAutomaton => Built(kind == Trie)
      case GetStats => Statistics(Known())
    }

    /** The run of the abstract dictionary. */
    ghost function Replay(ops: seq<Op>): Dict {
      if ops == [] then this else Replay(ops[..|ops| - 1]).After(ops[|ops| - 1])
    }

    ghost function Answers(ops: seq<Op>): seq<Reply> {
      if ops == [] then [] else Answers(ops[..|ops| - 1]) + [Replay(ops[..|ops| - 1]).Answer(ops[|ops| - 1])]
    }
  }

  lemma AnswersNext(d: Dict, ops: seq<Op>, op: Op)
    ensures d.Replay(ops + [op]) == d.Replay(ops).After(op)
    ensures d.Answers(ops + [op]) == d.Answers(ops) + [d.Replay(ops).Answer(op)]
  {
    assert (ops + [op])[..|ops|] == ops;
  }

  lemma {:induction false} ReplayFirst(d: Dict, op: Op, ops: seq<Op>)
    ensures d.Replay([op] + ops) == d.After(op).Replay(ops)
    decreases |ops|
  {
    hide Dict.After;
    if ops == [] {
      assert [op] + ops == [] + [op];
      AnswersNext(d, [], op);
    } else {
      var before, last := ops[..|ops| - 1], ops[|ops| - 1];
      assert [op] + ops == ([op] + before) + [last] && ops == before + [last];
      AnswersNext(d, [op] + before, last);
      ReplayFirst(d, op, before);
    }
  }

  // ---------------------------------------------------------------- what every operation keeps

  lemma NeededIsTrie(d: Dict, word: Word)
    requires d.Sane() && word in d.keys
    ensures TrieOf(d.Needed(word), d.keys.Keys - {word})
  {
    var N, K, N' := d.links.Keys, d.keys.Keys - {word}, d.Needed(word);
    forall w {:trigger Parent(w)} | w in N' && w != [] ensures Parent(w) in N' {
      if Parent(w) != [] {
        var k :| k in K && IsPrefix(w, k);
        assert IsPrefix(Parent(w), k);
        assert Reaches(K, Parent(w));
      }
    }
    forall k | k in K ensures k in N' {
      assert IsPrefix(k, k);
      assert Reaches(K, k);
    }
  }

  lemma WithIsTrie(d: Dict, word: Word)
    requires d.Sane() && word != []
    ensures TrieOf(Extended(d.links, word).Keys, d.keys.Keys + {word})
  {
    var N, K := Extended(d.links, word).Keys, d.keys.Keys + {word};
    forall u ensures u in PrefixesOf(word) <==> IsPrefix(u, word) {
      ArePrefixes(word, u);
    }
    forall w {:trigger Parent(w)} | w in N && w != [] ensures Parent(w) in N {
      if IsPrefix(w, word) {
        assert IsPrefix(Parent(w), word);
      }
    }
    forall w | w in N && w != [] ensures Reaches(K, w) {
      if w in d.links {
        assert Reaches(d.keys.Keys, w);
        var k :| k in d.keys && IsPrefix(w, k);
        assert k in K;
      }
    }
  }

  lemma SaneWithout(d: Dict, word: Word)
    requires d.Sane()
    ensures d.Without(word).Sane()
  {
    if word in d.keys {
      NeededIsTrie(d, word);
      NeededAreNodes(d, word);
      hide TrieOf, Dict.Needed, Inside, Among;
      AmongInside(d.links, d.Needed(word));
      assert (d.keys - {word}).Keys == d.keys.Keys - {word};
    }
  }

  lemma NeededAreNodes(d: Dict, word: Word)
    ensures d.Needed(word) <= d.links.Keys
  {
  }

  lemma SaneWith(d: Dict, word: Word, value: Output)
    requires d.Sane() && word != []
    ensures d.With(word, value).Sane()
  {
    WithIsTrie(d, word);
    assert d.keys[word := value].Keys == d.keys.Keys + {word};
  }

  lemma SaneBuilt(d: Dict)
    requires d.Sane()
    ensures d.After(Op.MakeAutomaton).Sane()
  {
    assert LinksFor(d.links.Keys).Keys == d.links.Keys;
  }

  lemma SaneAfter(d: Dict, op: Op)
    requires d.Sane()
    ensures d.After(op).Sane()
  {
    hide TrieOf, Dict.Without, Dict.With;
    match op
    case AddWord(word, arg) =>
      var stored := StoredValue(d.store, word, arg, d.Count());
      if stored.Ok? && word != [] {
        SaneWith(d, word, stored.value);
      }
    case RemoveWord(word) => SaneWithout(d, word);
    case Pop(word) => SaneWithout(d, word);
    case MakeAutomaton => SaneBuilt(d);
    case _ =>
  }

  lemma {:induction false} SaneReplay(d: Dict, ops: seq<Op>)
    requires d.Sane()
    ensures d.Replay(ops).Sane()
  {
    if ops != [] {
      SaneReplay(d, ops[..|ops| - 1]);
      SaneAfter(d.Replay(ops[..|ops| - 1]), ops[|ops| - 1]);
    }
  }

  /** A removal keeps all nodes exactly if another key starts with the word. */
  lemma FreesExactly(d: Dict, op: Op)
    requires d.Sane() && d.Removes(op)
    ensures d.Needed(op.word) == d.links.Keys <==> !d.Frees(op)
  {
    var word, K := op.word, d.keys.Keys - {op.word};
    if !d.Frees(op) {
      var k :| k in d.keys && IsPrefix(word, k) && k != word;
      forall w | w in d.links && w != [] ensures Reaches(K, w) {
        assert Reaches(d.keys.Keys, w);
        var k' :| k' in d.keys && IsPrefix(w, k');
        if k' == word {
          assert IsPrefix(w, k) && k in K;
        } else {
          assert k' in K;
        }
      }
    }
  }

  // ---------------------------------------------------------------- lost words

  /** A word went unnoticed and nothing was cleared since. */
  ghost predicate LosesOne(d: Dict, ops: seq<Op>) {
    exists j :: 0 <= j < |ops| && LosesAt(d, ops, j)
  }

  ghost predicate LosesAt(d: Dict, ops: seq<Op>, j: nat)
    requires j < |ops|
  {
    d.Replay(ops[..j]).Unnoticed(ops[j]) && forall k :: j < k < |ops| ==> !ops[k].Clear?
  }

  lemma LosesAtNext(d: Dict, ops: seq<Op>, op: Op, j: nat)
    requires j < |ops|
    ensures LosesAt(d, ops + [op], j) <==> LosesAt(d, ops, j) && !op.Clear?
  {
    var all := ops + [op];
    assert all[..j] == ops[..j] && all[j] == ops[j] && all[|ops|] == op;
    if LosesAt(d, all, j) {
      forall k | j < k < |ops| ensures !ops[k].Clear? {
        assert all[k] == ops[k];
      }
    }
  }

  lemma LosesOneNext(d: Dict, ops: seq<Op>, op: Op)
    ensures LosesOne(d, ops + [op]) <==> d.Replay(ops).Unnoticed(op) || (LosesOne(d, ops) && !op.Clear?)
  {
    hide LosesAt, Dict.Unnoticed, Dict.Replay;
    var all := ops + [op];
    forall j | 0 <= j < |ops| ensures LosesAt(d, all, j) <==> LosesAt(d, ops, j) && !op.Clear? {
      LosesAtNext(d, ops, op, j);
    }
    LosesAtLast(d, ops, op);
    if LosesOne(d, ops) && !op.Clear? {
      var j :| 0 <= j < |ops| && LosesAt(d, ops, j);
      assert LosesAt(d, all, j);
    }
  }

  lemma LosesAtLast(d: Dict, ops: seq<Op>, op: Op)
    ensures LosesAt(d, ops + [op], |ops|) <==> d.Replay(ops).Unnoticed(op)
  {
    assert (ops + [op])[..|ops|] == ops;
  }

  /** `len` is the number of keys exactly if no word went unnoticed since the last clear. */
  lemma {:induction false} LostExactly(d: Dict, ops: seq<Op>)
    requires d.lost == 0
    ensures d.Replay(ops).lost == 0 <==> !LosesOne(d, ops)
    ensures d.Replay(ops).Answer(Len) == Number(|d.Replay(ops).keys|) <==> !LosesOne(d, ops)
  {
    if ops != [] {
      var before, op := ops[..|ops| - 1], ops[|ops| - 1];
      assert ops == before + [op];
      LostExactly(d, before);
      LosesOneNext(d, before, op);
      LostStep(d.Replay(before), op);
    }
  }

  lemma LostStep(d: Dict, op: Op)
    ensures d.After(op).lost == if op.Clear? then 0 else if d.Unnoticed(op) then d.lost + 1 else d.lost
  {
  }

  /** The operation stores no zero. */
  predicate StoresNonzero(op: Op) {
    op.AddWord? && op.arg.Some? ==> op.arg.value.number != Some(0)
  }

  /** While no zero is stored, no word goes unnoticed. */
  lemma {:induction false} NothingLost(d: Dict, ops: seq<Op>)
    requires (forall k :: k in d.keys ==> d.keys[k] != 0) && forall i :: 0 <= i < |ops| ==> StoresNonzero(ops[i])
    ensures forall k :: k in d.Replay(ops).keys ==> d.Replay(ops).keys[k] != 0
    ensures !LosesOne(d, ops)
  {
    if ops != [] {
      var before, op := ops[..|ops| - 1], ops[|ops| - 1];
      assert ops == before + [op];
      NothingLost(d, before);
      LosesOneNext(d, before, op);
      assert StoresNonzero(op);
    }
  }

  // ---------------------------------------------------------------- statistics

  /** A word went unnoticed after the statistics of this version were taken. */
  ghost predicate Overlooked(d: Dict, ops: seq<Op>) {
    exists j :: 0 <= j < |ops| && OverlookedAt(d, ops, j)
  }

  ghost predicate OverlookedAt(d: Dict, ops: seq<Op>, j: nat)
    requires j < |ops|
  {
    && d.Replay(ops[..j]).cached.Some? && d.Replay(ops[..j]).Unnoticed(ops[j])
    && forall k :: j < k < |ops| ==> !d.Replay(ops[..k]).Bumps(ops[k])
  }

  lemma OverlookedNext(d: Dict, ops: seq<Op>, op: Op)
    ensures Overlooked(d, ops + [op]) <==>
              (d.Replay(ops).cached.Some? && d.Replay(ops).Unnoticed(op)) ||
              (Overlooked(d, ops) && !d.Replay(ops).Bumps(op))
  {
    var all := ops + [op];
    assert all[..|ops|] == ops && all[|ops|] == op;
    forall j | 0 <= j < |ops| ensures all[..j] == ops[..j] && all[j] == ops[j] {
    }
    if d.Replay(ops).cached.Some? && d.Replay(ops).Unnoticed(op) {
      assert OverlookedAt(d, all, |ops|);
    }
    forall j | 0 <= j < |ops|
      ensures OverlookedAt(d, all, j) <==> OverlookedAt(d, ops, j) && !d.Replay(ops).Bumps(op) {
      if OverlookedAt(d, all, j) {
        forall k | j < k < |ops| ensures !d.Replay(ops[..k]).Bumps(ops[k]) {
          assert !d.Replay(all[..k]).Bumps(all[k]);
        }
        assert !d.Replay(all[..|ops|]).Bumps(all[|ops|]);
      }
    }
    if Overlooked(d, ops) && !d.Replay(ops).Bumps(op) {
      var j :| 0 <= j < |ops| && OverlookedAt(d, ops, j);
      assert OverlookedAt(d, all, j);
    }
  }

  /** What the cached statistics are worth. */
  ghost predicate Worth(d: Dict, overlooked: bool) {
    if overlooked then d.cached.Some? && d.cached.value.words > |d.keys|
    else d.cached.None? || d.cached.value == Fresh(d.links.Keys, d.keys.Keys)
  }

  lemma WorthWithout(d: Dict, word: Word, overlooked: bool)
    requires d.Sane() && Worth(d, overlooked) && word in d.keys
    ensures if d.Reported(word) then Worth(d.Without(word), false)
            else Worth(d.Without(word), overlooked || d.cached.Some?)
  {
    assert (d.keys - {word}).Keys == d.keys.Keys - {word};
  }

  lemma WorthWith(d: Dict, word: Word, value: Output, overlooked: bool)
    requires d.Sane() && Worth(d, overlooked)
    ensures Worth(d.With(word, value), overlooked && word in d.keys)
  {
    if word in d.keys {
      assert d.keys[word := value].Keys == d.keys.Keys;
      forall u | u in PrefixesOf(word) ensures u in d.links {
        ArePrefixes(word, u);
        PrefixesAreNodes(d.links.Keys, word, |u|);
      }
      assert Extended(d.links, word).Keys == d.links.Keys;
    }
  }

  lemma WorthAfter(d: Dict, op: Op, overlooked: bool)
    requires d.Sane() && Worth(d, overlooked)
    ensures Worth(d.After(op), (d.cached.Some? && d.Unnoticed(op)) || (overlooked && !d.Bumps(op)))
  {
    hide Worth, Dict.With, Dict.Without, TrieOf;
    match op
    case AddWord(word, arg) =>
      var stored := StoredValue(d.store, word, arg, d.Count());
      if stored.Ok? && word != [] {
        WorthWith(d, word, stored.value, overlooked);
      }
    case RemoveWord(word) =>
      if word in d.keys {
        WorthWithout(d, word, overlooked);
      } else {
        assert d.Without(word) == d by { WithoutNothing(d, word); }
      }
    case Pop(word) =>
      if word in d.keys {
        WorthWithout(d, word, overlooked);
      } else {
        WithoutNothing(d, word);
      }
    case _ => WorthOthers(d, op, overlooked);
  }

  lemma WithoutNothing(d: Dict, word: Word)
    requires word !in d.keys
    ensures d.Without(word) == d
  {
  }

  lemma WorthOthers(d: Dict, op: Op, overlooked: bool)
    requires Worth(d, overlooked) && !op.AddWord? && !op.RemoveWord? && !op.Pop?
    ensures Worth(d.After(op), overlooked && !d.Bumps(op))
  {
  }

  lemma {:induction false} WorthReplay(d: Dict, ops: seq<Op>)
    requires d.Sane() && Worth(d, false)
    ensures Worth(d.Replay(ops), Overlooked(d, ops))
  {
    if ops != [] {
      var before, op := ops[..|ops| - 1], ops[|ops| - 1];
      assert ops == before + [op];
      SaneReplay(d, before);
      WorthReplay(d, before);
      OverlookedNext(d, before, op);
      WorthAfter(d.Replay(before), op, Overlooked(d, before));
    }
  }

  /** At any point of a run, get_stats answers what a fresh traversal finds exactly if no word went unnoticed after the
      statistics of this version were taken. */
  lemma StatsFreshExactly(d: Dict, ops: seq<Op>)
    requires d.Sane() && (d.cached.None? || d.cached.value == Fresh(d.links.Keys, d.keys.Keys))
    ensures var e := d.Replay(ops);
            var n := |e.links|;
            var numbers := Numbers(n, |e.keys|, LongestOf(e.links.Keys), if n == 0 then 0 else n - 1);
            e.Answer(GetStats) == Statistics(numbers) <==> !Overlooked(d, ops)
  {
    hide Worth, Dict.Replay, Overlooked, Dict.Answer, LongestOf, Dict.Sane;
    NothingOverlooked(d);
    WorthReplay(d, ops);
    KnownByWorth(d.Replay(ops), Overlooked(d, ops));
  }

  lemma NothingOverlooked(d: Dict)
    requires d.cached.None? || d.cached.value == Fresh(d.links.Keys, d.keys.Keys)
    ensures Worth(d, false)
  {
  }

  lemma KnownByWorth(e: Dict, overlooked: bool)
    requires Worth(e, overlooked)
    ensures var n := |e.links|;
            var numbers := Numbers(n, |e.keys|, LongestOf(e.links.Keys), if n == 0 then 0 else n - 1);
            e.Answer(GetStats) == Statistics(numbers) <==> !overlooked
  {
    hide LongestOf;
    assert |e.links| == |e.links.Keys| && |e.keys| == |e.keys.Keys|;
  }

  // ---------------------------------------------------------------- live fail links

  lemma RemovalLinks(d: Dict, op: Op)
    requires d.Sane() && d.Removes(op)
    ensures d.After(op).links == Among(d.links, d.Needed(op.word)) && d.Needed(op.word) <= d.links.Keys
    ensures Inside(d.links)
  {
    hide TrieOf, Inside, Among;
    NeededAreNodes(d, op.word);
  }

  lemma LiveOtherwise(d: Dict, op: Op)
    requires d.Sane() && d.Live() && !d.Removes(op)
    ensures d.After(op).Live()
  {
  }

  /** Only a removal that frees nodes can make a fail link stale. */
  lemma LiveAfter(d: Dict, op: Op)
    requires d.Sane() && d.Live() && !d.Frees(op)
    ensures d.After(op).Live()
  {
    hide TrieOf, Dict.Without, Dict.Needed, Among, Dict.After;
    if d.Removes(op) {
      FreesExactly(d, op);
      RemovalLinks(d, op);
      AmongInside(d.links, d.links.Keys);
    } else {
      LiveOtherwise(d, op);
    }
  }

  /** Building the links, or clearing, leaves no stale link. */
  lemma LiveRenewed(d: Dict, op: Op)
    requires d.Sane() && (op.MakeAutomaton? || op.Clear?)
    ensures d.After(op).Live()
  {
  }

  /** Nodes were freed, and neither were the links built nor was everything cleared since. */
  ghost predicate FreesSome(d: Dict, ops: seq<Op>) {
    exists j :: 0 <= j < |ops| && FreesAt(d, ops, j)
  }

  ghost predicate FreesAt(d: Dict, ops: seq<Op>, j: nat)
    requires j < |ops|
  {
    d.Replay(ops[..j]).Frees(ops[j]) && forall k :: j < k < |ops| ==> !ops[k].MakeAutomaton? && !ops[k].Clear?
  }

  lemma FreesNext(d: Dict, ops: seq<Op>, op: Op)
    ensures d.Replay(ops).Frees(op) || (!op.MakeAutomaton? && !op.Clear? && FreesSome(d, ops)) ==>
              FreesSome(d, ops + [op])
  {
    var all := ops + [op];
    assert all[..|ops|] == ops && all[|ops|] == op;
    if d.Replay(ops).Frees(op) {
      assert FreesAt(d, all, |ops|);
    }
    if !op.MakeAutomaton? && !op.Clear? && FreesSome(d, ops) {
      var j :| 0 <= j < |ops| && FreesAt(d, ops, j);
      assert all[..j] == ops[..j] && FreesAt(d, all, j);
    }
  }

  /** Fail links are live if no node was freed since they were last built. */
  lemma {:induction false} LiveUnlessFreed(d: Dict, ops: seq<Op>)
    requires d.Sane() && d.Live() && !FreesSome(d, ops)
    ensures d.Replay(ops).Live()
  {
    if ops != [] {
      var before, op := ops[..|ops| - 1], ops[|ops| - 1];
      assert ops == before + [op];
      SaneReplay(d, before);
      FreesNext(d, before, op);
      if op.MakeAutomaton? || op.Clear? {
        LiveRenewed(d.Replay(before), op);
      } else {
        LiveUnlessFreed(d, before);
        LiveAfter(d.Replay(before), op);
      }
    }
  }

  /** The operation frees the node that the fail link of `w` leads to. */
  ghost predicate Cuts(d: Dict, op: Op, w: Word) {
    w in d.links && d.links[w].Leads? && d.links[w].word !in d.After(op).links
  }

  ghost predicate IsStale(d: Dict, w: Word) {
    w in d.links && d.links[w] == Stale
  }

  lemma StaleWithout(d: Dict, word: Word, w: Word)
    requires d.Sane() && word in d.keys && w in d.Without(word).links
    ensures w in d.links
    ensures d.Without(word).links[w] == Stale <==>
              d.links[w] == Stale || (d.links[w].Leads? && d.links[w].word !in d.Without(word).links)
  {
    hide TrieOf, Dict.Needed, LinksFor;
    NeededAreNodes(d, word);
  }

  /** A link is stale after an operation just when its node remains, the links were not built, and it was stale
      before or has now lost its target. */
  lemma StaleStep(d: Dict, op: Op, w: Word)
    requires d.Sane()
    ensures IsStale(d.After(op), w) <==>
              w in d.After(op).links && !op.MakeAutomaton? && (IsStale(d, w) || Cuts(d, op, w))
  {
    hide TrieOf, Dict.Needed, Among, LinksFor;
    if d.Removes(op) {
      assert d.After(op) == d.Without(op.word);
      if w in d.After(op).links {
        StaleWithout(d, op.word, w);
      }
    } else {
      StaleOtherwise(d, op, w);
    }
  }

  lemma StaleOtherwise(d: Dict, op: Op, w: Word)
    requires d.Sane() && !d.Removes(op)
    ensures IsStale(d.After(op), w) <==>
              w in d.After(op).links && !op.MakeAutomaton? && (IsStale(d, w) || Cuts(d, op, w))
  {
  }

  /** After step `k - 1` the node of `w` is there, and that step did not build the links. */
  ghost predicate Lasts(d: Dict, ops: seq<Op>, k: nat, w: Word)
    requires 0 < k <= |ops|
  {
    w in d.Replay(ops[..k]).links && !ops[k - 1].MakeAutomaton?
  }

  /** At step `j` the link of `w` lost its target; the node has remained, and the links were not built again. */
  ghost predicate CutAt(d: Dict, ops: seq<Op>, j: nat, w: Word)
    requires j < |ops|
  {
    Cuts(d.Replay(ops[..j]), ops[j], w) && forall k :: j < k <= |ops| ==> Lasts(d, ops, k, w)
  }

  ghost predicate CutSince(d: Dict, ops: seq<Op>, w: Word) {
    exists j :: 0 <= j < |ops| && CutAt(d, ops, j, w)
  }

  lemma LastsNext(d: Dict, ops: seq<Op>, op: Op, w: Word)
    ensures Lasts(d, ops + [op], |ops| + 1, w) <==> w in d.Replay(ops + [op]).links && !op.MakeAutomaton?
    ensures forall k {:trigger Lasts(d, ops, k, w)} {:trigger Lasts(d, ops + [op], k, w)} :: 0 < k <= |ops| ==>
              (Lasts(d, ops + [op], k, w) <==> Lasts(d, ops, k, w))
  {
    var all := ops + [op];
    assert all[..|ops| + 1] == all;
    forall k | 0 < k <= |ops| ensures Lasts(d, all, k, w) <==> Lasts(d, ops, k, w) {
      assert all[..k] == ops[..k] && all[k - 1] == ops[k - 1];
    }
  }

  lemma CutAtNext(d: Dict, ops: seq<Op>, op: Op, j: nat, w: Word)
    requires j < |ops|
    ensures CutAt(d, ops + [op], j, w) <==>
              CutAt(d, ops, j, w) && w in d.Replay(ops + [op]).links && !op.MakeAutomaton?
  {
    hide Dict.Replay, Cuts, Lasts;
    LastsNext(d, ops, op, w);
    assert (ops + [op])[..j] == ops[..j] && (ops + [op])[j] == ops[j];
    if CutAt(d, ops + [op], j, w) {
      assert Lasts(d, ops + [op], |ops| + 1, w);
    }
  }

  lemma CutAtLast(d: Dict, ops: seq<Op>, op: Op, w: Word)
    ensures CutAt(d, ops + [op], |ops|, w) <==>
              Cuts(d.Replay(ops), op, w) && w in d.Replay(ops + [op]).links && !op.MakeAutomaton?
  {
    hide Dict.Replay, Cuts, Lasts;
    LastsNext(d, ops, op, w);
    assert (ops + [op])[..|ops|] == ops && (ops + [op])[|ops|] == op;
    if CutAt(d, ops + [op], |ops|, w) {
      assert Lasts(d, ops + [op], |ops| + 1, w);
    }
  }

  lemma CutSinceNext(d: Dict, ops: seq<Op>, op: Op, w: Word)
    ensures CutSince(d, ops + [op], w) <==>
              && (CutSince(d, ops, w) || Cuts(d.Replay(ops), op, w))
              && w in d.Replay(ops + [op]).links && !op.MakeAutomaton?
  {
    hide CutAt, Cuts, Dict.Replay;
    var all := ops + [op];
    CutAtLast(d, ops, op, w);
    forall j | 0 <= j < |ops|
      ensures CutAt(d, all, j, w) <==>
                CutAt(d, ops, j, w) && w in d.Replay(all).links && !op.MakeAutomaton? {
      CutAtNext(d, ops, op, j, w);
    }
    if CutSince(d, ops, w) && w in d.Replay(all).links && !op.MakeAutomaton? {
      var j :| 0 <= j < |ops| && CutAt(d, ops, j, w);
      assert CutAt(d, all, j, w);
    }
  }

  lemma {:induction false} StaleExactly(d: Dict, ops: seq<Op>, w: Word)
    requires d.Sane() && d.Live()
    ensures IsStale(d.Replay(ops), w) <==> CutSince(d, ops, w)
  {
    hide Cuts, Dict.After;
    if ops != [] {
      var before, op := ops[..|ops| - 1], ops[|ops| - 1];
      assert ops == before + [op];
      SaneReplay(d, before);
      StaleExactly(d, before, w);
      CutSinceNext(d, before, op, w);
      AnswersNext(d, before, op);
      StaleStep(d.Replay(before), op, w);
    }
  }

  /** At any point of a run all fail links are live exactly if no remaining node had a link whose target was freed since
      the links were built. */
  lemma LiveExactlyAlong(d: Dict, ops: seq<Op>)
    requires d.Sane() && d.Live()
    ensures d.Replay(ops).Live() <==> forall w :: !CutSince(d, ops, w)
  {
    hide CutSince, Dict.Replay;
    forall w ensures IsStale(d.Replay(ops), w) <==> CutSince(d, ops, w) {
      StaleExactly(d, ops, w);
    }
    if !d.Replay(ops).Live() {
      var w :| w in d.Replay(ops).links && d.Replay(ops).links[w] == Stale;
      assert IsStale(d.Replay(ops), w);
    }
  }

  /** Right after the links were built, a removal leaves them live exactly if no fail link of a remaining node leads
      to a freed one. */
  lemma LiveExactly(d: Dict, op: Op)
    requires d.Sane() && d.kind == AhoCorasick && d.Removes(op)
    ensures [] in d.links
    ensures d.After(op).Live() <==>
              forall w :: w in d.Needed(op.word) && w != [] ==> Fail(d.links.Keys, w) in d.Needed(op.word)
  {
    assert [] in d.links;
    hide TrieOf, Dict.Without, Dict.Needed, Dict.After;
    RemovalLinks(d, op);
    AmongBuilt(d.links.Keys, d.Needed(op.word));
  }

  lemma AmongBuilt(N: set<Word>, N': set<Word>)
    requires [] in N && N' <= N
    ensures AllLive(Among(LinksFor(N), N')) <==> forall w :: w in N' && w != [] ==> Fail(N, w) in N'
  {
    if AllLive(Among(LinksFor(N), N')) {
      forall w | w in N' && w != [] ensures Fail(N, w) in N' {
        assert Among(LinksFor(N), N')[w] != Stale;
      }
    }
  }

  // ---------------------------------------------------------------- two runs that go wrong

  ghost function Start(store: Store): Dict {
    Dict(store, map[], 0, Empty, 0, None, map[])
  }

  function Adding(word: Word, ref: Reference, number: int): Op {
    AddWord(word, Some(PyObject(ref, Some(number))))
  }

  lemma AddedInts(d: Dict, word: Word, ref: Reference, number: int)
    requires d.store == Ints && word != []
    ensures d.After(Adding(word, ref, number)) == d.With(word, number)
  {
  }

  /** A key that stores zero: removing it is answered with False, and `len` still counts it. */
  lemma ZeroGoesUnnoticed(word: Word, ref: Reference)
    requires word != []
    ensures var ops := [Adding(word, ref, 0), RemoveWord(word), Len];
            Start(Ints).Answers(ops) == [Flag(Ok(true)), Flag(Ok(false)), Number(1)]
            && Start(Ints).Replay(ops).keys == map[]
  {
    hide Dict.Replay, Dict.Answers, Extended, Among, Dict.Needed;
    var start, add, remove := Start(Ints), Adding(word, ref, 0), RemoveWord(word);
    ThreeSteps(start, add, remove, Op.Len);
    AddedInts(start, word, ref, 0);
    var one := start.After(add);
    assert one.keys == map[word := 0] && one.lost == 0;
    assert one.After(remove).keys == map[] && one.After(remove).lost == 1;
  }

  /** What add_word stores is what `get` gives back: the object, the number, without one the next number, or the length.
      The errors: no object for an automaton of objects, something that is no number for one of integers. */
  lemma AddedIsGiven(d: Dict, word: Word, arg: Option<PyObject>, default: Option<Reference>)
    requires word != []
    ensures var given := d.After(AddWord(word, arg)).Answer(Get(word, default));
            match d.store
            case Any => arg.Some? ==> given == Value(Ok(Object(arg.value.ref)))
            case Length => given == Value(Ok(Integer(|word|)))
            case Ints =>
              && (arg.None? ==> given == Value(Ok(Integer(|d.keys| + d.lost + 1))))
              && (arg.Some? && arg.value.number.Some? ==> given == Value(Ok(Integer(arg.value.number.value))))
    ensures d.Answer(AddWord(word, arg)) ==
              match d.store
              case Any => Flag(if arg.Some? then Ok(word !in d.keys) else Raised(ValueError))
              case Length => Flag(Ok(word !in d.keys))
              case Ints =>
                Flag(if arg.Some? && arg.value.number.None? then Raised(TypeError) else Ok(word !in d.keys))
    ensures forall e :: d.Answer(AddWord(word, arg)) == Flag(Raised(e)) ==> d.After(AddWord(word, arg)) == d
  {
    hide Extended;
  }

  /** `pop` answers as `get` would exactly if it removes from an automaton of objects, or if the word is no key and
      `get` has no default. */
  lemma PopGivesTheValueExactly(d: Dict, word: Word, default: Option<Reference>)
    ensures d.Answer(Pop(word)) == d.Answer(Get(word, default)) <==>
              if d.Reported(word) then d.store == Any else word !in d.keys && default.None?
  {
  }

  /** A key that stores a number: `get` answers with the number, `pop` with the object at that address. */
  lemma PopGivesAnAddress(word: Word, ref: Reference, number: int, default: Option<Reference>)
    requires word != [] && number != 0
    ensures Start(Ints).Answers([Adding(word, ref, number), Get(word, default), Pop(word)]) ==
              [Flag(Ok(true)), Value(Ok(Integer(number))), Value(Ok(Object(number)))]
  {
    hide Dict.Replay, Dict.Answers, Extended, Among, Dict.Needed;
    var start, add := Start(Ints), Adding(word, ref, number);
    ThreeSteps(start, add, Get(word, default), Pop(word));
    AddedInts(start, word, ref, number);
    assert start.After(add).keys == map[word := number];
  }

  /** The keys of the second run: `y` is a suffix of `xy`, and what it stores is zero. */
  function TwoKeys(x: Letter, y: Letter): map<Word, Output> {
    map[[x, y] := 1, [y] := 0]
  }

  lemma FailOfPair(N: set<Word>, x: Letter, y: Letter)
    requires [] in N && [y] in N
    ensures Fail(N, [x, y]) == [y]
  {
    assert [x, y][1..] == [y];
  }

  /** Removing `y` after the links were built frees its node, to which the link of `xy` still leads. Nobody is told: the
      answer is False and the version stays. */
  lemma SuffixFreed(d: Dict, x: Letter, y: Letter)
    requires d.Sane() && d.kind == AhoCorasick && d.keys == TwoKeys(x, y) && x != y
    ensures d.Answer(RemoveWord([y])) == Flag(Ok(false)) && d.After(RemoveWord([y])).version == d.version
    ensures d.Unnoticed(RemoveWord([y])) && d.Frees(RemoveWord([y])) && !d.After(RemoveWord([y])).Live()
    ensures PairStays(d.links.Keys, d.Needed([y]), x, y)
  {
    var op, K := RemoveWord([y]), d.keys.Keys - {[y]};
    assert d.keys.Keys == {[x, y], [y]} && K == {[x, y]};
    PairOrder(x, y);
    PairInTrie(d.links.Keys, x, y);
    hide TrieOf, Dict.Live, Dict.Without, Among, Inside;
    LiveExactly(d, op);
    assert Fail(d.links.Keys, [x, y]) !in d.Needed([y]) && [x, y] in d.Needed([y]);
  }

  /** Among the remaining nodes are those of `xy` and its prefix, but not the one that the fail link of `xy` leads
      to. */
  ghost predicate PairStays(N: set<Word>, rest: set<Word>, x: Letter, y: Letter) {
    [] in N && [x] in rest && [x, y] in rest && [y] !in rest && Fail(N, [x, y]) == [y]
  }

  lemma PairOrder(x: Letter, y: Letter)
    requires x != y
    ensures Reaches({[x, y]}, [x]) && Reaches({[x, y]}, [x, y]) && !Reaches({[x, y]}, [y])
    ensures !IsPrefix([y], [x, y])
  {
    assert [x, y][..1] == [x];
    assert IsPrefix([x], [x, y]) && IsPrefix([x, y], [x, y]);
    assert [x, y] in {[x, y]};
    assert [x, y][0] == x && [y][0] == y;
  }

  lemma PairInTrie(N: set<Word>, x: Letter, y: Letter)
    requires TrieOf(N, {[x, y], [y]})
    ensures [] in N && [x] in N && [x, y] in N && [y] in N && Fail(N, [x, y]) == [y]
  {
    assert [x, y] in {[x, y], [y]} && [y] in {[x, y], [y]};
    PrefixesAreNodes(N, [x, y], 1);
    assert [x, y][..1] == [x];
    FailOfPair(N, x, y);
  }

  /** The run that builds the links for the two keys. */
  function PairRun(x: Letter, y: Letter, ref: Reference): seq<Op> {
    [Adding([x, y], ref, 1), Adding([y], ref, 0), MakeAutomaton]
  }

  lemma PairBuilt(x: Letter, y: Letter, ref: Reference)
    ensures var d := Start(Ints).Replay(PairRun(x, y, ref));
            d.Sane() && d.Live() && d.kind == AhoCorasick && d.keys == TwoKeys(x, y)
  {
    var start, a, b, c := Start(Ints), Adding([x, y], ref, 1), Adding([y], ref, 0), MakeAutomaton;
    var first := start.With([x, y], 1);
    var second := first.With([y], 0);
    AddedInts(start, [x, y], ref, 1);
    AddedInts(first, [y], ref, 0);
    SaneWith(start, [x, y], 1);
    SaneWith(first, [y], 0);
    SaneAfter(second, c);
    LiveRenewed(second, c);
    hide TrieOf, Extended, LinksFor, Inside, AllLive;
    ThreeSteps(start, a, b, c);
  }

  lemma ThreeSteps(d: Dict, a: Op, b: Op, c: Op)
    ensures d.Replay([a, b, c]) == d.After(a).After(b).After(c)
    ensures d.Answers([a, b, c]) == [d.Answer(a), d.After(a).Answer(b), d.After(a).After(b).Answer(c)]
  {
    hide Dict.After, Dict.Answer;
    AnswersNext(d, [], a);
    AnswersNext(d, [a], b);
    AnswersNext(d, [a, b], c);
    assert [] + [a] == [a] && [a] + [b] == [a, b] && [a, b] + [c] == [a, b, c];
  }

  /** Such a run: two keys, links, removal of the suffix. */
  lemma StaleAfterRemoval(x: Letter, y: Letter, ref: Reference)
    requires x != y
    ensures var ops := PairRun(x, y, ref);
            Start(Ints).Replay(ops).Live() && !Start(Ints).Replay(ops + [RemoveWord([y])]).Live()
            && Start(Ints).Replay(ops + [RemoveWord([y])]).version == Start(Ints).Replay(ops).version
  {
    hide Dict.Live, Dict.After, Dict.Sane, Dict.Replay, Dict.Answer, Dict.Frees, Dict.Unnoticed, PairRun, PairStays;
    PairBuilt(x, y, ref);
    SuffixFreed(Start(Ints).Replay(PairRun(x, y, ref)), x, y);
    AnswersNext(Start(Ints), PairRun(x, y, ref), RemoveWord([y]));
  }
}
