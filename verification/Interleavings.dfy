/** Iterators among updates: every step of every iterator answers as the abstract dictionary says, in any
    interleaving. */
module Interleavings {
  import opened Options
  import opened Words
  import opened Matches
  import opened Longest
  import opened TrieNodes
  import opened Automata
  import opened Tries
  import opened Traversal
  import opened Dictionary
  import opened Dicts
  import opened Views
  import opened Runs
  import Patterns
  import SearchIters
  import LongIters
  import ItemsIters

  type SearchIter = SearchIters.SearchIter
  type LongIter = LongIters.LongIter
  type ItemsIter = ItemsIters.ItemsIter

  /** Any of the three kinds of iterators. */
  datatype Iter = Finder(search: SearchIter) | Scanner(long: LongIter) | Lister(items: ItemsIter)
  {
    function Over(): Automaton {
      match this
      case Finder(search) => search.automaton
      case Scanner(long) => long.automaton
      case Lister(items) => items.automaton
    }

    ghost function Version(): int
      reads *
    {
      match this
      case Finder(search) => search.version
      case Scanner(long) => long.version
      case Lister(items) => items.version
    }

    /** The objects that a step changes. */
    ghost function Footprint(): set<object> {
      match this
      case Finder(search) => {search}
      case Scanner(long) => {long}
      case Lister(items) => {items, items.stack, items.buffer}
    }

    /** All that the iterator holds lies in these nodes. */
    ghost predicate Placed(nodes: map<Word, TrieNode>)
      reads *
    {
      match this
      case Finder(search) => search.Placed(nodes)
      case Scanner(long) => long.Placed(nodes) && long.Resting()
      case Lister(items) => items.Placed(nodes)
    }

    /** The iterator may be stepped at its version. */
    ghost predicate Ready()
      reads *
    {
      match this
      case Finder(search) => search.Ready()
      case Scanner(long) => long.Ready() && long.Resting()
      case Lister(items) => items.Ready()
    }
  }

  /** The hits still to come, by the nodes N and the keys K. */
  ghost function Coming(it: SearchIter, N: set<Word>, K: set<Word>): seq<Hit>
    requires [] in N && -1 <= it.index && it.end <= |it.input|
    reads it
  {
    At(it.index + it.shift, if it.output == Null then [] else FailChain(N, K, it.outputWord)) +
    Matches.Run(K, it.history, Feed(it.Skip(), it.input, it.index + 1, it.end, it.shift))
  }

  /** The table suits what the enumerator has on its stack. */
  ghost predicate Walkable(it: ItemsIter, T: Table)
    reads it
  {
    && it.buffer.Length > 0 && TreeTable(T) && Bounded(T.Keys, it.buffer.Length - 1)
    && forall w :: w in it.words ==> w in T
  }

  /** The index at which the slice goes on is that of the iterator, or both are past the end. */
  ghost predicate Along(left: Left, it: LongIter)
    reads it
  {
    && left.Scan? && left.text == it.input && left.end == it.end && 0 <= left.from
    && -1 <= it.index && it.end <= |it.input|
    && (left.from == it.index + 1 || (it.end <= left.from && it.end <= it.index + 1))
  }

  /** The view shows what the iterator has left, for nodes with these words and child letters and for the keys K. */
  ghost predicate Shows(it: Iter, left: Left, T: Table, K: set<Word>)
    reads *
  {
    match it
    case Finder(s) =>
      left.Hits? && [] in T && -1 <= s.index && s.end <= |s.input| && left.hits == Coming(s, T.Keys, K)
    case Scanner(l) => Along(left, l)
    case Lister(e) =>
      left.Listing? && left.kind == e.kind &&
      if T == map[] then left.keys == []
      else Walkable(e, T) && left.keys == Patterns.WalkStack(T, K, e.pattern, e.words, e.buffer.Length - 1)
  }

  // ---------------------------------------------------------------- updates

  /** Fewer keys under the same nodes leave what the view keeps. */
  lemma KeepShows(it: Iter, v: View, T: Table, K: set<Word>, K': set<Word>)
    requires Shows(it, v.left, T, K) && K' <= K
    ensures Shows(it, Keep(v, K').left, T, K')
  {
    match it
    case Finder(s) => KeepComing(s, T.Keys, K, K');
    case Scanner(_) =>
    case Lister(e) =>
      if T != map[] {
        KeptStack(T, K, K', e.pattern, e.words, e.buffer.Length - 1);
      }
  }

  lemma KeepComing(s: SearchIter, N: set<Word>, K: set<Word>, K': set<Word>)
    requires [] in N && -1 <= s.index && s.end <= |s.input| && K' <= K
    ensures KeptHits(Coming(s, N, K), K') == Coming(s, N, K')
  {
    var feed := Feed(s.Skip(), s.input, s.index + 1, s.end, s.shift);
    var ks := if s.output == Null then [] else FailChain(N, K, s.outputWord);
    KeptHitsConcat(At(s.index + s.shift, ks), Matches.Run(K, s.history, feed), K');
    KeptAt(s.index + s.shift, ks, K');
    KeptRun(K, K', s.history, feed);
    if s.output != Null {
      KeptChain(N, K, K', s.outputWord);
    }
  }

  /** The sound iterators of this version are placed among the nodes, and the views show what they have left. */
  ghost predicate Sound(its: seq<Iter>, views: seq<View>, sound: seq<bool>, version: int, nodes: map<Word, TrieNode>,
                        T: Table,
                        K: set<Word>)
    requires |its| == |views| == |sound|
    reads *
  {
    forall i :: 0 <= i < |its| && sound[i] && views[i].version == version ==>
      its[i].Placed(nodes) && Shows(its[i], views[i].left, T, K)
  }

  ghost predicate Searched(its: seq<Iter>, views: seq<View>, sound: seq<bool>, version: int)
    requires |its| == |views| == |sound|
  {
    exists i :: 0 <= i < |its| && sound[i] && views[i].version == version && !its[i].Lister?
  }

  /** The iterators over one automaton and their views; the sound ones of the current version may be stepped. */
  ghost predicate World(a: Automaton, its: seq<Iter>, views: seq<View>, sound: seq<bool>)
    reads *
  {
    && |its| == |views| == |sound|
    && (forall i :: 0 <= i < |its| ==> its[i].Over() == a && its[i].Version() == views[i].version <= a.version)
    && Sound(its, views, sound, a.version, a.nodes, TableOf(a.nodes), a.Keys().Keys)
    && (Searched(its, views, sound, a.version) ==> a.kind != Empty && Linked(a.nodes))
  }

  function LetterTable(tables: map<Word, seq<Pair>>): Table {
    map w | w in tables :: TableLetters(tables[w])
  }

  lemma TableByTables(nodes: map<Word, TrieNode>)
    ensures TableOf(nodes) == LetterTable(TablesOf(nodes))
  {
  }

  ghost predicate LinkedIn(nodes: map<Word, TrieNode>, fails: map<Word, Ptr>)
    requires fails.Keys == nodes.Keys
  {
    [] in nodes && fails[[]] == Null && forall w :: w in nodes && w != [] ==> fails[w] == To(nodes[Fail(nodes.Keys, w)])
  }

  lemma LinkedByFails(nodes: map<Word, TrieNode>)
    ensures FailsOf(nodes).Keys == nodes.Keys && (Linked(nodes) <==> LinkedIn(nodes, FailsOf(nodes)))
  {
  }

  lemma QuietKeys(d: Dict, op: Op)
    requires Quiet(d, op)
    ensures d.After(op).keys.Keys <= d.keys.Keys && d.After(op).version == d.version
  {
    hide Among, Extended, Dict.Needed;
  }

  lemma BumpedVersion(d: Dict, op: Op)
    ensures d.After(op).version == d.version + if d.Bumps(op) then 1 else 0
  {
    hide Among, Extended, Dict.Needed;
  }

  lemma EmptyWithoutNodes(a: Automaton)
    requires Valid(a)
    ensures a.kind == Empty <==> a.nodes == map[]
  {
  }

  lemma KeepSound(its: seq<Iter>, views: seq<View>, sound: seq<bool>, version: int, nodes: map<Word, TrieNode>,
                  T: Table, K: set<Word>, K': set<Word>)
    requires |its| == |views| == |sound| && Sound(its, views, sound, version, nodes, T, K) && K' <= K
    ensures Sound(its, KeepViews(views, K'), sound, version, nodes, T, K')
  {
    hide Iter.Placed, Shows;
    var kept := KeepViews(views, K');
    forall i | 0 <= i < |its| && sound[i] && kept[i].version == version
      ensures its[i].Placed(nodes) && Shows(its[i], kept[i].left, T, K') {
      KeepVersion(views[i], K');
      KeepShows(its[i], views[i], T, K, K');
    }
  }

  lemma KeepVersion(v: View, K: set<Word>)
    ensures Keep(v, K).version == v.version
  {
  }

  /** The operation itself does not touch any iterator. */
  method PerformAmong(a: Automaton, op: Op, ghost its: seq<Iter>, ghost views: seq<View>, ghost version: int,
                      ghost nodes: map<Word, TrieNode>, ghost T: Table, ghost K: set<Word>, ghost sound: seq<bool>)
      returns (reply: Reply)
    requires Valid(a) && |its| == |views| == |sound| && Sound(its, views, sound, version, nodes, T, K)
    requires forall i :: 0 <= i < |its| ==> its[i].Version() == views[i].version
    modifies a, a.nodes.Values
    ensures Valid(a) && Performed(old(DictOf(a)), a, op, reply) && Grown(a)
    ensures Quiet(old(DictOf(a)), op) ==> Unmoved(a)
    ensures Sound(its, views, sound, version, nodes, T, K)
    ensures forall i :: 0 <= i < |its| ==> its[i].Version() == views[i].version
  {
    hide Valid, Performed, DictOf, Grown, Unmoved, Quiet, Coming, Walkable, Patterns.WalkStack;
    hide SearchIter.Placed, LongIter.Placed, LongIter.Resting, ItemsIter.Placed;
    reply := Perform(a, op);
  }

  /** One operation on the automaton while iterators are on their way. */
  method Operate(a: Automaton, op: Op, ghost its: seq<Iter>, ghost views: seq<View>, ghost sound: seq<bool>)
      returns (reply: Reply, ghost views': seq<View>)
    requires Valid(a) && World(a, its, views, sound)
    modifies a, a.nodes.Values
    ensures Valid(a) && Performed(old(DictOf(a)), a, op, reply) && Grown(a)
    ensures views' == KeepViews(views, a.Keys().Keys) && World(a, its, views', SoundAfter(old(DictOf(a)), sound, op))
  {
    hide Valid, Performed, DictOf, Automaton.Keys, Linked, TableOf, TablesOf, FailsOf, Sound, Grown, Keep, LinkedIn;
    hide Searched;
    hide SoundAfter, Dict.After, Dict.Answer, Dict.Bumps, Dict.Frees, Quiet;
    ghost var d, version, nodes := DictOf(a), a.version, a.nodes;
    ghost var T, K, f := TableOf(a.nodes), a.Keys().Keys, FailsOf(a.nodes);
    DictFields(a);
    EmptyWithoutNodes(a);
    TableByTables(a.nodes);
    LinkedByFails(a.nodes);
    reply := PerformAmong(a, op, its, views, version, nodes, T, K, sound);
    views' := KeepViews(views, a.Keys().Keys);
    PerformedFields(d, a, op, reply);
    BumpedVersion(d, op);
    TableByTables(a.nodes);
    WorldAfter(a, its, views, sound, d, op, version, nodes, T, K, f);
  }

  lemma WorldAfter(a: Automaton, its: seq<Iter>, views: seq<View>, sound: seq<bool>, d: Dict, op: Op, version: int,
                   nodes: map<Word, TrieNode>, T: Table, K: set<Word>, f: map<Word, Ptr>)
    requires Valid(a) && |its| == |views| == |sound| && f.Keys == nodes.Keys
    requires forall i :: 0 <= i < |its| ==> its[i].Over() == a && its[i].Version() == views[i].version <= version
    requires Sound(its, views, sound, version, nodes, T, K)
    requires Searched(its, views, sound, version) ==> nodes != map[] && LinkedIn(nodes, f)
    requires a.version == version + (if d.Bumps(op) then 1 else 0) && d.keys.Keys == K && a.Keys() == d.After(op).keys
    requires Quiet(d, op) ==> a.nodes == nodes && TableOf(a.nodes) == T && FailsOf(a.nodes) == f
    ensures World(a, its, KeepViews(views, a.Keys().Keys), SoundAfter(d, sound, op))
  {
    hide Valid, Automaton.Keys, Linked, TableOf, FailsOf, LinkedIn, Keep, Sound, Dict.After, Dict.Bumps, Dict.Frees;
    var K' := a.Keys().Keys;
    var kept := KeepViews(views, K');
    EmptyWithoutNodes(a);
    LinkedByFails(a.nodes);
    forall i | 0 <= i < |its| ensures kept[i].version == views[i].version {
      KeepVersion(views[i], K');
    }
    var after := SoundAfter(d, sound, op);
    if Quiet(d, op) {
      assert after == sound;
      QuietKeys(d, op);
      KeepSound(its, views, sound, version, nodes, T, K, K');
      SameSearched(its, views, kept, sound, version);
    } else {
      NoneCurrent(its, kept, after, a.version, a.nodes, TableOf(a.nodes), K');
    }
  }

  lemma NoneCurrent(its: seq<Iter>, views: seq<View>, sound: seq<bool>, version: int, nodes: map<Word, TrieNode>,
                    T: Table, K: set<Word>)
    requires |its| == |views| == |sound| && forall i :: 0 <= i < |its| ==> views[i].version < version || !sound[i]
    ensures Sound(its, views, sound, version, nodes, T, K) && !Searched(its, views, sound, version)
  {
  }

  lemma SameSearched(its: seq<Iter>, views: seq<View>, views': seq<View>, sound: seq<bool>, version: int)
    requires |its| == |views| == |views'| == |sound|
    requires forall i :: 0 <= i < |its| ==> views'[i].version == views[i].version
    ensures Searched(its, views', sound, version) ==> Searched(its, views, sound, version)
  {
  }

  lemma DictFields(a: Automaton)
    ensures DictOf(a).version == a.version && DictOf(a).keys == a.Keys()
  {
  }

  lemma PerformedFields(d: Dict, a: Automaton, op: Op, reply: Reply)
    requires Performed(d, a, op, reply)
    ensures a.version == d.After(op).version && a.Keys() == d.After(op).keys
  {
  }

  // ---------------------------------------------------------------- steps

  /** One iterator of the current version may be stepped, and its view shows what it has left. */
  ghost predicate Current(a: Automaton, it: Iter, left: Left)
    reads *
  {
    && it.Placed(a.nodes) && Shows(it, left, TableOf(a.nodes), a.Keys().Keys)
    && (!it.Lister? ==> a.kind != Empty && Linked(a.nodes))
  }

  lemma FinderReady(a: Automaton, it: SearchIter)
    requires Valid(a) && it.automaton == a
    ensures it.Ready() <==> a.kind != Empty && Linked(a.nodes) && it.Placed(a.nodes)
  {
  }

  lemma FinderPending(it: SearchIter)
    requires it.Ready()
    ensures [] in TableOf(it.automaton.nodes) && -1 <= it.index && it.end <= |it.input|
    ensures TableOf(it.automaton.nodes).Keys == it.automaton.nodes.Keys
    ensures it.Pending() == Coming(it, it.automaton.nodes.Keys, it.automaton.Keys().Keys)
  {
  }

  function Seen(r: SearchIters.Result): Answer {
    match r
    case Yield(report) => Match(report)
    case Stop => Answer.Stop
    case Invalid => Changed
  }

  /** What a step of a search iterator makes of its view. */
  lemma FinderStepped(v: View, d: Dict, before: seq<Hit>, after: seq<Hit>, r: SearchIters.Result)
    requires v.version == d.version && v.left == Hits(before) && !r.Invalid?
    requires match r
             case Yield(report) => SearchIters.Emits(d.keys, before, after, report)
             case _ => before == [] == after
    ensures Seen(r) == AnswerOf(v, d) && Stepped(v, d) == View(v.version, Hits(after))
  {
  }

  method StepFinder(a: Automaton, it: SearchIter, ghost v: View) returns (answer: Answer)
    requires Valid(a) && it.automaton == a && it.version == v.version
    requires v.version == a.version ==> Current(a, Finder(it), v.left)
    modifies it`index, it`state, it`output, it`history, it`outputWord, it`lookups
    ensures answer == AnswerOf(v, DictOf(a))
    ensures v.version == a.version ==> Current(a, Finder(it), Stepped(v, DictOf(a)).left)
  {
    hide Valid, Linked, TableOf, Automaton.Keys, States, SearchIter.Placed, SearchIter.Ready, SearchIter.Pending;
    hide Coming;
    hide SearchIter.FinalHistory, SearchIter.Extra, SearchIters.Emits, Stepped, AnswerOf;
    if it.version != a.version {
      OldView(v, DictOf(a));
      return Changed;
    }
    FinderReady(a, it);
    FinderPending(it);
    ghost var before := it.Pending();
    var r := it.Next();
    FinderReady(a, it);
    FinderPending(it);
    FinderStepped(v, DictOf(a), before, it.Pending(), r);
    answer := Seen(r);
  }

  lemma OldView(v: View, d: Dict)
    requires v.version != d.version
    ensures AnswerOf(v, d) == Changed && Stepped(v, d) == v
  {
  }

  lemma ScannerReady(a: Automaton, it: LongIter)
    requires Valid(a) && it.automaton == a && it.Resting()
    ensures it.Ready() <==> a.kind != Empty && Linked(a.nodes) && it.Placed(a.nodes)
    ensures it.Ready() ==> [] in a.nodes && -1 <= it.index && it.end <= |it.input|
    ensures it.Ready() ==> it.Pending() == LongRun(a.nodes.Keys, a.Keys().Keys, it.input, it.index + 1, it.end)
  {
  }

  lemma ScanEnded(N: set<Word>, K: set<Word>, text: Word, from: int, end: int)
    requires [] in N && 0 <= from && end <= |text| && end <= from
    ensures Long(N, K, text, [], from, end, None) == None && LongRun(N, K, text, from, end) == []
  {
  }

  /** What a step of a longest-match iterator makes of its view. */
  lemma ScannerStepped(v: View, d: Dict, it: LongIter, before: seq<Hit>, r: SearchIters.Result)
    requires v.version == d.version && v.left.Scan? && !r.Invalid? && 0 <= v.left.from && [] in d.links
    requires v.left.text == it.input && v.left.end == it.end && -1 <= it.index && it.end <= |it.input|
    requires before == LongRun(d.links.Keys, d.keys.Keys, v.left.text, v.left.from, v.left.end)
    requires match r
             case Yield(report) =>
               before != [] && before[0].key in d.keys && it.index == report.index &&
               report == SearchIters.Report(before[0].end, d.keys[before[0].key])
             case _ => before == [] && it.end <= it.index
    ensures Seen(r) == AnswerOf(v, d) && Along(Stepped(v, d).left, it)
  {
    hide Long;
    LongRunNext(d.links.Keys, d.keys.Keys, v.left.text, v.left.from, v.left.end);
  }

  method StepScanner(a: Automaton, it: LongIter, ghost v: View) returns (answer: Answer)
    requires Valid(a) && it.automaton == a && it.version == v.version
    requires v.version == a.version ==> Current(a, Scanner(it), v.left)
    modifies it`state, it`stateWord, it`index, it`lastNode, it`lastWord, it`lastIndex
    ensures answer == AnswerOf(v, DictOf(a))
    ensures v.version == a.version ==> Current(a, Scanner(it), Stepped(v, DictOf(a)).left)
  {
    hide Valid, Linked, TableOf, Automaton.Keys, States, LongIter.Placed, LongIter.Ready, LongIter.Pending;
    hide LongIter.NextReads;
    hide LongIter.AllReads, LongRun, Stepped, AnswerOf, Dict.Sane;
    if it.version != a.version {
      OldView(v, DictOf(a));
      return Changed;
    }
    ScannerReady(a, it);
    ValidIsSane(a);
    ScanFrom(v.left, it, a.nodes.Keys, a.Keys().Keys);
    ghost var before := it.Pending();
    var r;
    ghost var letters;
    r, letters := it.Next();
    ScannerReady(a, it);
    ScannerStepped(v, DictOf(a), it, before, r);
    answer := Seen(r);
  }

  lemma ScanFrom(left: Left, it: LongIter, N: set<Word>, K: set<Word>)
    requires Along(left, it) && [] in N
    ensures LongRun(N, K, left.text, left.from, left.end) == LongRun(N, K, it.input, it.index + 1, it.end)
  {
    if left.from != it.index + 1 {
      ScanEnded(N, K, left.text, left.from, left.end);
      ScanEnded(N, K, left.text, it.index + 1, it.end);
    }
  }

  lemma ListerReady(a: Automaton, it: ItemsIter)
    requires Valid(a) && it.automaton == a
    ensures it.Ready() <==> it.Placed(a.nodes)
  {
  }

  lemma ListerPending(it: ItemsIter)
    requires it.Ready()
    ensures Shows(Lister(it), Listing(it.kind, it.Pending()), TableOf(it.automaton.nodes), it.automaton.Keys().Keys)
  {
    it.Pends(TableOf(it.automaton.nodes), it.automaton.Keys().Keys);
    assert TableOf(it.automaton.nodes).Keys == it.automaton.nodes.Keys;
  }

  lemma ShownKeys(it: ItemsIter, left: Left, T: Table, K: set<Word>, keys: seq<Word>)
    requires Shows(Lister(it), left, T, K) && Shows(Lister(it), Listing(it.kind, keys), T, K)
    ensures left == Listing(it.kind, keys)
  {
  }

  function Enumerated(r: ItemsIters.Result): Answer {
    match r
    case Yield(item) => Listed(item)
    case Stop => Answer.Stop
    case Invalid => Changed
  }

  lemma ListerStepped(v: View, d: Dict, it: ItemsIter, before: seq<Word>, r: ItemsIters.Result)
    requires it.Ready() && v.version == d.version && v.left == Listing(it.kind, before) && it.automaton.Keys() == d.keys
    requires !r.Invalid? && it.Stepped(before, r)
    ensures Enumerated(r) == AnswerOf(v, d) && Stepped(v, d) == View(v.version, Listing(it.kind, it.Pending()))
  {
    hide ItemsIter.Ready, ItemsIter.Pending;
  }

  method StepLister(a: Automaton, it: ItemsIter, ghost v: View) returns (answer: Answer)
    requires Valid(a) && it.automaton == a && it.version == v.version
    requires v.version == a.version ==> Current(a, Lister(it), v.left)
    modifies it.stack, it.buffer, it`words
    ensures answer == AnswerOf(v, DictOf(a))
    ensures v.version == a.version ==> Current(a, Lister(it), Stepped(v, DictOf(a)).left)
  {
    hide Valid, TableOf, Automaton.Keys, States, ItemsIter.Placed, ItemsIter.Ready, ItemsIter.Pending;
    hide ItemsIter.Stepped;
    hide Shows, Stepped, AnswerOf;
    if it.version != a.version {
      OldView(v, DictOf(a));
      return Changed;
    }
    ListerReady(a, it);
    ListerPending(it);
    ghost var before := it.Pending();
    ShownKeys(it, v.left, TableOf(a.nodes), a.Keys().Keys, before);
    var r := it.Next();
    ListerReady(a, it);
    ListerPending(it);
    it.NotInvalid(before, r);
    ListerStepped(v, DictOf(a), it, before, r);
    answer := Enumerated(r);
  }

  /** No two iterators share anything that a step changes. */
  ghost predicate Apart(its: seq<Iter>) {
    forall i, j :: 0 <= i < j < |its| ==> its[i].Footprint() !! its[j].Footprint()
  }

  /** A step of any iterator. */
  method StepIter(a: Automaton, it: Iter, ghost v: View) returns (answer: Answer)
    requires Valid(a) && it.Over() == a && it.Version() == v.version
    requires (v.version == a.version ==> Current(a, it, v.left))
    modifies it.Footprint()
    ensures answer == AnswerOf(v, DictOf(a)) && it.Version() == v.version
    ensures v.version == a.version ==> Current(a, it, Stepped(v, DictOf(a)).left)
  {
    hide Valid, Current, AnswerOf, Stepped, DictOf;
    match it
    case Finder(search) => answer := StepFinder(a, search, v);
    case Scanner(long) => answer := StepScanner(a, long, v);
    case Lister(items) => answer := StepLister(a, items, v);
  }

  lemma SteppedVersion(v: View, d: Dict)
    ensures Stepped(v, d).version == v.version
  {
  }

  /** As `Sound`, for all iterators but one. */
  ghost predicate OthersSound(its: seq<Iter>, views: seq<View>, sound: seq<bool>, i: nat, version: int,
                              nodes: map<Word, TrieNode>, T: Table, K: set<Word>)
    requires |its| == |views| == |sound|
    reads *
  {
    forall j :: 0 <= j < |its| && j != i && sound[j] && views[j].version == version ==>
      its[j].Placed(nodes) && Shows(its[j], views[j].left, T, K)
  }

  /** A step of one iterator does not touch the others. */
  method StepApart(a: Automaton, its: seq<Iter>, i: nat, ghost views: seq<View>, ghost sound: seq<bool>)
      returns (answer: Answer)
    requires Valid(a) && |its| == |views| == |sound| && Apart(its) && i < |its|
    requires its[i].Over() == a && forall j :: 0 <= j < |its| ==> its[j].Version() == views[j].version
    requires views[i].version == a.version ==> Current(a, its[i], views[i].left)
    requires OthersSound(its, views, sound, i, a.version, a.nodes, TableOf(a.nodes), a.Keys().Keys)
    modifies its[i].Footprint()
    ensures answer == AnswerOf(views[i], DictOf(a))
    ensures forall j :: 0 <= j < |its| ==> its[j].Version() == views[j].version
    ensures views[i].version == a.version ==> Current(a, its[i], Stepped(views[i], DictOf(a)).left)
    ensures OthersSound(its, views, sound, i, a.version, a.nodes, TableOf(a.nodes), a.Keys().Keys)
  {
    hide Valid, AnswerOf, Stepped, DictOf, TableOf, Automaton.Keys, Linked, Coming, Walkable, Patterns.WalkStack;
    hide Current;
    hide SearchIter.Placed, LongIter.Placed, LongIter.Resting, ItemsIter.Placed;
    answer := StepIter(a, its[i], views[i]);
  }

  lemma SoundParts(a: Automaton, its: seq<Iter>, views: seq<View>, sound: seq<bool>, i: nat)
    requires World(a, its, views, sound) && i < |its|
    ensures |its| == |views| == |sound| && its[i].Over() == a
    ensures forall j :: 0 <= j < |its| ==> its[j].Version() == views[j].version
    ensures sound[i] && views[i].version == a.version ==> Current(a, its[i], views[i].left)
    ensures OthersSound(its, views, sound, i, a.version, a.nodes, TableOf(a.nodes), a.Keys().Keys)
    ensures Searched(its, views, sound, a.version) ==> a.kind != Empty && Linked(a.nodes)
    ensures forall j :: 0 <= j < |its| ==> its[j].Over() == a && views[j].version <= a.version
  {
    hide Linked, TableOf, Automaton.Keys, Shows, Iter.Placed;
  }

  lemma WorldStepped(a: Automaton, its: seq<Iter>, views: seq<View>, sound: seq<bool>, i: nat, left: Left)
    requires |its| == |views| == |sound| && i < |its|
    requires forall j :: 0 <= j < |its| ==> its[j].Over() == a && its[j].Version() == views[j].version <= a.version
    requires sound[i] && views[i].version == a.version ==> Current(a, its[i], left)
    requires OthersSound(its, views, sound, i, a.version, a.nodes, TableOf(a.nodes), a.Keys().Keys)
    requires Searched(its, views, sound, a.version) ==> a.kind != Empty && Linked(a.nodes)
    ensures World(a, its, views[i := View(views[i].version, left)], sound)
  {
    hide Linked, TableOf, Automaton.Keys, Shows, Iter.Placed;
    var views' := views[i := View(views[i].version, left)];
    SameSearched(its, views, views', sound, a.version);
  }

  /** A step of one iterator among the others. */
  method StepOne(a: Automaton, its: seq<Iter>, i: nat, ghost views: seq<View>, ghost sound: seq<bool>)
      returns (answer: Answer, ghost views': seq<View>)
    requires Valid(a) && World(a, its, views, sound) && Apart(its) && i < |its|
    requires i < |sound| && i < |views| && (sound[i] || views[i].version != a.version)
    modifies its[i].Footprint()
    ensures Valid(a) && DictOf(a) == old(DictOf(a))
    ensures answer == AnswerOf(views[i], DictOf(a)) && views' == views[i := Stepped(views[i], DictOf(a))]
    ensures World(a, its, views', sound)
  {
    hide Valid, AnswerOf, Stepped, DictOf, TableOf, Automaton.Keys, Linked, OthersSound, Current, World, Searched;
    hide Apart;
    ghost var d := DictOf(a);
    SoundParts(a, its, views, sound, i);
    SteppedVersion(views[i], d);
    answer := StepApart(a, its, i, views, sound);
    views' := views[i := Stepped(views[i], d)];
    WorldStepped(a, its, views, sound, i, Stepped(views[i], d).left);
  }

  // ---------------------------------------------------------------- interleavings

  ghost function Versions(views: seq<View>): (r: seq<int>)
    ensures |r| == |views| && forall i :: 0 <= i < |r| ==> r[i] == views[i].version
  {
    seq(|views|, i requires 0 <= i < |views| => views[i].version)
  }

  ghost function Footprints(its: seq<Iter>): set<object> {
    set i, o | 0 <= i < |its| && o in its[i].Footprint() :: o
  }

  /** What an action does to the rest of a run. */
  lemma UpdateFirst(d: Dict, views: seq<View>, sound: seq<bool>, actions: seq<Action>, begun: seq<View>)
    requires actions != [] && actions[0].Update? && |sound| == |views| && AllInBounds(actions)
    ensures var op, rest := actions[0].op, actions[1..];
            && AllInBounds(rest) && |KeepViews(views, d.After(op).keys.Keys)| == |views|
            && Trace(d, views, actions, begun)
                 == [Replied(d.Answer(op))] + Trace(d.After(op), KeepViews(views, d.After(op).keys.Keys), rest, begun)
            && SoundAtEnd(d, sound, actions) == SoundAtEnd(d.After(op), SoundAfter(d, sound, op), rest)
            && Versions(KeepViews(views, d.After(op).keys.Keys)) == Versions(views)
            && (Safe(d, sound, Versions(views), actions) ==>
                  Safe(d.After(op), SoundAfter(d, sound, op), Versions(views), rest))
            && d.Replay(Updates(actions)) == d.After(op).Replay(Updates(rest))
            && AllSuit(d, actions, begun) == AllSuit(d.After(op), rest, begun)
  {
    hide Dict.After, Dict.Answer, SoundAfter, Dict.Replay, Keep;
    InBoundsRest(actions);
    ReplayFirst(d, actions[0].op, Updates(actions[1..]));
    forall i | 0 <= i < |views| ensures Keep(views[i], d.After(actions[0].op).keys.Keys).version == views[i].version {
      KeepVersion(views[i], d.After(actions[0].op).keys.Keys);
    }
  }

  lemma InBoundsRest(actions: seq<Action>)
    requires AllInBounds(actions) && actions != []
    ensures AllInBounds(actions[1..]) && (actions[0].Open? ==> actions[0].request.InBounds())
  {
  }

  lemma StepFirst(d: Dict, views: seq<View>, sound: seq<bool>, actions: seq<Action>, begun: seq<View>)
    requires actions != [] && actions[0].Step? && |sound| == |views| && Safe(d, sound, Versions(views), actions)
    requires AllInBounds(actions)
    ensures var i, rest := actions[0].i, actions[1..];
            && AllInBounds(rest) && i < |views| && (sound[i] || views[i].version != d.version)
            && Trace(d, views, actions, begun)
                 == [AnswerOf(views[i], d)] + Trace(d, views[i := Stepped(views[i], d)], rest, begun)
            && SoundAtEnd(d, sound, actions) == SoundAtEnd(d, sound, rest)
            && Versions(views[i := Stepped(views[i], d)]) == Versions(views) && Safe(d, sound, Versions(views), rest)
            && Updates(actions) == Updates(rest)
            && AllSuit(d, actions, begun) == AllSuit(d, rest, begun)
  {
    hide AnswerOf, Stepped;
    InBoundsRest(actions);
    SteppedVersion(views[actions[0].i], d);
  }

  lemma OpenFirst(d: Dict, views: seq<View>, sound: seq<bool>, actions: seq<Action>, v: View, begun: seq<View>)
    requires actions != [] && actions[0].Open? && |sound| == |views| && Safe(d, sound, Versions(views), actions)
    requires AllInBounds(actions)
    ensures AllInBounds(actions[1..]) && actions[0].request.InBounds() && Updates(actions) == Updates(actions[1..])
    ensures var rest := actions[1..];
            if Refuses(d, actions[0].request) then
              && Trace(d, views, actions, begun) == [Refused] + Trace(d, views, rest, begun)
              && SoundAtEnd(d, sound, actions) == SoundAtEnd(d, sound, rest) && Safe(d, sound, Versions(views), rest)
              && AllSuit(d, actions, begun) == AllSuit(d, rest, begun)
            else
              && Trace(d, views, actions, [v] + begun) == [Opened] + Trace(d, views + [v], rest, begun)
              && SoundAtEnd(d, sound, actions) == SoundAtEnd(d, sound + [true], rest)
              && (v.version == d.version ==> Safe(d, sound + [true], Versions(views + [v]), rest))
              && (AllSuit(d, actions, [v] + begun) <==> Suits(d, actions[0].request, v) && AllSuit(d, rest, begun))
  {
    hide Suits;
    InBoundsRest(actions);
    assert ([v] + begun)[0] == v && ([v] + begun)[1..] == begun;
    assert v.version == d.version ==> Versions(views + [v]) == Versions(views) + [d.version];
  }

  /** Whatever iterators are made later, the run from the start gives `answers` and goes on as the rest does. */
  ghost predicate SoFar(d: Dict, views: seq<View>, actions: seq<Action>, begun: seq<View>, answers: seq<Answer>,
                        now: Dict, views': seq<View>, rest: seq<Action>)
  {
    && AllInBounds(actions) && AllInBounds(rest)
    && forall later :: GoesOn(d, views, actions, begun, answers, now, views', rest, later)
  }

  ghost predicate GoesOn(d: Dict, views: seq<View>, actions: seq<Action>, begun: seq<View>, answers: seq<Answer>,
                         now: Dict, views': seq<View>, rest: seq<Action>, later: seq<View>)
    requires AllInBounds(actions) && AllInBounds(rest)
  {
    && Trace(d, views, actions, begun + later) == answers + Trace(now, views', rest, later)
    && AllSuit(d, actions, begun + later) == AllSuit(now, rest, later)
  }

  lemma SoFarStart(d: Dict, views: seq<View>, actions: seq<Action>)
    requires AllInBounds(actions)
    ensures SoFar(d, views, actions, [], [], d, views, actions)
  {
    forall later ensures GoesOn(d, views, actions, [], [], d, views, actions, later) {
      assert [] + later == later;
    }
  }

  lemma SoFarRest(d: Dict, views: seq<View>, actions: seq<Action>, begun: seq<View>, answers: seq<Answer>,
                  now: Dict, views': seq<View>, rest: seq<Action>)
    requires SoFar(d, views, actions, begun, answers, now, views', rest) && rest != []
    ensures AllInBounds(rest) && (rest[0].Open? ==> rest[0].request.InBounds())
  {
  }

  lemma SoFarUpdate(d: Dict, views: seq<View>, actions: seq<Action>, begun: seq<View>, answers: seq<Answer>,
                    now: Dict, views': seq<View>, rest: seq<Action>, sound: seq<bool>)
    requires SoFar(d, views, actions, begun, answers, now, views', rest) && rest != [] && rest[0].Update?
    requires |sound| == |views'|
    ensures var next := now.After(rest[0].op);
            SoFar(d, views, actions, begun, answers + [Replied(now.Answer(rest[0].op))], next,
                  KeepViews(views', next.keys.Keys), rest[1..])
  {
    hide Trace, AllSuit, Dict.After, Dict.Answer, SoundAtEnd, Safe, Versions, Keep, SoundAfter, Dict.Replay, Updates;
    InBoundsRest(rest);
    var next := now.After(rest[0].op);
    var kept, given := KeepViews(views', next.keys.Keys), answers + [Replied(now.Answer(rest[0].op))];
    forall later ensures GoesOn(d, views, actions, begun, given, next, kept, rest[1..], later) {
      assert GoesOn(d, views, actions, begun, answers, now, views', rest, later);
      UpdateFirst(now, views', sound, rest, later);
    }
  }

  lemma SoFarStep(d: Dict, views: seq<View>, actions: seq<Action>, begun: seq<View>, answers: seq<Answer>,
                  now: Dict, views': seq<View>, rest: seq<Action>, sound: seq<bool>)
    requires SoFar(d, views, actions, begun, answers, now, views', rest) && rest != [] && rest[0].Step?
    requires |sound| == |views'| && Safe(now, sound, Versions(views'), rest)
    ensures var i := rest[0].i;
            i < |views'| && SoFar(d, views, actions, begun, answers + [AnswerOf(views'[i], now)], now,
                                  views'[i := Stepped(views'[i], now)], rest[1..])
  {
    hide Trace, AllSuit, SoundAtEnd, Safe, Versions, AnswerOf, Stepped, Updates;
    InBoundsRest(rest);
    var i := rest[0].i;
    StepFirst(now, views', sound, rest, []);
    var next, given := views'[i := Stepped(views'[i], now)], answers + [AnswerOf(views'[i], now)];
    forall later ensures GoesOn(d, views, actions, begun, given, now, next, rest[1..], later) {
      assert GoesOn(d, views, actions, begun, answers, now, views', rest, later);
      StepFirst(now, views', sound, rest, later);
    }
  }

  lemma SoFarRefused(d: Dict, views: seq<View>, actions: seq<Action>, begun: seq<View>, answers: seq<Answer>,
                     now: Dict, views': seq<View>, rest: seq<Action>, sound: seq<bool>)
    requires SoFar(d, views, actions, begun, answers, now, views', rest) && rest != [] && rest[0].Open?
    requires |sound| == |views'| && Safe(now, sound, Versions(views'), rest) && Refuses(now, rest[0].request)
    ensures SoFar(d, views, actions, begun, answers + [Refused], now, views', rest[1..])
  {
    hide Trace, AllSuit, SoundAtEnd, Safe, Versions, Suits, Updates;
    InBoundsRest(rest);
    forall later ensures GoesOn(d, views, actions, begun, answers + [Refused], now, views', rest[1..], later) {
      assert GoesOn(d, views, actions, begun, answers, now, views', rest, later);
      OpenFirst(now, views', sound, rest, View(0, Hits([])), later);
    }
  }

  lemma SoFarOpened(d: Dict, views: seq<View>, actions: seq<Action>, begun: seq<View>, answers: seq<Answer>,
                    now: Dict, views': seq<View>, rest: seq<Action>, sound: seq<bool>, v: View)
    requires SoFar(d, views, actions, begun, answers, now, views', rest) && rest != [] && rest[0].Open?
    requires |sound| == |views'| && Safe(now, sound, Versions(views'), rest) && !Refuses(now, rest[0].request)
    requires rest[0].request.InBounds() && Suits(now, rest[0].request, v)
    ensures SoFar(d, views, actions, begun + [v], answers + [Opened], now, views' + [v], rest[1..])
  {
    hide Trace, AllSuit, SoundAtEnd, Safe, Versions, Suits, Updates;
    InBoundsRest(rest);
    forall later
      ensures GoesOn(d, views, actions, begun + [v], answers + [Opened], now, views' + [v], rest[1..], later) {
      assert begun + [v] + later == begun + ([v] + later);
      assert GoesOn(d, views, actions, begun, answers, now, views', rest, [v] + later);
      OpenFirst(now, views', sound, rest, v, later);
    }
  }

  lemma SoFarEnd(d: Dict, views: seq<View>, actions: seq<Action>, begun: seq<View>, answers: seq<Answer>,
                 now: Dict, views': seq<View>)
    requires SoFar(d, views, actions, begun, answers, now, views', [])
    ensures AllInBounds(actions) && answers == Trace(d, views, actions, begun) && AllSuit(d, actions, begun)
  {
    assert GoesOn(d, views, actions, begun, answers, now, views', [], []);
    assert begun + [] == begun;
  }

  // ---------------------------------------------------------------- new iterators

  lemma NewFinder(s: SearchIter, start: int)
    requires s.Ready() && s.output == Null && s.history == [] && s.shift == 0 && s.index == start - 1 && 0 <= start
    ensures s.end <= |s.input|
    ensures s.Pending() == Matches.Run(s.automaton.Keys().Keys, [], Feed(s.Skip(), s.input, start, s.end, 0))
  {
  }

  method MakeFinder(a: Automaton, request: Request) returns (it: Iter, ghost v: View)
    requires Valid(a) && request.Find? && request.InBounds() && !Refuses(DictOf(a), request)
    ensures fresh(it.Footprint()) && it.Over() == a && it.Version() == v.version == a.version
    ensures Current(a, it, v.left) && Suits(DictOf(a), request, v)
  {
    hide Valid, Linked, TableOf, Automaton.Keys, States, SearchIter.Placed, SearchIter.Ready, SearchIter.Pending;
    hide Coming, Automaton.Shape, SearchIter.Extra;
    ValidParts(a, BooksOf(a), a.nodes.Keys, a.Keys());
    SturdyParts(a);
    var s := new SearchIters.SearchIter(a, request.text, request.start, request.end, request.isSpace,
                                        request.ignoreWhiteSpace);
    FinderReady(a, s);
    FinderPending(s);
    NewFinder(s, request.start);
    it, v := Finder(s), View(a.version, Hits(s.Pending()));
  }

  method MakeScanner(a: Automaton, request: Request) returns (it: Iter, ghost v: View)
    requires Valid(a) && request.FindLong? && request.InBounds() && !Refuses(DictOf(a), request)
    ensures fresh(it.Footprint()) && it.Over() == a && it.Version() == v.version == a.version
    ensures Current(a, it, v.left) && Suits(DictOf(a), request, v)
  {
    hide Valid, Linked, TableOf, Automaton.Keys, States, LongIter.Placed, LongIter.Ready, LongIter.Pending;
    hide Automaton.Shape;
    ValidParts(a, BooksOf(a), a.nodes.Keys, a.Keys());
    SturdyParts(a);
    var l := new LongIters.LongIter(a, request.text, request.start, request.end);
    ScannerReady(a, l);
    it, v := Scanner(l), View(a.version, Scan(request.text, request.start, request.end));
  }

  lemma ListerSuits(a: Automaton, e: ItemsIter, request: Request)
    requires Valid(a) && request.List? && e.automaton == a && e.Ready() && e.pattern == request.pattern
    requires e.kind == request.kind && e.words == [[]] && e.buffer.Length == a.longestWord + 1
    ensures Suits(DictOf(a), request, View(a.version, Listing(e.kind, e.Pending())))
  {
    hide States, ItemsIters.Matching, ItemsIter.Pending;
    ItemsIters.Begins(e);
    ItemsIters.MatchingKeys(a, request.pattern);
  }

  method MakeLister(a: Automaton, request: Request) returns (it: Iter, ghost v: View)
    requires Valid(a) && request.List?
    ensures fresh(it.Footprint()) && it.Over() == a && it.Version() == v.version == a.version
    ensures Current(a, it, v.left) && Suits(DictOf(a), request, v)
  {
    hide Valid, Linked, TableOf, Automaton.Keys, States, ItemsIter.Placed, ItemsIter.Ready, ItemsIter.Pending;
    hide Automaton.Shape, Bounded, Suits, Books.Fit;
    ValidParts(a, BooksOf(a), a.nodes.Keys, a.Keys());
    SturdyParts(a);
    FitBounds(BooksOf(a), a.nodes.Keys, a.Keys());
    var e := new ItemsIters.ItemsIter(a, request.pattern, request.kind, request.junk);
    ListerReady(a, e);
    ListerPending(e);
    ListerSuits(a, e, request);
    it, v := Lister(e), View(a.version, Listing(e.kind, e.Pending()));
  }

  lemma FitBounds(b: Books, N: set<Word>, keys: map<Word, Output>)
    requires b.Fit(N, keys)
    ensures b.longestWord >= 0 && Bounded(N, b.longestWord)
  {
  }

  method Make(a: Automaton, request: Request) returns (it: Iter, ghost v: View)
    requires Valid(a) && request.InBounds() && !Refuses(DictOf(a), request)
    ensures fresh(it.Footprint()) && it.Over() == a && it.Version() == v.version == a.version
    ensures Current(a, it, v.left) && Suits(DictOf(a), request, v)
  {
    hide Valid, Current, Suits, DictOf;
    match request
    case Find(_, _, _, _, _) => it, v := MakeFinder(a, request);
    case FindLong(_, _, _) => it, v := MakeScanner(a, request);
    case List(_, _, _) => it, v := MakeLister(a, request);
  }

  /** Making an iterator does not touch the others. */
  method MakeApart(a: Automaton, its: seq<Iter>, request: Request, ghost views: seq<View>, ghost sound: seq<bool>)
      returns (it: Iter, ghost v: View)
    requires Valid(a) && request.InBounds() && !Refuses(DictOf(a), request) && |its| == |views| == |sound|
    requires Sound(its, views, sound, a.version, a.nodes, TableOf(a.nodes), a.Keys().Keys)
    requires forall i :: 0 <= i < |its| ==> its[i].Version() == views[i].version
    ensures fresh(it.Footprint()) && it.Over() == a && it.Version() == v.version == a.version
    ensures Current(a, it, v.left) && Suits(DictOf(a), request, v)
    ensures Sound(its, views, sound, a.version, a.nodes, TableOf(a.nodes), a.Keys().Keys)
    ensures forall i :: 0 <= i < |its| ==> its[i].Version() == views[i].version
  {
    hide Valid, DictOf, TableOf, Automaton.Keys, Linked, Coming, Walkable, Patterns.WalkStack, Current, Suits, Refuses;
    hide SearchIter.Placed, LongIter.Placed, LongIter.Resting, ItemsIter.Placed;
    it, v := Make(a, request);
  }

  lemma WorldParts(a: Automaton, its: seq<Iter>, views: seq<View>, sound: seq<bool>)
    requires World(a, its, views, sound)
    ensures |its| == |views| == |sound|
    ensures forall i :: 0 <= i < |its| ==> its[i].Over() == a && its[i].Version() == views[i].version <= a.version
    ensures Sound(its, views, sound, a.version, a.nodes, TableOf(a.nodes), a.Keys().Keys)
    ensures Searched(its, views, sound, a.version) ==> a.kind != Empty && Linked(a.nodes)
  {
    hide Sound, Searched, Linked, TableOf, Automaton.Keys;
  }

  lemma WorldBegun(a: Automaton, its: seq<Iter>, views: seq<View>, sound: seq<bool>, it: Iter, v: View)
    requires |its| == |views| == |sound|
    requires forall i :: 0 <= i < |its| ==> its[i].Over() == a && its[i].Version() == views[i].version <= a.version
    requires Sound(its, views, sound, a.version, a.nodes, TableOf(a.nodes), a.Keys().Keys)
    requires Searched(its, views, sound, a.version) ==> a.kind != Empty && Linked(a.nodes)
    requires it.Over() == a && it.Version() == v.version == a.version && Current(a, it, v.left)
    ensures World(a, its + [it], views + [v], sound + [true])
  {
    hide Linked, TableOf, Automaton.Keys, Shows, Iter.Placed;
    var its', views', sound' := its + [it], views + [v], sound + [true];
    if i :| 0 <= i < |its'| && sound'[i] && views'[i].version == a.version && !its'[i].Lister? {
      assert i < |its| ==> its[i] == its'[i];
    }
  }

  /** A new iterator among the others. */
  method OpenOne(a: Automaton, its: seq<Iter>, request: Request, ghost views: seq<View>, ghost sound: seq<bool>)
      returns (it: Iter, ghost v: View)
    requires Valid(a) && World(a, its, views, sound) && Apart(its)
    requires request.InBounds() && !Refuses(DictOf(a), request)
    ensures fresh(it.Footprint()) && v.version == a.version && Suits(DictOf(a), request, v)
    ensures Valid(a) && DictOf(a) == old(DictOf(a)) && Apart(its + [it])
    ensures World(a, its + [it], views + [v], sound + [true])
  {
    hide Valid, DictOf, TableOf, Automaton.Keys, Linked, Current, World, Searched, Sound, Suits, Refuses;
    WorldParts(a, its, views, sound);
    it, v := MakeApart(a, its, request, views, sound);
    WorldBegun(a, its, views, sound, it, v);
  }

  /** Any interleaving of updates, iterator steps and new iterators: every answer is that of the abstract run. A step
      gives an error exactly if the version has changed since the iterator was made; otherwise the iterator holds
      nodes of the trie only, and gives the next of what it has left. */
  method Interleave(a: Automaton, its: seq<Iter>, actions: seq<Action>, ghost views: seq<View>, ghost sound: seq<bool>)
      returns (answers: seq<Answer>, its': seq<Iter>, ghost views': seq<View>, ghost begun: seq<View>)
    requires Valid(a) && World(a, its, views, sound) && Apart(its) && AllInBounds(actions)
    requires |sound| == |views| && Safe(DictOf(a), sound, Versions(views), actions)
    modifies a, a.nodes.Values, Footprints(its)
    ensures Valid(a) && DictOf(a) == old(DictOf(a)).Replay(Updates(actions))
    ensures answers == Trace(old(DictOf(a)), views, actions, begun) && AllSuit(old(DictOf(a)), actions, begun)
    ensures Apart(its') && its <= its' && World(a, its', views', SoundAtEnd(old(DictOf(a)), sound, actions))
  {
    hide Valid, World, Apart, DictOf, Trace, SoundAtEnd, Safe, Updates, Dict.Replay, Dict.After, Dict.Answer, Suits;
    hide SoundAfter, AllSuit, SoFar, AllInBounds, Refuses;
    hide AnswerOf, Stepped, Keep, Versions;
    ghost var d, sounds := DictOf(a), sound;
    answers, its', views', begun := [], its, views, [];
    var i := 0;
    assert actions[0..] == actions;
    SoFarStart(d, views, actions);
    while i < |actions|
      invariant 0 <= i <= |actions| && Valid(a) && Grown(a) && World(a, its', views', sounds) && Apart(its')
      invariant its <= its' && forall o :: o in Footprints(its') ==> o in Footprints(its) || fresh(o)
      invariant |sounds| == |views'| && Safe(DictOf(a), sounds, Versions(views'), actions[i..])
      invariant SoFar(d, views, actions, begun, answers, DictOf(a), views', actions[i..])
      invariant SoundAtEnd(DictOf(a), sounds, actions[i..]) == SoundAtEnd(d, sound, actions)
      invariant DictOf(a).Replay(Updates(actions[i..])) == d.Replay(Updates(actions))
      decreases |actions| - i
    {
      assert actions[i..][1..] == actions[i + 1..] && actions[i..][0] == actions[i];
      ghost var now, rest := DictOf(a), actions[i..];
      SoFarRest(d, views, actions, begun, answers, now, views', rest);
      match actions[i] {
        case Update(op) =>
          SoFarUpdate(d, views, actions, begun, answers, now, views', rest, sounds);
          UpdateFirst(now, views', sounds, rest, []);
          var reply;
          reply, views' := Operate(a, op, its', views', sounds);
          PerformedMeans(now, a, op, reply);
          sounds := SoundAfter(now, sounds, op);
          answers := answers + [Replied(reply)];
        case Step(j) =>
          SoFarStep(d, views, actions, begun, answers, now, views', rest, sounds);
          StepFirst(now, views', sounds, rest, []);
          WorldSize(a, its', views', sounds);
          OwnFootprint(its', j);
          VersionOf(a);
          var answer;
          answer, views' := StepOne(a, its', j, views', sounds);
          answers := answers + [answer];
        case Open(request) =>
          RefusesByKind(a, request);
          if !request.List? && a.kind != AhoCorasick {
            SoFarRefused(d, views, actions, begun, answers, now, views', rest, sounds);
            OpenFirst(now, views', sounds, rest, View(0, Hits([])), []);
            answers := answers + [Refused];
          } else {
            var it;
            ghost var v;
            it, v := OpenOne(a, its', request, views', sounds);
            VersionOf(a);
            SoFarOpened(d, views, actions, begun, answers, now, views', rest, sounds, v);
            OpenFirst(now, views', sounds, rest, v, []);
            its', views', sounds, begun := its' + [it], views' + [v], sounds + [true], begun + [v];
            answers := answers + [Opened];
          }
      }
      i := i + 1;
    }
    assert actions[i..] == [];
    SoFarEnd(d, views, actions, begun, answers, DictOf(a), views');
    NothingLeft(DictOf(a), sounds);
  }

  /** The same from a new automaton, to which no iterator belongs yet. While no zero is stored, every such run is safe
      (`SafeWithoutZeros`). */
  method InterleaveNew(store: Store, keyType: KeyType, actions: seq<Action>)
      returns (a: Automaton, answers: seq<Answer>, its: seq<Iter>, ghost begun: seq<View>)
    requires AllInBounds(actions) && Safe(Start(store), [], [], actions)
    ensures fresh(a) && Valid(a) && DictOf(a) == Start(store).Replay(Updates(actions))
    ensures answers == Trace(Start(store), [], actions, begun) && AllSuit(Start(store), actions, begun)
  {
    hide Valid, DictOf, Trace, Safe, AllSuit, SoundAtEnd, Updates, Dict.Replay, AllInBounds;
    a := new Automaton(store, keyType);
    NewDict(a);
    NoIterators(a);
    ghost var views;
    answers, its, views, begun := Interleave(a, [], actions, [], []);
  }

  lemma NoIterators(a: Automaton)
    ensures World(a, [], [], []) && Apart([]) && Versions([]) == [] && Footprints([]) == {}
  {
  }

  lemma RefusesByKind(a: Automaton, request: Request)
    ensures Refuses(DictOf(a), request) <==> !request.List? && a.kind != AhoCorasick
  {
  }

  lemma PerformedMeans(d: Dict, a: Automaton, op: Op, reply: Reply)
    requires Performed(d, a, op, reply)
    ensures DictOf(a) == d.After(op) && reply == d.Answer(op) && a.Keys() == d.After(op).keys
  {
  }

  /** Every iterator that may be stepped has a view. */
  lemma HasView(a: Automaton, it: Iter) returns (left: Left)
    requires Valid(a) && it.Over() == a && it.Ready()
    ensures Current(a, it, left)
  {
    match it {
      case Finder(s) =>
        FinderReady(a, s);
        FinderPending(s);
        left := Hits(s.Pending());
      case Scanner(l) =>
        ScannerReady(a, l);
        left := Scan(l.input, l.index + 1, l.end);
      case Lister(e) =>
        ListerReady(a, e);
        ListerPending(e);
        left := Listing(e.kind, e.Pending());
    }
  }

  /** While the iterators are sound, each one of the current version holds nodes of the trie only. */
  lemma WorldReady(a: Automaton, its: seq<Iter>, views: seq<View>, sound: seq<bool>, i: nat)
    requires Valid(a) && World(a, its, views, sound) && i < |its| && i < |sound| && sound[i]
    requires its[i].Version() == a.version
    ensures its[i].Placed(a.nodes) && its[i].Ready()
  {
    hide Valid, Linked, TableOf, Automaton.Keys, Shows, SearchIter.Placed, LongIter.Placed, LongIter.Resting;
    hide ItemsIter.Placed;
    SoundParts(a, its, views, sound, i);
    match its[i] {
      case Finder(s) => FinderReady(a, s);
      case Scanner(l) => ScannerReady(a, l);
      case Lister(e) => ListerReady(a, e);
    }
  }

  lemma WorldSize(a: Automaton, its: seq<Iter>, views: seq<View>, sound: seq<bool>)
    requires World(a, its, views, sound)
    ensures |its| == |views|
  {
  }

  lemma OwnFootprint(its: seq<Iter>, j: nat)
    requires j < |its|
    ensures its[j].Footprint() <= Footprints(its)
  {
  }

  lemma VersionOf(a: Automaton)
    ensures DictOf(a).version == a.version
  {
  }

  lemma NothingLeft(d: Dict, sound: seq<bool>)
    ensures SoundAtEnd(d, sound, []) == sound && d.Replay(Updates([])) == d
  {
  }
}
