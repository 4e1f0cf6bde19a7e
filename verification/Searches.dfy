/** Whole searches: the iterator run to its end, over one text or over chunks, and find_all. */
module Searches {
  import opened Words
  import opened Matches
  import opened TrieNodes
  import opened Automata
  import opened Tries
  import opened Costs
  import opened SearchIters

  /** What the caller sees of the hits: each end index with the value stored for the key. */
  function Reports(keys: map<Word, Output>, hits: seq<Hit>): seq<Report>
  {
    if hits == [] then []
    else [Report(hits[0].end, if hits[0].key in keys then keys[hits[0].key] else 0)] + Reports(keys, hits[1..])
  }

  lemma {:induction false} ReportsAre(keys: map<Word, Output>, hits: seq<Hit>)
    requires forall h :: h in hits ==> h.key in keys
    ensures |Reports(keys, hits)| == |hits|
    ensures forall i :: 0 <= i < |hits| ==>
              hits[i].key in keys && Reports(keys, hits)[i] == Report(hits[i].end, keys[hits[i].key])
  {
    if hits != [] {
      ReportsAre(keys, hits[1..]);
      assert hits[0] in hits;
    }
  }

  lemma {:induction false} ReportsConcat(keys: map<Word, Output>, f: seq<Hit>, g: seq<Hit>)
    ensures Reports(keys, f + g) == Reports(keys, f) + Reports(keys, g)
  {
    if f == [] {
      assert f + g == g;
    } else {
      assert (f + g)[1..] == f[1..] + g;
      ReportsConcat(keys, f[1..], g);
    }
  }

  /** Steps the iterator to its first StopIteration. */
  method Drain(it: SearchIter) returns (reports: seq<Report>)
    requires it.Ready() && it.version == it.automaton.version
    modifies it`index, it`state, it`output, it`history, it`outputWord, it`lookups
    ensures it.Ready() && reports == Reports(it.automaton.Keys(), old(it.Pending()))
    ensures it.AtEnd(old(it.index)) && it.history == old(it.FinalHistory()) && it.Extra() == old(it.Extra())
  {
    hide SearchIter.Ready, SearchIter.Pending, SearchIter.FinalHistory, SearchIter.Extra;
    ghost var keys, pending, was, final := it.automaton.Keys(), it.Pending(), it.index, it.FinalHistory();
    ghost var extra := it.Extra();
    reports := [];
    var r := it.Next();
    while r.Yield?
      invariant !r.Invalid? && it.Ready() && it.FinalHistory() == final && it.Extra() == extra
      invariant r.Yield? ==> it.index == was || was < it.index < it.end
      invariant r.Yield? ==> reports + [r.report] + Reports(keys, it.Pending()) == Reports(keys, pending)
      invariant r.Stop? ==> reports == Reports(keys, pending) && it.AtEnd(was)
      decreases r.Yield?, |it.Pending()|
    {
      reports := reports + [r.report];
      r := it.Next();
    }
    NothingAhead(it);
  }

  lemma NothingAhead(it: SearchIter)
    requires it.Ready() && it.end <= it.index
    ensures it.FinalHistory() == it.history
  {
  }

  /** list(automaton.iter(text, start, end, ignore_white_space)): the reports are those of the naive search; with
      white space ignored, of the naive search in the text without it, mapped back. The child tables searched are
      those of reading these letters from the root, at most two for each. */
  method Iterate(a: Automaton, text: Word, start: int, end: int, isSpace: Letter -> bool, ignoreWhiteSpace: bool)
      returns (reports: seq<Report>, ghost lookups: nat)
    requires a.Shape() && a.kind == AhoCorasick && Linked(a.nodes)
    requires 0 <= start && end <= |text|
    ensures !ignoreWhiteSpace ==>
              var hits := Naive(a.Keys().Keys, text, start, end);
              && |reports| == |hits|
              && forall i :: 0 <= i < |hits| ==>
                   hits[i].key in a.Keys() && reports[i] == Report(hits[i].end, a.Keys()[hits[i].key])
    ensures ignoreWhiteSpace ==>
              var hits := NaiveDeleted(a.Keys().Keys, isSpace, text, start, end);
              var ps := Positions(isSpace, text, start, end);
              && |reports| == |hits|
              && forall i :: 0 <= i < |hits| ==>
                   && 0 <= hits[i].end < |ps| && hits[i].key in a.Keys()
                   && reports[i] == Report(ps[hits[i].end], a.Keys()[hits[i].key])
    ensures var read := Deleted(if ignoreWhiteSpace then isSpace else KeepAll, text, start, end);
            && |read| <= lookups <= 2 * |read|
            && lookups == TextLookups(a.nodes.Keys, read) == |LookedInto(a.nodes.Keys, read)|
  {
    hide Automaton.Shape, Linked, Run, Feed, SearchIter.Ready, SearchIter.Pending, SearchIter.FinalHistory;
    hide Automaton.Keys;
    hide SearchIter.Extra, TextLookups, LookedInto, Deleted, Positions, Renumber, NaiveDeleted, Reports;
    var it := new SearchIter(a, text, start, end, isSpace, ignoreWhiteSpace);
    StartsWithAll(it, a, text, start, end);
    reports := Drain(it);
    lookups := it.lookups;
    ReadingBounded(it);
    if ignoreWhiteSpace {
      DeletedReports(a.Keys(), isSpace, text, start, end);
    } else {
      NaiveReports(a.Keys(), text, start, end);
    }
  }

  lemma NaiveReports(keys: map<Word, Output>, text: Word, start: int, end: int)
    requires 0 <= start && end <= |text|
    ensures var hits := Naive(keys.Keys, text, start, end);
            && |Reports(keys, hits)| == |hits|
            && forall i :: 0 <= i < |hits| ==>
                 hits[i].key in keys && Reports(keys, hits)[i] == Report(hits[i].end, keys[hits[i].key])
  {
    hide Run, Reports;
    RunHasKeys(keys.Keys, [], Feed(KeepAll, text, start, end, 0));
    ReportsAre(keys, Naive(keys.Keys, text, start, end));
  }

  lemma DeletedReports(keys: map<Word, Output>, isSpace: Letter -> bool, text: Word, start: int, end: int)
    requires 0 <= start && end <= |text|
    ensures var hits, ps := NaiveDeleted(keys.Keys, isSpace, text, start, end), Positions(isSpace, text, start, end);
            var reports := Reports(keys, Run(keys.Keys, [], Feed(isSpace, text, start, end, 0)));
            && |reports| == |hits|
            && forall i :: 0 <= i < |hits| ==>
                 && 0 <= hits[i].end < |ps| && hits[i].key in keys
                 && reports[i] == Report(ps[hits[i].end], keys[hits[i].key])
  {
    hide Run, Reports, Renumber, Positions, Feed, NaiveDeleted;
    var hits, ps := NaiveDeleted(keys.Keys, isSpace, text, start, end), Positions(isSpace, text, start, end);
    SkippingIsDeleting(keys.Keys, isSpace, text, start, end);
    RunHasKeys(keys.Keys, [], Feed(isSpace, text, start, end, 0));
    ReportsAre(keys, Renumber(hits, ps));
    RenumberAre(hits, ps);
  }

  lemma StartsWithAll(it: SearchIter, a: Automaton, text: Word, start: int, end: int)
    requires it.Ready() && it.automaton == a && it.input == text && it.index == start - 1 && it.end == end
    requires it.shift == 0 && it.history == [] && it.output == Null && 0 <= start && end <= |text|
    ensures it.Pending() == Run(a.Keys().Keys, [], Feed(it.Skip(), text, start, end, 0))
    ensures it.FinalHistory() == Deleted(it.Skip(), text, start, end)
  {
    hide Tree, Linked, TrieOf, LongestSuffix, Run, Feed, FailChain;
  }

  lemma ReadingBounded(it: SearchIter)
    requires it.Ready() && it.Extra() == 0
    ensures |it.history| <= it.lookups <= 2 * |it.history|
    ensures it.lookups == TextLookups(it.automaton.nodes.Keys, it.history)
                       == |LookedInto(it.automaton.nodes.Keys, it.history)|
  {
    hide TextLookups, LookedInto;
    TextLookupsBounded(it.automaton.nodes.Keys, it.history);
    TextLookupsEach(it.automaton.nodes.Keys, it.history);
    TextLookupsAre(it.automaton.nodes.Keys, it.history);
  }

  /** Searching consecutive chunks, each read to its first StopIteration, reports what one search of the joined
      text reports: matches across the borders included, with the same absolute end indices. */
  method IterateChunks(a: Automaton, chunks: seq<Word>, isSpace: Letter -> bool, ignoreWhiteSpace: bool)
      returns (reports: seq<Report>)
    requires a.Shape() && a.kind == AhoCorasick && Linked(a.nodes) && chunks != []
    ensures var skip, text := if ignoreWhiteSpace then isSpace else KeepAll, Flatten(chunks);
            var hits := Run(a.Keys().Keys, [], Feed(skip, text, 0, |text|, 0));
            && |reports| == |hits|
            && forall i :: 0 <= i < |hits| ==>
                 hits[i].key in a.Keys() && reports[i] == Report(hits[i].end, a.Keys()[hits[i].key])
    ensures !ignoreWhiteSpace ==>
              var hits := Naive(a.Keys().Keys, Flatten(chunks), 0, |Flatten(chunks)|);
              && |reports| == |hits|
              && forall i :: 0 <= i < |hits| ==>
                   hits[i].key in a.Keys() && reports[i] == Report(hits[i].end, a.Keys()[hits[i].key])
  {
    hide Automaton.Shape, Linked, Run, Feed, Reports, Naive, SearchIter.Ready, SearchIter.Extra, SearchIter.Pending;
    hide SearchIter.FinalHistory, Automaton.Keys;
    ghost var skip := if ignoreWhiteSpace then isSpace else KeepAll;
    var it := new SearchIter(a, chunks[0], 0, |chunks[0]|, isSpace, ignoreWhiteSpace);
    StartsWithAll(it, a, chunks[0], 0, |chunks[0]|);
    FlattenFirst(chunks);
    reports := Drain(it);
    var i := 1;
    while i < |chunks|
      invariant 1 <= i <= |chunks|
      invariant it.Ready() && it.automaton == a && it.version == a.version && it.Skip() == skip
      invariant it.output == Null && 0 <= it.index == it.end && it.shift + it.index == |Flatten(chunks[..i])|
      invariant it.history == Deleted(skip, Flatten(chunks[..i]), 0, |Flatten(chunks[..i])|)
      invariant reports == Reports(a.Keys(), AllHits(a, skip, Flatten(chunks[..i])))
    {
      FlattenNext(chunks, i);
      ChunkExtends(a.Keys().Keys, skip, Flatten(chunks[..i]), chunks[i]);
      it.Set(chunks[i], false);
      Continues(it, a, Flatten(chunks[..i]), chunks[i]);
      ghost var pending := it.Pending();
      var more := Drain(it);
      ReportsConcat(a.Keys(), AllHits(a, skip, Flatten(chunks[..i])), pending);
      reports := reports + more;
      i := i + 1;
    }
    assert chunks[..|chunks|] == chunks;
    PlainIsNaive(a, Flatten(chunks));
    AllHitsReported(a, skip, Flatten(chunks));
  }

  ghost function AllHits(a: Automaton, skip: Letter -> bool, text: Word): seq<Hit>
    reads a, a.nodes.Values
  {
    Run(a.Keys().Keys, [], Feed(skip, text, 0, |text|, 0))
  }

  lemma AllHitsReported(a: Automaton, skip: Letter -> bool, text: Word)
    ensures var hits, reports := AllHits(a, skip, text), Reports(a.Keys(), AllHits(a, skip, text));
            && |reports| == |hits|
            && forall i :: 0 <= i < |hits| ==>
                 hits[i].key in a.Keys() && reports[i] == Report(hits[i].end, a.Keys()[hits[i].key])
  {
    hide Run, Reports, Feed, Automaton.Keys;
    RunHasKeys(a.Keys().Keys, [], Feed(skip, text, 0, |text|, 0));
    ReportsAre(a.Keys(), AllHits(a, skip, text));
  }

  lemma PlainIsNaive(a: Automaton, text: Word)
    ensures AllHits(a, KeepAll, text) == Naive(a.Keys().Keys, text, 0, |text|)
  {
  }

  lemma FlattenFirst(chunks: seq<Word>)
    requires chunks != []
    ensures Flatten(chunks[..1]) == chunks[0]
  {
    assert chunks[..1][..0] == [];
  }

  lemma FlattenNext(chunks: seq<Word>, i: nat)
    requires i < |chunks|
    ensures Flatten(chunks[..i + 1]) == Flatten(chunks[..i]) + chunks[i]
  {
    assert chunks[..i + 1][..i] == chunks[..i];
  }

  lemma Continues(it: SearchIter, a: Automaton, before: Word, chunk: Word)
    requires it.Ready() && it.automaton == a && it.input == chunk && it.index == -1 && it.end == |chunk|
    requires it.shift == |before| && it.output == Null
    ensures it.Pending() == Run(a.Keys().Keys, it.history, Feed(it.Skip(), chunk, 0, |chunk|, |before|))
    ensures it.FinalHistory() == it.history + Letters(Feed(it.Skip(), chunk, 0, |chunk|, |before|))
  {
    hide Tree, Linked, TrieOf, LongestSuffix, Run, Feed, FailChain;
  }

  // ---------------------------------------------------------------- find_all

  /** The calls of the inner loop of find_all: one for each key on the way along the fail links. */
  method CallBack(node: TrieNode, i: int, ghost a: Automaton, ghost w: Word) returns (calls: seq<Report>)
    requires a.Shape() && Linked(a.nodes) && w in a.nodes && node == a.nodes[w]
    ensures calls == Reports(a.Keys(), At(i, FailChain(a.nodes.Keys, a.Keys().Keys, w)))
  {
    hide Automaton.Shape, Automaton.Keys, Linked, FailChain, Reports, At;
    calls := [];
    var tmp := To(node);
    ghost var u, N, keys := w, a.nodes.Keys, a.Keys();
    ChainNode(a, w);
    RootIsNoKey(a);
    while tmp != Null
      invariant tmp == Null || (u in a.nodes && tmp == To(a.nodes[u]))
      invariant calls + (if tmp == Null then [] else Reports(keys, At(i, FailChain(N, keys.Keys, u))))
             == Reports(keys, At(i, FailChain(N, keys.Keys, w)))
      decreases if tmp == Null then 0 else |u| + 1
    {
      ChainNode(a, u);
      ChainReports(N, keys, i, u);
      if tmp.node.eow {
        calls := calls + [Report(i, tmp.node.output)];
      }
      tmp, u := tmp.node.fail, if u == [] then [] else Fail(N, u);
    }
  }

  /** What a node on the way along the fail links holds. */
  lemma ChainNode(a: Automaton, u: Word)
    requires a.Shape() && Linked(a.nodes) && u in a.nodes
    ensures [] in a.nodes && (a.nodes[u].eow <==> u in a.Keys())
    ensures a.nodes[u].eow ==> a.nodes[u].output == a.Keys()[u]
    ensures a.nodes[u].fail == if u == [] then Null else To(a.nodes[Fail(a.nodes.Keys, u)])
  {
  }

  lemma ChainReports(N: set<Word>, keys: map<Word, Output>, i: int, u: Word)
    requires [] in N && [] !in keys
    ensures Reports(keys, At(i, FailChain(N, keys.Keys, u)))
         == (if u in keys then [Report(i, keys[u])] else [])
            + (if u == [] then [] else Reports(keys, At(i, FailChain(N, keys.Keys, Fail(N, u)))))
  {
  }

  lemma RootIsNoKey(a: Automaton)
    requires a.Shape()
    ensures [] !in a.Keys()
  {
  }

  /** find_all: the callback is called with what the naive search finds, in its order. */
  method FindAll(a: Automaton, text: Word, start: int, end: int) returns (calls: seq<Report>, ghost lookups: nat)
    requires a.Shape() && (a.kind == AhoCorasick ==> Linked(a.nodes))
    requires 0 <= start && end <= |text|
    ensures a.kind != AhoCorasick ==> calls == []
    ensures a.kind == AhoCorasick ==>
              var hits := Naive(a.Keys().Keys, text, start, end);
              && |calls| == |hits|
              && forall i :: 0 <= i < |hits| ==>
                   hits[i].key in a.Keys() && calls[i] == Report(hits[i].end, a.Keys()[hits[i].key])
    ensures a.kind == AhoCorasick && start <= end ==>
              end - start <= lookups <= 2 * (end - start) && lookups == |LookedInto(a.nodes.Keys, text[start..end])|
    ensures a.kind != AhoCorasick || end < start ==> lookups == 0
  {
    hide Automaton.Shape, Linked, Run, Feed, Automaton.Keys, Reports;
    calls, lookups := [], 0;
    if a.kind != AhoCorasick {
      return;
    }
    if end <= start {
      NothingToSearch(a.Keys().Keys, text, start, end);
      assert end == start ==> text[start..end] == [];
      if end == start {
        NoLookups(a);
      }
      return;
    }
    calls, lookups := FindFrom(a, text, start, end);
    NaiveReports(a.Keys(), text, start, end);
  }

  lemma NoLookups(a: Automaton)
    requires a.Shape() && a.kind == AhoCorasick
    ensures [] in a.nodes && |LookedInto(a.nodes.Keys, [])| == 0
  {
  }

  /** The loop of find_all over a slice. */
  method FindFrom(a: Automaton, text: Word, start: int, end: int) returns (calls: seq<Report>, ghost lookups: nat)
    requires a.Shape() && a.kind == AhoCorasick && Linked(a.nodes) && 0 <= start < end <= |text|
    ensures calls == Reports(a.Keys(), Naive(a.Keys().Keys, text, start, end))
    ensures end - start <= lookups <= 2 * (end - start) && lookups == |LookedInto(a.nodes.Keys, text[start..end])|
  {
    hide Automaton.Shape, Automaton.Keys, Linked, Run, Feed, FailChain, SuffixKeys, LongestSuffix, Reports, TextLookups;
    hide LookedInto;
    calls, lookups := [], 0;
    ghost var N, K := a.nodes.Keys, a.Keys().Keys;
    StartState(a);
    var state := a.root.node;
    var i := start;
    NothingRead(N, text, start);
    while i < end
      invariant start <= i <= end
      invariant IsNode(a.nodes, state) && state.word == LongestSuffix(N, text[start..i])
      invariant calls + Reports(a.Keys(), Run(K, text[start..i], Feed(KeepAll, text, i, end, 0)))
             == Reports(a.Keys(), Naive(K, text, start, end))
      invariant lookups == TextLookups(N, text[start..i])
    {
      var now;
      ghost var more;
      state, now, more := FindAt(a, state, text, start, i);
      SplitAt(a.Keys(), text, start, i, end);
      assert text[start..i + 1] == text[start..i] + [text[i]];
      TextLookupsNext(N, text[start..i], text[i]);
      lookups := lookups + more;
      calls := calls + now;
      i := i + 1;
    }
    NothingToSearch(K, text, i, end);
    NoReports(a.Keys());
    TextLookupsBounded(N, text[start..end]);
    TextLookupsEach(N, text[start..end]);
    TextLookupsAre(N, text[start..end]);
  }

  lemma NothingRead(N: set<Word>, text: Word, start: int)
    requires [] in N && 0 <= start <= |text|
    ensures text[start..start] == [] && TextLookups(N, []) == 0
  {
  }

  lemma NoReports(keys: map<Word, Output>)
    ensures Reports(keys, []) == []
  {
  }

  /** One letter of find_all: the transition and the calls for the keys that end here. */
  method FindAt(a: Automaton, state: TrieNode, text: Word, ghost start: int, i: int)
      returns (next: TrieNode, calls: seq<Report>, ghost lookups: nat)
    requires a.Shape() && a.kind == AhoCorasick && Linked(a.nodes) && 0 <= start <= i < |text|
    requires IsNode(a.nodes, state) && state.word == LongestSuffix(a.nodes.Keys, text[start..i])
    ensures IsNode(a.nodes, next) && next.word == LongestSuffix(a.nodes.Keys, text[start..i + 1])
    ensures calls == Reports(a.Keys(), At(i, SuffixKeys(a.Keys().Keys, text[start..i + 1])))
    ensures lookups == Lookups(a.nodes.Keys, state.word, text[i])
  {
    hide Tree, Linked, FailChain, SuffixKeys, LongestSuffix, Reports, At;
    StartState(a);
    ReadLetter(a, text, start, i);
    AllLinked(a.nodes, state.word, text[i]);
    next, lookups := AhocorasickNext(state, a.root.node, text[i], a.nodes, a.nodes);
    calls := CallBack(next, i, a, next.word);
  }

  lemma SplitAt(keys: map<Word, Output>, text: Word, start: int, i: int, end: int)
    requires 0 <= start <= i < end <= |text|
    ensures Reports(keys, Run(keys.Keys, text[start..i], Feed(KeepAll, text, i, end, 0)))
         == Reports(keys, At(i, SuffixKeys(keys.Keys, text[start..i + 1])))
            + Reports(keys, Run(keys.Keys, text[start..i + 1], Feed(KeepAll, text, i + 1, end, 0)))
  {
    var h := text[start..i + 1];
    RunStep(keys.Keys, text, start, i, end);
    ReportsConcat(keys, At(i, SuffixKeys(keys.Keys, h)), Run(keys.Keys, h, Feed(KeepAll, text, i + 1, end, 0)));
  }

  lemma StartState(a: Automaton)
    requires a.Shape() && a.kind == AhoCorasick
    ensures Tree(a.nodes) && a.root.To? && a.root.node == a.nodes[[]] && IsNode(a.nodes, a.root.node)
    ensures a.root.node.word == [] == LongestSuffix(a.nodes.Keys, []) && PrefixClosed(a.nodes.Keys)
  {
  }

  lemma NothingToSearch(K: set<Word>, text: Word, i: int, end: int)
    requires 0 <= i && end <= i && end <= |text|
    ensures Feed(KeepAll, text, i, end, 0) == []
    ensures forall h :: Run(K, h, Feed(KeepAll, text, i, end, 0)) == []
  {
  }

  /** After one more letter, the fail chain of the state lists the keys that end there. */
  lemma ReadLetter(a: Automaton, text: Word, start: int, i: int)
    requires a.Shape() && a.kind == AhoCorasick && 0 <= start <= i < |text|
    ensures var N, K, h := a.nodes.Keys, a.Keys().Keys, text[start..i + 1];
            LongestSuffix(N, h) == LongestSuffix(N, LongestSuffix(N, text[start..i]) + [text[i]]) &&
            FailChain(N, K, LongestSuffix(N, h)) == SuffixKeys(K, h)
  {
    var N, K, h := a.nodes.Keys, a.Keys().Keys, text[start..i + 1];
    assert h == text[start..i] + [text[i]];
    Advance(N, text[start..i], text[i]);
    SuffixKeysSkip(N, K, h);
    FailChainIsSuffixKeys(N, K, LongestSuffix(N, h));
  }
}
