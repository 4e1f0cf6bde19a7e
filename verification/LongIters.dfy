/** The longest-match search iterator. */
module LongIters {
  import opened Options
  import opened Words
  import opened Matches
  import opened Longest
  import opened Scans
  import opened TrieNodes
  import opened Automata
  import opened Tries
  import opened SearchIters
  import Searches

  class LongIter {
    const automaton: Automaton
    var version: int
    var state: Ptr
    var shift: int
    var index: int
    var end: int
    var input: Word
    var lastIndex: int
    var lastNode: Ptr
    ghost var stateWord: Word  // what `state` spells
    ghost var lastWord: Word  // what `lastNode` spells

    ghost predicate Ready()
      reads this, automaton, automaton.nodes.Values
    {
      automaton.Shape() && automaton.kind != Empty && Linked(automaton.nodes) && Placed(automaton.nodes)
      && (lastNode != Null ==> automaton.nodes[lastWord].eow)
    }

    /** All that the iterator holds lies in these nodes. */
    ghost predicate Placed(nodes: map<Word, TrieNode>)
      reads this
    {
      && -1 <= index && end <= |input| && shift == 0
      && stateWord in nodes && state == To(nodes[stateWord])
      && (lastNode != Null ==> lastWord in nodes && lastNode == To(nodes[lastWord]))
    }

    /** Between two calls: nothing is saved, and the scan starts at the root unless the text is read. */
    ghost predicate Resting()
      reads this
    {
      lastNode == Null && (stateWord == [] || end <= index)
    }

    ghost predicate Valid()
      reads this, automaton, automaton.nodes.Values
    {
      version == automaton.version ==> Ready() && Resting()
    }

    ghost function Best(): Option<Hit>
      reads this
    {
      if lastNode == Null then None else Some(Hit(lastIndex, lastWord))
    }

    /** The report of the scan under way. */
    ghost function Scan(): Option<Hit>
      requires Ready() && 0 <= index
      reads this, automaton, automaton.nodes.Values
    {
      Long(automaton.nodes.Keys, automaton.Keys().Keys, input, stateWord, index, end, Best())
    }

    /** Where that scan stops reading. */
    ghost function Ahead(): int
      requires Ready() && 0 <= index
      reads this, automaton, automaton.nodes.Values
    {
      Reach(automaton.nodes.Keys, automaton.Keys().Keys, input, stateWord, index, end, Best())
    }

    /** All reports still to come. */
    ghost function Pending(): seq<Hit>
      requires Ready()
      reads this, automaton, automaton.nodes.Values
    {
      LongRun(automaton.nodes.Keys, automaton.Keys().Keys, input, index + 1, end)
    }

    constructor (a: Automaton, text: Word, start: int, end: int)
      requires a.Shape() && a.kind == AhoCorasick && Linked(a.nodes)
      requires 0 <= start && end <= |text|
      ensures automaton == a && version == a.version && Ready() && Resting()
      ensures input == text && shift == 0 && index == start - 1 && this.end == end
    {
      automaton, version := a, a.version;
      state, shift, index, this.end := a.root, 0, start - 1, end;
      lastIndex, lastNode, input := -1, Null, text;
      stateWord, lastWord := [], [];
    }

    /** The child of the current state under the current letter. */
    lemma ChildOfState()
      requires Ready() && 0 <= index < end
      ensures Tree(automaton.nodes) && PrefixClosed(automaton.nodes.Keys) && [] !in automaton.Keys()
      ensures state.To? && stateWord in automaton.nodes && state.node == automaton.nodes[stateWord]
      ensures Lookup(state.node.next, input[index]) == Target(automaton.nodes, stateWord + [input[index]])
      ensures automaton.root == To(automaton.nodes[[]])
    {
      TreeLookup(automaton.nodes, stateWord, input[index]);
    }

    lemma LinkOf(w: Word)
      requires Ready() && w in automaton.nodes
      ensures w == [] ==> automaton.nodes[w].fail == Null && !automaton.nodes[w].eow
      ensures w != [] ==> automaton.nodes[w].fail == To(automaton.nodes[Fail(automaton.nodes.Keys, w)])
      ensures automaton.nodes[w].eow <==> w in automaton.Keys()
      ensures automaton.root == To(automaton.nodes[[]]) && (automaton.nodes[w] == automaton.nodes[[]] <==> w == [])
    {
      assert automaton.nodes[w].word == w && automaton.nodes[[]].word == [];
    }

    /** One fail link: to a node that may read the current letter, or past the root and the letter. */
    method FailOnce() returns (done: bool)
      requires Ready() && 0 <= index < end && stateWord + [input[index]] !in automaton.nodes
      modifies this`state, this`stateWord, this`index
      ensures Ready()
      ensures var N, c := automaton.nodes.Keys, input[old(index)];
              if index == old(index) then
                |stateWord| < |old(stateWord)| && (done <==> stateWord + [c] in N) &&
                LongestSuffix(N, stateWord + [c]) == LongestSuffix(N, old(stateWord) + [c])
              else
                done && index == old(index) + 1 && stateWord == [] && LongestSuffix(N, old(stateWord) + [c]) == []
    {
      hide Automaton.Shape, Tree, Linked, LongestSuffix, Fail, TrieOf, PrefixClosed;
      ghost var N, c := automaton.nodes.Keys, input[index];
      ChildOfState();
      LinkOf(stateWord);
      state := state.node.fail;
      if state == Null {
        MissAtRoot(N, c);
        state, stateWord := automaton.root, [];
        index := index + 1;
        return true;
      }
      FailStep(N, stateWord, c);
      stateWord := Fail(N, stateWord);
      ChildOfState();
      var child := state.node.GetNext(input[index]);
      done := child != Null;
    }

    /** Follows fail links until some node reads the current letter; without one, skips the letter. */
    method FallBack()
      requires Ready() && 0 <= index < end && lastNode == Null
      requires stateWord + [input[index]] !in automaton.nodes
      modifies this`state, this`stateWord, this`index
      ensures Ready() && 0 <= index && Scan() == old(Scan()) && Ahead() == old(Ahead())
      ensures index == old(index) + 1 || (index == old(index) && |stateWord| < |old(stateWord)|)
    {
      hide Ready, LongestSuffix;
      InNodes();
      ghost var N, K, c, s, i := automaton.nodes.Keys, automaton.Keys().Keys, input[index], stateWord, index;
      var done := false;
      while !done
        invariant Ready() && (index == i || done)
        invariant index == i ==> 0 <= i < end && LongestSuffix(N, stateWord + [c]) == LongestSuffix(N, s + [c]) &&
                                 |stateWord| <= |s| && (done <==> stateWord + [c] in N) && (done ==> |stateWord| < |s|)
        invariant index != i ==> index == i + 1 && stateWord == [] && LongestSuffix(N, s + [c]) == []
        decreases !done, |stateWord|
      {
        done := FailOnce();
      }
      LongFromSuffix(N, K, input, s, stateWord, i, end);
    }

    /** The state has a child under the current letter: save it, report its fail node, or just go on. */
    method TakeChild(next: Ptr) returns (due: bool)
      requires Ready() && 0 <= index < end
      requires stateWord + [input[index]] in automaton.nodes && next == To(automaton.nodes[stateWord + [input[index]]])
      modifies this`state, this`stateWord, this`index, this`lastNode, this`lastWord, this`lastIndex
      ensures Ready() && 0 <= index
      ensures due ==> lastNode != Null && old(Scan()) == Best() && old(Ahead()) == index == old(index)
      ensures !due ==> Scan() == old(Scan()) && Ahead() == old(Ahead()) && old(index) < index
    {
      hide Automaton.Shape, Automaton.Keys, Linked, Long, Reach, Fail;
      ghost var N, K, n := automaton.nodes.Keys, automaton.Keys().Keys, stateWord + [input[index]];
      InNodes();
      LinkOf(n);
      LinkOf(Fail(N, n));
      LongOnPath(N, K, input, stateWord, index, end, Best());
      if next.node.eow {
        lastNode, lastWord := next, n;
        lastIndex := index;
      } else if next.node.fail != Null && next.node.fail != automaton.root && next.node.fail.node.eow {
        lastNode, lastWord := next.node.fail, Fail(N, n);
        lastIndex := index;
        return true;
      }
      state, stateWord := next, n;
      index := index + 1;
      due := false;
    }

    /** One round of the main loop; true when a report is due. */
    method Round() returns (due: bool)
      requires Ready() && 0 <= index < end
      modifies this`state, this`stateWord, this`index, this`lastNode, this`lastWord, this`lastIndex
      ensures Ready() && 0 <= index
      ensures due ==> lastNode != Null && old(Scan()) == Best() && old(Ahead()) == index == old(index)
      ensures !due ==> Scan() == old(Scan()) && Ahead() == old(Ahead())
      ensures !due ==> old(index) < index || (index == old(index) && |stateWord| < |old(stateWord)|)
    {
      hide Ready, LongestSuffix;
      InNodes();
      ChildOfState();
      var next := state.node.GetNext(input[index]);
      if next != Null {
        due := TakeChild(next);
      } else if lastNode != Null {
        due := true;
      } else {
        FallBack();
        due := false;
      }
    }

    /** Gives out the saved match and starts over behind it. */
    method Output() returns (report: Report)
      requires Ready() && lastNode != Null && -1 <= lastIndex
      modifies this`state, this`stateWord, this`index, this`lastNode, this`lastWord, this`lastIndex
      ensures Ready() && Resting() && index == old(lastIndex)
      ensures old(lastWord) in automaton.Keys()
      ensures report == Report(old(lastIndex), automaton.Keys()[old(lastWord)])
    {
      hide Tree, Linked, TrieOf;
      InNodes();
      report := Report(shift + lastIndex, lastNode.node.output);
      state, stateWord := automaton.root, [];
      index := lastIndex;
      lastNode, lastIndex := Null, -1;
    }

    /** The scan from the root up to the next report. */
    method Seek() returns (due: bool)
      requires Ready() && Resting()
      modifies this`state, this`stateWord, this`index, this`lastNode, this`lastWord, this`lastIndex
      ensures Ready() && (due <==> lastNode != Null) && old(index) < index
      ensures Best() == old(NextReport()) && index == old(NextReach())
      ensures !due ==> Resting() && NextReport() == None && end <= index
    {
      hide Automaton.Shape, Linked, LongestSuffix, Automaton.Keys;
      ghost var report, reach := NextReport(), NextReach();
      InNodes();
      index := index + 1;
      due := false;
      while !due && index < end
        invariant Ready() && old(index) < index
        invariant if due then lastNode != Null && Best() == report && index == reach
                  else Scan() == report && Ahead() == reach
        decreases !due, end - index, |stateWord|
      {
        due := Round();
      }
      due := lastNode != Null;
    }

    /** What one step does to the reports still to come. */
    ghost predicate Stepped(before: seq<Hit>, r: Result)
      requires Ready()
      reads this, automaton, automaton.nodes.Values
    {
      match r
      case Yield(report) => Emits(automaton.Keys(), before, Pending(), report) && index == report.index
      case Stop => before == [] == Pending() && end <= index
      case Invalid => false
    }

    /** The letters that the next step reads. */
    ghost function NextReads(): nat
      requires Ready()
      reads this, automaton, automaton.nodes.Values
    {
      Reads(automaton.nodes.Keys, automaton.Keys().Keys, input, index + 1, end)
    }

    /** The letters that all steps to come read. */
    ghost function AllReads(): nat
      requires Ready()
      reads this, automaton, automaton.nodes.Values
    {
      RunReads(automaton.nodes.Keys, automaton.Keys().Keys, input, index + 1, end)
    }

    /** The letters of the next step and of those behind the report it gives. */
    lemma ReadsNext(h: Option<Hit>)
      requires Ready() && h == NextReport()
      ensures h.None? ==> AllReads() == NextReads() && Pending() == []
      ensures h.Some? ==> (0 <= h.value.end && Pending() != [] && Pending()[0] == h.value && AllReads() == NextReads() +
                RunReads(automaton.nodes.Keys, automaton.Keys().Keys, input, h.value.end + 1, end))
    {
      hide Automaton.Shape, Linked, Automaton.Keys, Long, LongRun, RunReads, Reads;
      InNodes();
      LongRunNext(automaton.nodes.Keys, automaton.Keys().Keys, input, index + 1, end);
    }

    method Step() returns (r: Result, ghost letters: nat)
      requires Ready() && Resting()
      modifies this`state, this`stateWord, this`index, this`lastNode, this`lastWord, this`lastIndex
      ensures Ready() && Resting() && Stepped(old(Pending()), r) && letters == old(NextReads())
      ensures old(AllReads()) == letters + if r.Yield? then AllReads() else 0
    {
      hide Automaton.Shape, Linked, LongestSuffix, Long, Reach;
      ghost var report, pending, p := NextReport(), Pending(), index + 1;
      ReportInText();
      ReadsNext(report);
      var due := Seek();
      letters := index - p + if index < end then 1 else 0;
      if due {
        var out := Output();
        r := Yield(out);
      } else {
        r := Stop;
      }
    }

    lemma ReportInText()
      requires Ready()
      ensures NextReport().Some? ==> index < NextReport().value.end < end
    {
    }

    /** automaton_search_iter_long_next: the next report of the longest-match search. After the report the text is
        read again from behind the match. */
    method Next() returns (r: Result, ghost letters: nat)
      requires Valid()
      modifies this`state, this`stateWord, this`index, this`lastNode, this`lastWord, this`lastIndex
      ensures Valid() && (r == Invalid <==> version != automaton.version)
      ensures if r.Invalid? then unchanged(this)
              else Ready() && Stepped(old(Pending()), r) && letters == old(NextReads())
                   && old(AllReads()) == letters + if r.Yield? then AllReads() else 0
    {
      hide Ready, Pending, Emits, NextReads, AllReads;
      if version != automaton.version {
        return Invalid, 0;
      }
      r, letters := Step();
    }

    ghost function NextReport(): Option<Hit>
      requires Ready()
      reads this, automaton, automaton.nodes.Values
    {
      Long(automaton.nodes.Keys, automaton.Keys().Keys, input, [], index + 1, end, None)
    }

    ghost function NextReach(): int
      requires Ready()
      reads this, automaton, automaton.nodes.Values
    {
      Reach(automaton.nodes.Keys, automaton.Keys().Keys, input, [], index + 1, end, None)
    }

    lemma InNodes()
      requires Ready()
      ensures [] in automaton.nodes && [] !in automaton.Keys() && end <= |input|
    {
    }
  }

  /** The scan depends on the state only through the longest suffix that reads the next letter. */
  lemma LongFromSuffix(N: set<Word>, K: set<Word>, text: Word, s: Word, s': Word, i: int, end: int)
    requires [] in N && 0 <= i < end <= |text|
    ensures LongestSuffix(N, s + [text[i]]) == LongestSuffix(N, s' + [text[i]]) ==>
              Long(N, K, text, s, i, end, None) == Long(N, K, text, s', i, end, None)
              && Reach(N, K, text, s, i, end, None) == Reach(N, K, text, s', i, end, None)
    ensures LongestSuffix(N, s + [text[i]]) == [] && [] !in K ==>
              Long(N, K, text, s, i, end, None) == Long(N, K, text, [], i + 1, end, None)
              && Reach(N, K, text, s, i, end, None) == Reach(N, K, text, [], i + 1, end, None)
  {
  }

  /** What the scan does at a state with a child under the letter. */
  lemma LongOnPath(N: set<Word>, K: set<Word>, text: Word, s: Word, i: int, end: int, best: Option<Hit>)
    requires [] in N && 0 <= i < end <= |text| && s + [text[i]] in N
    ensures var n := s + [text[i]];
            var best' := if n in K then Some(Hit(i, n)) else best;
            if n !in K && Fail(N, n) in K then
              Long(N, K, text, s, i, end, best) == Some(Hit(i, Fail(N, n))) && Reach(N, K, text, s, i, end, best) == i
            else
              Long(N, K, text, s, i, end, best) == Long(N, K, text, n, i + 1, end, best')
              && Reach(N, K, text, s, i, end, best) == Reach(N, K, text, n, i + 1, end, best')
  {
    NodeIsItsSuffix(N, s + [text[i]]);
  }

  /** list(automaton.iter_long(text, start, end)): the reports of the long scan, which are exactly the greedy
      leftmost-longest matches if no early return can fire, and the letters read for them. */
  method IterateLong(a: Automaton, text: Word, start: int, end: int) returns (reports: seq<Report>, ghost letters: nat)
    requires a.Shape() && a.kind == AhoCorasick && Linked(a.nodes)
    requires 0 <= start <= end <= |text|
    ensures var hits := LongRun(a.nodes.Keys, a.Keys().Keys, text, start, end);
            && |reports| == |hits|
            && forall i :: 0 <= i < |hits| ==>
                 hits[i].key in a.Keys() && reports[i] == Report(hits[i].end, a.Keys()[hits[i].key])
    ensures FailKeysAreKeys(a.nodes.Keys, a.Keys().Keys) ==>
              var hits := Greedy(a.Keys().Keys, text, start, end);
              && |reports| == |hits|
              && forall i :: 0 <= i < |hits| ==>
                   hits[i].key in a.Keys() && reports[i] == Report(hits[i].end, a.Keys()[hits[i].key])
    ensures letters == RunReads(a.nodes.Keys, a.Keys().Keys, text, start, end) >= end - start
  {
    hide LongIter.Ready, LongIter.Pending, Automaton.Shape, Linked, FailKeysAreKeys, Greedy, Automaton.Keys, LongRun;
    hide LongIter.NextReads, LongIter.AllReads, RunReads, Searches.Reports;
    var it := new LongIter(a, text, start, end);
    PendingAtStart(it, a, text, start, end);
    reports, letters := Drain(it);
    ReportsGreedy(a, text, start, end);
    LongReported(a, text, start, end);
  }

  /** Steps the iterator to its StopIteration. */
  method Drain(it: LongIter) returns (reports: seq<Report>, ghost letters: nat)
    requires it.Ready() && it.Resting() && it.version == it.automaton.version
    modifies it`state, it`stateWord, it`index, it`lastNode, it`lastWord, it`lastIndex
    ensures reports == Searches.Reports(it.automaton.Keys(), old(it.Pending())) && letters == old(it.AllReads())
  {
    hide LongIter.Ready, LongIter.Pending, LongIter.NextReads, LongIter.AllReads;
    ghost var keys, pending, all := it.automaton.Keys(), it.Pending(), it.AllReads();
    reports := [];
    ghost var more;
    var r;
    r, letters := it.Next();
    while r.Yield?
      invariant !r.Invalid? && it.Valid() && it.Ready()
      invariant r.Yield? ==>
        reports + [r.report] + Searches.Reports(keys, it.Pending()) == Searches.Reports(keys, pending)
      invariant r.Stop? ==> reports == Searches.Reports(keys, pending)
      invariant if r.Yield? then letters + it.AllReads() == all else letters == all
      decreases r.Yield?, |it.Pending()|
    {
      reports := reports + [r.report];
      r, more := it.Next();
      letters := letters + more;
    }
  }

  lemma LongReported(a: Automaton, text: Word, start: int, end: int)
    requires a.Shape() && a.kind == AhoCorasick && 0 <= start <= end <= |text|
    ensures [] in a.nodes && RunReads(a.nodes.Keys, a.Keys().Keys, text, start, end) >= end - start
    ensures var hits := LongRun(a.nodes.Keys, a.Keys().Keys, text, start, end);
            && |Searches.Reports(a.Keys(), hits)| == |hits|
            && forall i :: 0 <= i < |hits| ==>
                 && hits[i].key in a.Keys()
                 && Searches.Reports(a.Keys(), hits)[i] == Report(hits[i].end, a.Keys()[hits[i].key])
  {
    hide Tree, LongRun, RunReads, Automaton.Keys, Searches.Reports;
    ShapeIsTrie(a);
    RunReadsEach(a.nodes.Keys, a.Keys().Keys, text, start, end);
    LongRunIsOrdered(a.nodes.Keys, a.Keys().Keys, text, start, end);
    Searches.ReportsAre(a.Keys(), LongRun(a.nodes.Keys, a.Keys().Keys, text, start, end));
  }

  lemma ReportsGreedy(a: Automaton, text: Word, start: int, end: int)
    requires a.Shape() && a.kind == AhoCorasick && 0 <= start <= end <= |text|
    ensures [] in a.nodes
    ensures FailKeysAreKeys(a.nodes.Keys, a.Keys().Keys) ==>
              LongRun(a.nodes.Keys, a.Keys().Keys, text, start, end) == Greedy(a.Keys().Keys, text, start, end)
  {
    hide Tree, FailKeysAreKeys, LongRun, Greedy;
    ShapeIsTrie(a);
    if FailKeysAreKeys(a.nodes.Keys, a.Keys().Keys) {
      LongRunIsGreedy(a.nodes.Keys, a.Keys().Keys, text, start, end);
    }
  }

  lemma PendingAtStart(it: LongIter, a: Automaton, text: Word, start: int, end: int)
    requires it.Ready() && it.automaton == a && it.input == text && it.index == start - 1 && it.end == end
    requires 0 <= start && end <= |text|
    ensures it.Pending() == LongRun(a.nodes.Keys, a.Keys().Keys, text, start, end)
    ensures it.AllReads() == RunReads(a.nodes.Keys, a.Keys().Keys, text, start, end)
  {
  }

  /** What the caller sees tells the two apart: the reports are those of greedy leftmost-longest matching on every
      slice of every text if and only if no node that is not a key has a fail link to a key. */
  lemma ReportsAreGreedyExactlyWhen(N: set<Word>, keys: map<Word, Output>)
    requires TrieOf(N, keys.Keys)
    ensures (forall text, p, end :: 0 <= p <= end <= |text| ==>
               Searches.Reports(keys, LongRun(N, keys.Keys, text, p, end)) ==
               Searches.Reports(keys, Greedy(keys.Keys, text, p, end)))
            <==> FailKeysAreKeys(N, keys.Keys)
  {
    if FailKeysAreKeys(N, keys.Keys) {
      forall text: Word, p, end | 0 <= p <= end <= |text|
        ensures LongRun(N, keys.Keys, text, p, end) == Greedy(keys.Keys, text, p, end)
      {
        LongRunIsGreedy(N, keys.Keys, text, p, end);
      }
    } else {
      var w := EarlyReturnGoesWrong(N, keys.Keys);
      FirstEnd(keys, LongRun(N, keys.Keys, w, 0, |w|));
      FirstEnd(keys, Greedy(keys.Keys, w, 0, |w|));
    }
  }

  lemma FirstEnd(keys: map<Word, Output>, hits: seq<Hit>)
    requires hits != []
    ensures Searches.Reports(keys, hits) != [] && Searches.Reports(keys, hits)[0].index == hits[0].end
  {
  }
}
