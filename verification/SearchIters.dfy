/** The search iterator and find_all: every key occurrence, in order. */
module SearchIters {
  import opened Options
  import opened Words
  import opened Matches
  import opened TrieNodes
  import opened Automata
  import opened Tries
  import opened Costs
  import opened Touched

  /** What the caller sees of a match. */
  datatype Report = Report(index: int, value: Output)

  datatype Result = Yield(report: Report) | Stop | Invalid

  class SearchIter {
    const automaton: Automaton
    const isSpace: Letter -> bool
    const ignoreWhiteSpace: bool
    var version: int
    var state: Ptr
    var output: Ptr
    var index: int
    var shift: int
    var end: int
    var input: Word
    ghost var history: Word  // the letters read since the last reset
    ghost var outputWord: Word  // what `output` spells
    ghost var lookups: nat  // the child tables searched since the last reset

    function Skip(): Letter -> bool {
      if ignoreWhiteSpace then isSpace else KeepAll
    }

    /** All that the iterator holds lies in these nodes: it stands where reading `history` leads. */
    ghost predicate Placed(nodes: map<Word, TrieNode>)
      reads this
    {
      && [] in nodes && -1 <= index && end <= |input|
      && state == To(nodes[LongestSuffix(nodes.Keys, history)]) && Clean(Skip(), history)
      && (output != Null ==> outputWord in nodes && output == To(nodes[outputWord]))
    }

    /** The iterator stands in the automaton, which is still the searched one. */
    ghost predicate Ready()
      reads this, automaton, automaton.nodes.Values
    {
      automaton.Shape() && automaton.kind != Empty && Linked(automaton.nodes) && Placed(automaton.nodes)
    }

    /** An iterator may be stepped at any time; it is only used when the automaton has not changed. */
    ghost predicate Valid()
      reads this, automaton, automaton.nodes.Values
    {
      version == automaton.version ==> Ready()
    }

    /** The keys still to be reported at the current index. */
    ghost function Emitting(): seq<Word>
      requires Ready()
      reads this, automaton, automaton.nodes.Values
    {
      if output == Null then [] else FailChain(automaton.nodes.Keys, automaton.Keys().Keys, outputWord)
    }

    /** All hits still to come. */
    ghost function Pending(): seq<Hit>
      requires Ready()
      reads this, automaton, automaton.nodes.Values
    {
      At(index + shift, Emitting()) +
      Run(automaton.Keys().Keys, history, Feed(Skip(), input, index + 1, end, shift))
    }

    /** The lookups that reading `history` does not account for. */
    ghost function Extra(): int
      requires Ready()
      reads this, automaton, automaton.nodes.Values
    {
      lookups - TextLookups(automaton.nodes.Keys, history)
    }

    constructor (a: Automaton, text: Word, start: int, end: int, isSpace: Letter -> bool, ignoreWhiteSpace: bool)
      requires a.Shape() && a.kind == AhoCorasick && Linked(a.nodes)
      requires 0 <= start && end <= |text|
      ensures automaton == a && version == a.version && Ready() && Extra() == 0
      ensures input == text && shift == 0 && this.end == end && index == start - 1 && history == [] && output == Null
      ensures this.isSpace == isSpace && this.ignoreWhiteSpace == ignoreWhiteSpace
    {
      automaton, version, state, output, shift := a, a.version, a.root, Null, 0;
      this.isSpace, this.ignoreWhiteSpace := isSpace, ignoreWhiteSpace;
      input, index, this.end := text, start - 1, end;
      history, outputWord, lookups := [], [], 0;
    }

    /** Moves the output to the fail node, past the key of the output node if it is one. */
    method FollowFail()
      requires Ready() && output != Null && output.To?
      modifies this`output, this`outputWord
      ensures Ready() && (output != Null ==> output.To? && |outputWord| < |old(outputWord)|)
      ensures old(output.node.eow) <==> old(outputWord) in automaton.Keys()
      ensures old(output.node.eow) ==> old(output.node.output) == automaton.Keys()[old(outputWord)]
      ensures old(Emitting()) == (if old(output.node.eow) then [old(outputWord)] else []) + Emitting()
    {
      hide Automaton.Shape, Linked, LongestSuffix, Automaton.Keys;
      FailOfOutput();
      output := output.node.fail;
      outputWord := if outputWord == [] then [] else Fail(automaton.nodes.Keys, outputWord);
    }

    /** automaton_build_output: the next key on the way along the fail links. */
    method BuildOutput() returns (found: Option<Output>)
      requires Ready()
      modifies this`output, this`outputWord
      ensures Ready()
      ensures found.None? ==> old(Emitting()) == [] && output == Null
      ensures found.Some? ==> old(Emitting()) != [] && old(Emitting())[0] in automaton.Keys()
                              && found.value == automaton.Keys()[old(Emitting())[0]]
                              && Emitting() == old(Emitting())[1..]
    {
      hide Tree, Linked, TrieOf, FailChain;
      while output != Null && !output.node.eow
        invariant Ready() && Emitting() == old(Emitting()) && (output != Null ==> output.To?)
        decreases if output == Null then 0 else |outputWord| + 1
      {
        FollowFail();
      }
      if output == Null {
        return None;
      }
      found := Some(output.node.output);
      FollowFail();
    }

    /** Where the fail link of the output node leads. */
    lemma FailOfOutput()
      requires Ready() && output != Null
      ensures outputWord in automaton.nodes && output == To(automaton.nodes[outputWord])
      ensures output.node.eow <==> outputWord in automaton.Keys()
      ensures output.node.eow ==> output.node.output == automaton.Keys()[outputWord]
      ensures outputWord == [] ==> !output.node.eow && output.node.fail == Null
      ensures outputWord != [] ==>
                output.node.fail == To(automaton.nodes[Fail(automaton.nodes.Keys, outputWord)])
    {
    }

    /** Everything that will have been read in the end. */
    ghost function FinalHistory(): Word
      requires Ready()
      reads this, automaton, automaton.nodes.Values
    {
      history + Letters(Feed(Skip(), input, index + 1, end, shift))
    }

    /** Skips white space if asked to. */
    method SkipSpaces()
      requires 0 <= index && end <= |input|
      modifies this`index
      ensures old(index) <= index && (index < end ==> !Skip()(input[index])) && (old(index) < end ==> index <= end)
      ensures old(index) >= end ==> index == old(index)
      ensures Feed(Skip(), input, index, end, shift) == old(Feed(Skip(), input, index, end, shift))
    {
      if ignoreWhiteSpace {
        while index < end && isSpace(input[index])
          invariant old(index) <= index && (old(index) < end ==> index <= end)
          invariant old(index) >= end ==> index == old(index)
          invariant Feed(Skip(), input, index, end, shift) == old(Feed(Skip(), input, index, end, shift))
          decreases end - index
        {
          index := index + 1;
        }
      }
    }

    /** Reads one letter. */
    method Consume()
      requires Ready() && 0 <= index < end && !Skip()(input[index])
      modifies this`state, this`output, this`history, this`outputWord, this`lookups
      ensures Ready() && output == state && history == old(history) + [input[index]]
      ensures Emitting() == SuffixKeys(automaton.Keys().Keys, history) && Extra() == old(Extra())
    {
      hide Linked, FailChain, SuffixKeys, LongestSuffix, TrieOf, TextLookups, Lookups, Automaton.Shape, Clean;
      CleanNext(Skip(), history, input[index]);
      ghost var N, K, h := automaton.nodes.Keys, automaton.Keys().Keys, history + [input[index]];
      StateNode();
      LetterRead(N, K, history, input[index]);
      var next;
      ghost var more;
      next, more := Transition();
      state, output, lookups := To(next), To(next), lookups + more;
      history, outputWord := h, LongestSuffix(N, h);
    }

    /** The transition under the current letter. */
    method Transition() returns (next: TrieNode, ghost lookups: nat)
      requires Ready() && 0 <= index < end
      ensures var N, c := automaton.nodes.Keys, input[index];
              && IsNode(automaton.nodes, next) && next.word == LongestSuffix(N, LongestSuffix(N, history) + [c])
              && lookups == Lookups(N, LongestSuffix(N, history), c)
    {
      hide Linked, LongestSuffix, TrieOf, Lookups, Automaton.Shape, LinkedWithin, Transit, Automaton.Keys;
      StateNode();
      AllLinked(automaton.nodes, state.node.word, input[index]);
      next, lookups := AhocorasickNext(state.node, automaton.root.node, input[index], automaton.nodes, automaton.nodes);
    }

    lemma StateNode()
      requires Ready()
      ensures Tree(automaton.nodes) && PrefixClosed(automaton.nodes.Keys) && state.To? && automaton.root.To?
      ensures IsNode(automaton.nodes, state.node) && automaton.root.node == automaton.nodes[[]]
      ensures state.node.word == LongestSuffix(automaton.nodes.Keys, history)
      ensures automaton.Keys().Keys <= automaton.nodes.Keys && [] !in automaton.Keys()
    {
    }

    /** Moves to the next letter that is not skipped. */
    method MoveOn()
      requires Ready()
      modifies this`index
      ensures Ready() && old(index) < index && Emitting() == old(Emitting())
      ensures index < end ==> !Skip()(input[index])
      ensures end <= index ==> if old(index) < end then index == end else index == old(index) + 1
      ensures Feed(Skip(), input, index, end, shift) == old(Feed(Skip(), input, index + 1, end, shift))
    {
      hide Tree, Linked, LongestSuffix, TrieOf;
      index := index + 1;
      SkipSpaces();
    }

    /** Reads on to the next letter that is not skipped; false at the end of the text. */
    method ReadOn() returns (more: bool)
      requires Ready() && output == Null
      modifies this`index, this`state, this`output, this`history, this`outputWord, this`lookups
      ensures Ready() && old(index) < index && Extra() == old(Extra())
      ensures Pending() == old(Pending()) && FinalHistory() == old(FinalHistory())
      ensures more ==> index < end
      ensures !more ==> AtEnd(old(index))
    {
      hide Ready, LongestSuffix, FailChain, SuffixKeys, At, Run, TextLookups;
      NoOutput();
      ReadyBounds();
      MoveOn();
      if index < end {
        ReadyBounds();
        FeedNext(Skip(), input, index, end, shift);
        RunNext(automaton.Keys().Keys, history, Cell(input[index], index + shift),
                Feed(Skip(), input, index + 1, end, shift));
        Consume();
        more := true;
      } else {
        NoOutput();
        ReadyBounds();
        more := false;
      }
    }

    lemma ReadyBounds()
      requires Ready()
      ensures -1 <= index && end <= |input|
    {
    }

    lemma NoOutput()
      requires Ready() && output == Null
      ensures Emitting() == [] && At(index + shift, []) == []
    {
    }

    /** The text is read to its end, which was just reached if it was still ahead at `before`. */
    ghost predicate AtEnd(before: int)
      reads this
    {
      output == Null && end <= index && index == if before < end then end else before + 1
    }

    /** Takes the first pending hit, if it is at the current index. */
    method TakeHit() returns (r: Option<Report>)
      requires Ready()
      modifies this`output, this`outputWord
      ensures Ready() && FinalHistory() == old(FinalHistory()) && Extra() == old(Extra())
      ensures if r.None? then Pending() == old(Pending()) && output == Null
              else Emits(automaton.Keys(), old(Pending()), Pending(), r.value)
    {
      hide Ready, Emitting, Run, Feed, Automaton.Keys, At, Emits;
      ReadyBounds();
      ghost var ks := Emitting();
      ghost var coming := Run(automaton.Keys().Keys, history, Feed(Skip(), input, index + 1, end, shift));
      var value := BuildOutput();
      if value.None? {
        NoOutput();
        r := None;
      } else {
        FirstHit(automaton.Keys(), index + shift, ks, coming, value.value);
        r := Some(Report(index + shift, value.value));
      }
    }

    /** A step from the hits `before` and the index `was`: it reports the first hit, or there was none and the
        text is read to its end. */
    ghost predicate Stepped(before: seq<Hit>, was: int, r: Result)
      requires Ready()
      reads this, automaton, automaton.nodes.Values
    {
      match r
      case Yield(report) => Emits(automaton.Keys(), before, Pending(), report) && (index == was || was < index < end)
      case Stop => before == [] == Pending() && AtEnd(was)
      case Invalid => false
    }

    method Step() returns (r: Result)
      requires Ready()
      modifies this`index, this`state, this`output, this`history, this`outputWord, this`lookups
      ensures Ready() && Stepped(old(Pending()), old(index), r)
      ensures FinalHistory() == old(FinalHistory()) && Extra() == old(Extra())
    {
      hide Ready, Pending, Emits, FinalHistory, Extra;
      ghost var pending, was, final, extra := Pending(), index, FinalHistory(), Extra();
      while true
        invariant Ready() && Pending() == pending && FinalHistory() == final && Extra() == extra
        invariant index == was || was < index < end
        decreases end - index
      {
        var found := TakeHit();
        if found.Some? {
          return Yield(found.value);
        }
        var more := ReadOn();
        if !more {
          DrainedHasNone();
          return Stop;
        }
      }
    }

    /** automaton_search_iter_next: reports the next pending hit with the current value of its key. The child tables
        it searches are those that the letters read on the way account for. */
    method Next() returns (r: Result)
      requires Valid()
      modifies this`index, this`state, this`output, this`history, this`outputWord, this`lookups
      ensures Valid() && (r == Invalid <==> version != automaton.version)
      ensures if r.Invalid? then unchanged(this)
              else Ready() && Stepped(old(Pending()), old(index), r) && FinalHistory() == old(FinalHistory())
                   && Extra() == old(Extra())
    {
      hide Ready, Pending, Emits, FinalHistory, Extra;
      if version != automaton.version {
        return Invalid;
      }
      r := Step();
    }

    /** automaton_search_iter_set: another text, continuing after the one before or from scratch. It can be given at
        any time. */
    method Set(text: Word, reset: bool)
      modifies this
      ensures old(Valid()) ==> Valid()
      ensures old(Ready()) ==> Ready() && Extra() == if reset then 0 else old(Extra())
      ensures version == old(version) && input == text && end == |text| && index == -1
      ensures if reset then shift == 0 && output == Null && history == [] && state == automaton.root
              else shift == old(shift) + (if old(index) >= 0 then old(index) else 0)
                   && state == old(state) && output == old(output)
      ensures !reset ==> history == old(history) && outputWord == old(outputWord)
    {
      hide Automaton.Shape, Linked, LongestSuffix, TextLookups;
      input := text;
      if !reset {
        shift := shift + if index >= 0 then index else 0;
      }
      index, end := -1, |text|;
      if reset {
        Restart();
      }
    }

    /** Back to the root: nothing was read, nothing is pending. */
    method Restart()
      modifies this`state, this`shift, this`output, this`history, this`lookups
      ensures old(Ready()) ==> Ready() && Extra() == 0
      ensures state == automaton.root && shift == 0 && output == Null && history == []
    {
      hide Automaton.Shape, Linked, LongestSuffix, TextLookups;
      if Ready() {
        RootState();
      }
      state, shift, output := automaton.root, 0, Null;
      history, lookups := [], 0;
    }

    lemma RootState()
      requires Ready()
      ensures automaton.root == To(automaton.nodes[LongestSuffix(automaton.nodes.Keys, [])])
      ensures TextLookups(automaton.nodes.Keys, []) == 0
    {
    }

    lemma DrainedHasNone()
      requires Ready() && output == Null && end <= index
      ensures Pending() == []
    {
    }
  }

  /** What reading one more letter leads to, lists and costs. */
  lemma LetterRead(N: set<Word>, K: set<Word>, t: Word, c: Letter)
    requires PrefixClosed(N) && K <= N && [] !in K
    ensures LongestSuffix(N, t + [c]) == LongestSuffix(N, LongestSuffix(N, t) + [c])
    ensures FailChain(N, K, LongestSuffix(N, t + [c])) == SuffixKeys(K, t + [c])
    ensures TextLookups(N, t + [c]) == TextLookups(N, t) + Lookups(N, LongestSuffix(N, t), c)
  {
    TextLookupsNext(N, t, c);
    Advance(N, t, c);
    SuffixKeysSkip(N, K, t + [c]);
    FailChainIsSuffixKeys(N, K, LongestSuffix(N, t + [c]));
  }

  /** `report` is the first of the hits `before`, and `after` are the others. */
  lemma FirstHit(keys: map<Word, Output>, at: int, ks: seq<Word>, coming: seq<Hit>, value: Output)
    requires ks != [] && ks[0] in keys && value == keys[ks[0]]
    ensures Emits(keys, At(at, ks) + coming, At(at, ks[1..]) + coming, Report(at, value))
  {
    assert At(at, ks) == [Hit(at, ks[0])] + At(at, ks[1..]);
  }

  ghost predicate Emits(keys: map<Word, Output>, before: seq<Hit>, after: seq<Hit>, report: Report) {
    before != [] && after == before[1..] && before[0].key in keys &&
    report == Report(before[0].end, keys[before[0].key])
  }

  lemma FeedNext(skip: Letter -> bool, text: Word, i: int, end: int, shift: int)
    requires 0 <= i < end <= |text| && !skip(text[i])
    ensures Feed(skip, text, i, end, shift) == [Cell(text[i], i + shift)] + Feed(skip, text, i + 1, end, shift)
  {
  }

  lemma LettersNext(cell: Cell, rest: seq<Cell>)
    ensures Letters([cell] + rest) == [cell.letter] + Letters(rest)
  {
  }

  lemma RunNext(K: set<Word>, history: Word, cell: Cell, rest: seq<Cell>)
    ensures Run(K, history, [cell] + rest)
         == At(cell.at, SuffixKeys(K, history + [cell.letter])) + Run(K, history + [cell.letter], rest)
    ensures history + Letters([cell] + rest) == history + [cell.letter] + Letters(rest)
  {
    hide SuffixKeys, At, Letters;
    LettersNext(cell, rest);
    assert ([cell] + rest)[1..] == rest && ([cell] + rest)[0] == cell;
    assert history + ([cell.letter] + Letters(rest)) == history + [cell.letter] + Letters(rest);
  }
}
