/** The enumerator of keys, values and items: a depth-first walk with an explicit stack and one shared buffer. */
module ItemsIters {
  import opened Options
  import opened Words
  import opened TrieNodes
  import opened Automata
  import opened Traversal
  import opened Slists
  import opened Patterns

  datatype ItemsType = Keys | Values | Items

  datatype Item = Key(key: Word) | Value(value: Output) | KeyValue(key: Word, value: Output)

  function ItemFor(kind: ItemsType, key: Word, value: Output): Item {
    match kind
    case Keys => Key(key)
    case Values => Value(value)
    case Items => KeyValue(key, value)
  }

  datatype Result = Yield(item: Item) | Stop | Invalid

  datatype StackItem = StackItem(node: Ptr, letter: Letter, depth: nat)

  /** The stack holds the nodes that spell `ws`, each with its last letter and its depth. */
  ghost predicate OnStack(nodes: map<Word, TrieNode>, contents: seq<StackItem>, ws: seq<Word>) {
    |contents| == |ws| && forall i :: 0 <= i < |ws| ==>
      contents[i].node == Target(nodes, ws[i]) && contents[i].depth == |ws[i]| &&
      (ws[i] != [] ==> contents[i].letter == ws[i][|ws[i]| - 1])
  }

  /** The deepest node is on top, and the buffer spells the parent of every node on the stack. */
  ghost predicate Spelled(buffer: seq<Letter>, ws: seq<Word>) {
    (forall i, j :: 0 <= i < j < |ws| ==> |ws[i]| >= |ws[j]|) &&
    forall i :: 0 <= i < |ws| && ws[i] != [] ==> |ws[i]| < |buffer| && buffer[1..|ws[i]|] == Parent(ws[i])
  }

  /** Writing the letter of the top node completes its word in the buffer. */
  lemma WordInBuffer(buffer: seq<Letter>, w: Word, ws: seq<Word>, letter: Letter)
    requires Spelled(buffer, [w] + ws) && |w| < |buffer| && (w != [] ==> letter == w[|w| - 1])
    ensures buffer[|w| := letter][1..|w| + 1] == w
    ensures Spelled(buffer[|w| := letter], ws) && forall i :: 0 <= i < |ws| ==> |ws[i]| <= |w|
  {
    var after := buffer[|w| := letter];
    var all := [w] + ws;
    assert all[0] == w;
    forall i | 0 <= i < |ws| ensures |ws[i]| <= |w| && (ws[i] != [] ==> after[1..|ws[i]|] == Parent(ws[i])) {
      assert all[i + 1] == ws[i];
      if ws[i] != [] {
        assert after[1..|ws[i]|] == buffer[1..|ws[i]|];
      }
    }
    forall i, j | 0 <= i < j < |ws| ensures |ws[i]| >= |ws[j]| {
      assert all[i + 1] == ws[i] && all[j + 1] == ws[j];
    }
    if w != [] {
      assert after[1..|w| + 1] == buffer[1..|w|] + [letter];
      assert w == Parent(w) + [w[|w| - 1]];
    }
  }

  /** The children of the node in the buffer may follow it on the stack. */
  lemma {:induction false} SpelledPushed(buffer: seq<Letter>, w: Word, letters: seq<Letter>, ws: seq<Word>)
    requires |w| < |buffer| && buffer[1..|w| + 1] == w && (letters != [] ==> |w| + 1 < |buffer|)
    requires Spelled(buffer, ws) && forall i :: 0 <= i < |ws| ==> |ws[i]| <= |w|
    ensures Spelled(buffer, Pushed(w, letters, ws))
    ensures forall i :: 0 <= i < |Pushed(w, letters, ws)| ==> |Pushed(w, letters, ws)[i]| <= |w| + 1
  {
    if letters != [] {
      var u := w + [letters[|letters| - 1]];
      SpelledPushed(buffer, w, letters[..|letters| - 1], ws);
      assert Parent(u) == w;
      SpelledTop(buffer, u, Pushed(w, letters[..|letters| - 1], ws));
    }
  }

  lemma SpelledTop(buffer: seq<Letter>, u: Word, ws: seq<Word>)
    requires Spelled(buffer, ws) && forall i :: 0 <= i < |ws| ==> |ws[i]| <= |u|
    requires u != [] && |u| < |buffer| && buffer[1..|u|] == Parent(u)
    ensures Spelled(buffer, [u] + ws)
  {
  }

  method StackOf(item: StackItem) returns (list: List<StackItem>)
    ensures fresh(list) && list.Valid() && list.Contents() == [item] && forall x :: x in list.items ==> fresh(x)
  {
    list := new List<StackItem>();
    var only := new ListItem(item);
    list.PushFront(only);
  }

  class ItemsIter {
    const automaton: Automaton
    const version: int
    const kind: ItemsType
    const pattern: Pattern
    const buffer: array<Letter>
    const stack: List<StackItem>
    ghost var words: seq<Word>  // what the nodes on the stack spell

    /** All that the iterator holds lies in these nodes. */
    ghost predicate Placed(nodes: map<Word, TrieNode>)
      reads this, buffer, stack, stack.items
    {
      && stack.Valid() && OnStack(nodes, stack.Contents(), words)
      && (nodes == map[] ==> |words| <= 1) && (nodes != map[] ==> forall w :: w in words ==> w in nodes)
      && buffer.Length > 0 && Bounded(nodes.Keys, buffer.Length - 1)
      && (kind != Values ==> Spelled(buffer[..], words))
    }

    ghost predicate Ready()
      reads this, automaton, automaton.nodes.Values, buffer, stack, stack.items
    {
      automaton.Shape() && Placed(automaton.nodes)
    }

    ghost predicate Valid()
      reads this, automaton, automaton.nodes.Values, buffer, stack, stack.items
    {
      version == automaton.version ==> Ready()
    }

    /** The keys still to be yielded. */
    ghost function Pending(): seq<Word>
      requires Ready()
      reads this, automaton, automaton.nodes.Values, buffer, stack, stack.items
    {
      if automaton.nodes == map[] then [] else
        TableIsTree(automaton.nodes);
        WalkStack(TableOf(automaton.nodes), automaton.Keys().Keys, pattern, words, buffer.Length - 1)
    }

    constructor (a: Automaton, pattern: Pattern, kind: ItemsType, junk: Letter)
      requires a.Shape() && a.longestWord >= 0 && Bounded(a.nodes.Keys, a.longestWord)
      ensures automaton == a && version == a.version && this.pattern == pattern && this.kind == kind
      ensures buffer.Length == a.longestWord + 1
      ensures Ready() && words == [[]] && fresh(stack) && fresh(buffer) && forall x :: x in stack.items ==> fresh(x)
    {
      automaton, version := a, a.version;
      this.pattern, this.kind := pattern, kind;
      buffer := new Letter[a.longestWord + 1](i => junk);
      var list := StackOf(StackItem(a.root, junk, 0));
      stack := list;
      words := [[]];
      new;
      hide Tree, TrieOf, Spelled, Bounded, List.Valid, List.Contents;
      RootSpelled(buffer[..]);
    }

    /** Pushes one child of the node `w`. */
    method PushChild(child: Ptr, letter: Letter, depth: nat, ghost w: Word)
      requires stack.Valid() && OnStack(automaton.nodes, stack.Contents(), words)
      requires child == Target(automaton.nodes, w + [letter]) && depth == |w| + 1
      modifies stack, this`words
      ensures stack.Valid() && OnStack(automaton.nodes, stack.Contents(), words)
      ensures words == [w + [letter]] + old(words)
      ensures forall x :: x in stack.items ==> x in old(stack.items) || fresh(x)
    {
      var item := new ListItem(StackItem(child, letter, depth));
      stack.PushFront(item);
      words := [w + [letter]] + words;
    }

    /** Pushes the children the pattern allows. */
    method PushChildren(node: TrieNode, depth: nat, ghost w: Word)
      requires Tree(automaton.nodes) && w in automaton.nodes && node == automaton.nodes[w] && depth == |w|
      requires stack.Valid() && OnStack(automaton.nodes, stack.Contents(), words)
      modifies stack, this`words
      ensures stack.Valid() && OnStack(automaton.nodes, stack.Contents(), words)
      ensures words == Pushed(w, pattern.Chosen(TableOf(automaton.nodes)[w], |w|), old(words))
      ensures forall x :: x in stack.items ==> x in old(stack.items) || fresh(x)
    {
      hide Tree, OnStack, List.Valid, List.Contents;
      ghost var T := TableOf(automaton.nodes);
      if !pattern.Fixes(depth) {
        var i := 0;
        while i < |node.next|
          invariant 0 <= i <= |node.next|
          invariant stack.Valid() && OnStack(automaton.nodes, stack.Contents(), words)
          invariant words == Pushed(w, T[w][..i], old(words))
          invariant forall x :: x in stack.items ==> x in old(stack.items) || fresh(x)
        {
          ChildAt(automaton.nodes, w, i);
          assert T[w][..i + 1][..i] == T[w][..i];
          PushChild(node.next[i].child, node.next[i].letter, depth + 1, w);
          i := i + 1;
        }
        assert T[w][..|node.next|] == T[w];
      } else {
        var letter := pattern.letters[depth];
        ChildUnder(automaton.nodes, w, letter);
        var child := node.GetNext(letter);
        if child != Null {
          assert [letter][..0] == [];
          PushChild(child, letter, depth + 1, w);
        }
      }
    }

    ghost function Bound(): nat
      requires buffer.Length > 0
    {
      buffer.Length - 1
    }

    /** The nodes at and below the stack. */
    ghost function Work(): nat
      requires Ready()
      reads this, automaton, automaton.nodes.Values, buffer, stack, stack.items
    {
      if automaton.nodes == map[] then 0 else
        TableIsTree(automaton.nodes);
        Load(TableOf(automaton.nodes), words, Bound())
    }

    /** The item made from the first pending key. */
    ghost predicate Fits(item: Item, k: Word)
      reads this, automaton, automaton.nodes.Values
    {
      k in automaton.Keys() && item == ItemFor(kind, k, automaton.Keys()[k])
    }

    /** Writes the letter of the visited node into the buffer. */
    method Write(letter: Letter, depth: nat, ghost w: Word, ghost ws: seq<Word>, ghost letters: seq<Letter>)
      requires depth == |w| < buffer.Length && (w != [] ==> letter == w[|w| - 1])
      requires kind != Values ==> Spelled(buffer[..], [w] + ws)
      requires letters != [] ==> |w| + 1 < buffer.Length
      modifies buffer
      ensures kind != Values ==> buffer[1..depth + 1] == w && Spelled(buffer[..], Pushed(w, letters, ws))
    {
      if kind != Values {
        WordInBuffer(buffer[..], w, ws, letter);
        buffer[depth] := letter;
        assert buffer[..] == old(buffer[..])[depth := letter];
        assert buffer[1..depth + 1] == buffer[..][1..depth + 1];
        SpelledPushed(buffer[..], w, letters, ws);
      }
    }

    /** The item for the word in the buffer. */
    method Make(node: TrieNode, depth: nat) returns (item: Item)
      requires kind != Values ==> depth < buffer.Length
      ensures kind != Values ==> item == ItemFor(kind, buffer[1..depth + 1], node.output)
      ensures kind == Values ==> item == Value(node.output)
    {
      match kind
      case Keys => item := Key(buffer[1..depth + 1]);
      case Values => item := Value(node.output);
      case Items => item := KeyValue(buffer[1..depth + 1], node.output);
    }

    /** Everything of Ready that does not depend on the stack and the buffer contents. */
    ghost predicate Settled()
      reads automaton`kind, automaton`root, automaton`nodes, automaton.nodes.Values`word, automaton.nodes.Values`next
      reads automaton.nodes.Values`eow, automaton.nodes.Values`output
    {
      && automaton.Shape() && automaton.kind != Empty
      && buffer.Length > 0 && Bounded(automaton.nodes.Keys, buffer.Length - 1)
    }

    /** The allowed children of a visited node go on the stack, its letter into the buffer. */
    method Expand(node: TrieNode, letter: Letter, depth: nat, ghost w: Word)
      requires Settled() && w in automaton.nodes && node == automaton.nodes[w] && depth == |w|
      requires w != [] ==> letter == w[|w| - 1]
      requires stack.Valid() && OnStack(automaton.nodes, stack.Contents(), words)
      requires forall u :: u in words ==> u in automaton.nodes
      requires kind != Values ==> Spelled(buffer[..], [w] + words)
      modifies stack, buffer, this`words
      ensures Ready() && words == Pushed(w, pattern.Chosen(TableOf(automaton.nodes)[w], |w|), old(words))
      ensures depth < buffer.Length && (kind != Values ==> buffer[1..depth + 1] == w)
      ensures forall x :: x in stack.items ==> x in old(stack.items) || fresh(x)
    {
      hide Ready, Settled, Tree, OnStack, Spelled, List.Valid, List.Contents, Bounded, TableOf, Pattern.Chosen;
      SettledIsTree();
      TableIsTree(automaton.nodes);
      ghost var ws, letters := words, pattern.Chosen(TableOf(automaton.nodes)[w], |w|);
      ChosenLetters(TableOf(automaton.nodes), pattern, w);
      PushedNodes(TableOf(automaton.nodes), w, letters, ws);
      ChildIsShallow(w, letters);
      PushChildren(node, depth, w);
      Write(letter, depth, w, ws, letters);
      SettledIsReady();
    }

    lemma SettledIsReady()
      requires Settled() && stack.Valid() && OnStack(automaton.nodes, stack.Contents(), words)
      requires forall u :: u in words ==> u in automaton.nodes
      requires kind != Values ==> Spelled(buffer[..], words)
      ensures Ready()
    {
      hide Tree, TrieOf, OnStack, Spelled, Bounded;
      SettledIsTree();
    }

    /** A visited node is expanded, and yielded if it ends a key of fitting length. */
    method VisitNode(node: TrieNode, letter: Letter, depth: nat, ghost w: Word) returns (item: Option<Item>)
      requires Settled() && w in automaton.nodes && node == automaton.nodes[w] && depth == |w|
      requires w != [] ==> letter == w[|w| - 1]
      requires stack.Valid() && OnStack(automaton.nodes, stack.Contents(), words)
      requires forall u :: u in words ==> u in automaton.nodes
      requires kind != Values ==> Spelled(buffer[..], [w] + words)
      modifies stack, buffer, this`words
      ensures Ready() && words == Pushed(w, pattern.Chosen(TableOf(automaton.nodes)[w], |w|), old(words))
      ensures item.Some? <==> pattern.LengthFits(depth) && w in automaton.Keys()
      ensures item.Some? ==> Fits(item.value, w)
      ensures forall x :: x in stack.items ==> x in old(stack.items) || fresh(x)
    {
      hide Ready, Settled, Tree, OnStack, Spelled, List.Valid, List.Contents, TableOf, Pattern.Chosen;
      hide Pattern.LengthFits;
      Expand(node, letter, depth, w);
      item := None;
      if pattern.LengthFits(depth) && node.eow {
        var made := Make(node, depth);
        item := Some(made);
      }
    }

    lemma SettledIsTree()
      requires Settled()
      ensures Tree(automaton.nodes) && [] in automaton.nodes && TableOf(automaton.nodes).Keys == automaton.nodes.Keys
    {
    }

    lemma ChildIsShallow(w: Word, letters: seq<Letter>)
      requires Settled() && w in automaton.nodes && forall c :: c in letters ==> w + [c] in automaton.nodes
      ensures |w| < buffer.Length && (letters != [] ==> |w| + 1 < buffer.Length)
    {
      if letters != [] {
        assert letters[0] in letters;
        assert |w + [letters[0]]| <= buffer.Length - 1;
      }
    }

    /** What a step does to the keys still to be yielded. */
    ghost predicate Stepped(before: seq<Word>, r: Result)
      requires Ready()
      reads this, automaton, automaton.nodes.Values, buffer, stack, stack.items
    {
      match r
      case Yield(item) => before != [] && Fits(item, before[0]) && Pending() == before[1..]
      case Stop => before == [] == Pending()
      case Invalid => false
    }

    /** Takes the top off the stack. */
    method Pop() returns (top: Option<StackItem>, ghost w: Word)
      requires Ready()
      modifies stack, this`words
      ensures Ready() && forall x :: x in stack.items ==> x in old(stack.items)
      ensures top.None? <==> old(words) == []
      ensures top.None? ==> words == []
      ensures top.Some? ==> old(words) == [w] + words && top.value.node == Target(automaton.nodes, w)
                            && top.value.depth == |w| && (w != [] ==> top.value.letter == w[|w| - 1])
                            && (kind != Values ==> Spelled(buffer[..], [w] + words))
    {
      hide Automaton.Shape, Bounded, Spelled, OnStack, List.Valid, List.Contents;
      StackSize(automaton.nodes, stack.Contents(), words);
      var item := stack.PopFirst();
      if item == null {
        top, w := None, [];
      } else {
        ghost var all := words;
        w, words := all[0], all[1..];
        assert all == [w] + words;
        StackRest(automaton.nodes, old(stack.Contents()), all);
        SpelledRest(buffer[..], w, words);
        assert forall u :: u in words ==> u in all;
        top := Some(item.data);
      }
    }

    /** One round of the loop: it ends the step or leaves less to do. */
    method Round() returns (r: Option<Result>)
      requires Ready()
      modifies stack, buffer, this`words
      ensures Ready()
      ensures r.None? ==> Pending() == old(Pending()) && Work() < old(Work())
      ensures r.Some? ==> Stepped(old(Pending()), r.value)
      ensures forall x :: x in stack.items ==> x in old(stack.items) || fresh(x)
    {
      hide Ready, Settled, Stepped, Pending, Work, Fits, Spelled, OnStack, List.Valid, List.Contents;
      hide Pattern.LengthFits;
      hide Tree, TrieOf, WalkStack, Load, TableOf, Automaton.Keys, Automaton.Shape, Pattern.Chosen, Pushed, Bounded;
      hide TreeTable;
      ghost var T, K, ws := TableOf(automaton.nodes), automaton.Keys().Keys, words;
      ghost var before, load := Pending(), Work();
      Pends(T, K);
      var top;
      ghost var w;
      top, w := Pop();
      if top.None? || top.value.node == Null {
        Pends(T, K);
        Ended(before);
        return Some(Stop);
      }
      Proceeds(w, T);
      Pends(T, K);
      WalkRound(T, K, pattern, w, words, Bound());
      LoadShrinks(T, pattern, w, words, Bound());
      if pattern.Drops(top.value.depth) {
        return None;
      }
      var item := VisitNode(top.value.node.node, top.value.letter, top.value.depth, w);
      Pends(T, K);
      if item.Some? {
        Yielded(before, w, item.value);
        r := Some(Yield(item.value));
      } else {
        r := None;
        assert [] + Pending() == Pending();
      }
    }

    lemma Pends(T: Table, K: set<Word>)
      requires Ready() && T == TableOf(automaton.nodes) && K == automaton.Keys().Keys
      ensures automaton.nodes != map[] ==> TreeTable(T) && Bounded(T.Keys, Bound()) && forall u :: u in words ==> u in T
      ensures automaton.nodes != map[] ==> Pending() == WalkStack(T, K, pattern, words, Bound())
      ensures automaton.nodes != map[] ==> Work() == Load(T, words, Bound())
      ensures automaton.nodes == map[] || words == [] ==> Pending() == []
      ensures automaton.nodes != map[] && words != [] ==> Target(automaton.nodes, words[0]) != Null
    {
      if automaton.nodes != map[] {
        TableIsTree(automaton.nodes);
      }
    }

    lemma Ended(before: seq<Word>)
      requires Ready() && before == [] == Pending()
      ensures Stepped(before, Stop)
    {
    }

    lemma Yielded(before: seq<Word>, w: Word, item: Item)
      requires Ready() && Fits(item, w) && before == [w] + Pending()
      ensures Stepped(before, Yield(item))
    {
    }

    lemma Proceeds(w: Word, T: Table)
      requires Ready() && Target(automaton.nodes, w) != Null && T == TableOf(automaton.nodes)
      ensures Settled() && w in automaton.nodes && w in T && automaton.nodes != map[]
      ensures stack.Valid() && OnStack(automaton.nodes, stack.Contents(), words)
      ensures forall u :: u in words ==> u in automaton.nodes
    {
    }

    /** Once the automaton has changed the iterator gives an error and touches nothing. Before that it yields the
        first pending key, or stops when there is none. */
    method Next() returns (r: Result)
      requires Valid()
      modifies stack, buffer, this`words
      ensures Valid() && forall x :: x in stack.items ==> x in old(stack.items) || fresh(x)
      ensures r == Invalid <==> version != automaton.version
      ensures version == automaton.version ==> old(Ready()) && Stepped(old(Pending()), r)
    {
      hide Ready, Stepped, Pending, Work;
      if version != automaton.version {
        return Invalid;
      }
      ghost var before := Pending();
      while true
        invariant Ready() && Pending() == before
        invariant forall x :: x in stack.items ==> x in old(stack.items) || fresh(x)
        decreases Work()
      {
        var round := Round();
        if round.Some? {
          NotInvalid(before, round.value);
          return round.value;
        }
      }
    }

    lemma NotInvalid(before: seq<Word>, r: Result)
      requires Ready() && Stepped(before, r)
      ensures r != Invalid
    {
    }
  }

  lemma StackSize(nodes: map<Word, TrieNode>, contents: seq<StackItem>, ws: seq<Word>)
    requires OnStack(nodes, contents, ws)
    ensures |contents| == |ws|
  {
  }

  lemma StackRest(nodes: map<Word, TrieNode>, contents: seq<StackItem>, ws: seq<Word>)
    requires OnStack(nodes, contents, ws) && ws != []
    ensures contents != [] && contents[0].node == Target(nodes, ws[0]) && contents[0].depth == |ws[0]|
    ensures ws[0] != [] ==> contents[0].letter == ws[0][|ws[0]| - 1]
    ensures OnStack(nodes, contents[1..], ws[1..])
  {
  }

  lemma RootSpelled(buffer: seq<Letter>)
    ensures Spelled(buffer, [[]])
  {
  }

  lemma SpelledRest(buffer: seq<Letter>, w: Word, ws: seq<Word>)
    ensures Spelled(buffer, [w] + ws) ==> Spelled(buffer, ws)
  {
    if Spelled(buffer, [w] + ws) {
      assert forall i :: 0 <= i < |ws| ==> ([w] + ws)[i + 1] == ws[i];
      forall i, j | 0 <= i < j < |ws| ensures |ws[i]| >= |ws[j]| {
        assert ([w] + ws)[i + 1] == ws[i] && ([w] + ws)[j + 1] == ws[j];
      }
    }
  }

  lemma ChildAt(nodes: map<Word, TrieNode>, w: Word, i: nat)
    requires Tree(nodes) && w in nodes && i < |nodes[w].next|
    ensures nodes[w].next[i].child == Target(nodes, w + [nodes[w].next[i].letter])
  {
    LookupFinds(nodes[w].next, i);
    TreeLookup(nodes, w, nodes[w].next[i].letter);
  }

  lemma ChildUnder(nodes: map<Word, TrieNode>, w: Word, c: Letter)
    requires Tree(nodes) && w in nodes
    ensures Lookup(nodes[w].next, c) == Target(nodes, w + [c])
    ensures Lookup(nodes[w].next, c) != Null <==> c in TableOf(nodes)[w]
  {
    TreeLookup(nodes, w, c);
    TableIsTree(nodes);
    assert Branches(TableOf(nodes), w);
  }

  /** The matching keys in the order of the walk. */
  ghost function Matching(a: Automaton, pattern: Pattern): seq<Word>
    requires a.Shape() && a.longestWord >= 0 && Bounded(a.nodes.Keys, a.longestWord)
    reads a, a.nodes.Values
  {
    if a.nodes == map[] then [] else
      TableIsTree(a.nodes);
      Walk(TableOf(a.nodes), a.Keys().Keys, pattern, [], a.longestWord)
  }

  /** They are exactly the keys of the wanted length that have the pattern's letter, or any letter under a wildcard, at
      every place that both have; each once, parents first and later children before earlier ones. */
  lemma MatchingKeys(a: Automaton, pattern: Pattern)
    requires a.Shape() && a.longestWord >= 0 && Bounded(a.nodes.Keys, a.longestWord)
    ensures Distinct(Matching(a, pattern)) && InStackOrder(TableOf(a.nodes), Matching(a, pattern))
    ensures forall k :: k in Matching(a, pattern) <==>
              && k in a.Keys()
              && (match pattern.how
                  case ExactLength => |k| == |pattern.letters|
                  case AtMostPrefix => |k| <= |pattern.letters|
                  case AtLeastPrefix => |k| >= |pattern.letters|)
              && forall j :: 0 <= j < |k| && j < |pattern.letters| ==>
                   pattern.wildcard == Some(pattern.letters[j]) || k[j] == pattern.letters[j]
  {
    if a.nodes != map[] {
      TableIsTree(a.nodes);
      WalkYieldsMatches(TableOf(a.nodes), a.Keys().Keys, pattern, a.longestWord);
      WalkInOrder(TableOf(a.nodes), a.Keys().Keys, pattern, [], a.longestWord);
    }
  }

  /** In the default mode and without a wildcard these are the keys that start with the pattern. */
  lemma PrefixedKeys(a: Automaton, pattern: Pattern)
    requires a.Shape() && a.longestWord >= 0 && Bounded(a.nodes.Keys, a.longestWord)
    requires pattern.how == AtLeastPrefix && pattern.wildcard == None
    ensures forall k :: k in Matching(a, pattern) <==> k in a.Keys() && IsPrefix(pattern.letters, k)
  {
    if a.nodes != map[] {
      TableIsTree(a.nodes);
      WalkYieldsPrefixed(TableOf(a.nodes), a.Keys().Keys, pattern, a.longestWord);
    }
  }

  /** keys, values and items: an item for each matching key, in the order of the walk. */
  method Enumerate(a: Automaton, pattern: Pattern, kind: ItemsType, junk: Letter) returns (items: seq<Item>)
    requires a.Shape() && a.longestWord >= 0 && Bounded(a.nodes.Keys, a.longestWord)
    ensures |items| == |Matching(a, pattern)|
    ensures forall i :: 0 <= i < |items| ==>
              var k := Matching(a, pattern)[i];
              && k in a.Keys()
              && match kind
                 case Keys => items[i] == Key(k)
                 case Values => items[i] == Value(a.Keys()[k])
                 case Items => items[i] == KeyValue(k, a.Keys()[k])
  {
    hide ItemsIter.Ready, ItemsIter.Stepped, ItemsIter.Pending, ItemsIter.Fits, Automaton.Shape, Automaton.Keys;
    hide Bounded;
    hide Matching;
    var iter := new ItemsIter(a, pattern, kind, junk);
    ghost var keys := iter.Pending();
    Begins(iter);
    items := [];
    while true
      invariant iter.Ready() && fresh(iter.stack) && fresh(iter.buffer)
      invariant forall x :: x in iter.stack.items ==> fresh(x)
      invariant |items| <= |keys| && iter.Pending() == keys[|items|..]
      invariant Listed(items, kind, keys[..|items|], a.Keys())
      decreases |keys| - |items|
    {
      var r := iter.Next();
      if r == Stop {
        Finished(iter, keys[|items|..]);
        assert keys[..|items|] == keys;
        return;
      }
      Continues(iter, keys[|items|..], r);
      assert keys[|items|..][0] == keys[|items|] && keys[|items|..][1..] == keys[|items| + 1..];
      assert keys[..|items| + 1] == keys[..|items|] + [keys[|items|]];
      ListedNext(items, r.item, kind, keys[..|items|], keys[|items|], a.Keys());
      items := items + [r.item];
    }
  }

  ghost predicate Listed(items: seq<Item>, kind: ItemsType, keys: seq<Word>, values: map<Word, Output>) {
    |items| == |keys| &&
    forall i :: 0 <= i < |keys| ==> keys[i] in values && items[i] == ItemFor(kind, keys[i], values[keys[i]])
  }

  lemma ListedNext(items: seq<Item>, item: Item, kind: ItemsType, keys: seq<Word>, k: Word, values: map<Word, Output>)
    requires Listed(items, kind, keys, values) && k in values && item == ItemFor(kind, k, values[k])
    ensures Listed(items + [item], kind, keys + [k], values)
  {
  }

  lemma Finished(iter: ItemsIter, before: seq<Word>)
    requires iter.Ready() && iter.Stepped(before, Stop)
    ensures before == []
  {
  }

  lemma Continues(iter: ItemsIter, before: seq<Word>, r: Result)
    requires iter.Ready() && iter.Stepped(before, r) && r != Stop
    ensures r.Yield? && before != [] && iter.Pending() == before[1..] && before[0] in iter.automaton.Keys()
    ensures r.item == ItemFor(iter.kind, before[0], iter.automaton.Keys()[before[0]])
  {
  }

  /** A new iterator has all matching keys before it. */
  lemma Begins(iter: ItemsIter)
    requires iter.Ready() && iter.words == [[]] && iter.buffer.Length == iter.automaton.longestWord + 1
    ensures iter.Pending() == Matching(iter.automaton, iter.pattern)
  {
    var T, K := TableOf(iter.automaton.nodes), iter.automaton.Keys().Keys;
    iter.Pends(T, K);
    if iter.automaton.nodes != map[] {
      var none: seq<Word>, start: Word := [], [];
      assert [start] + none == [start];
      WalkTop(T, K, iter.pattern, start, none, iter.Bound());
    }
  }
}
