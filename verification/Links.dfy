/** make_automaton: the breadth-first construction of the fail links. */
module Links {
  import opened Words
  import opened Costs
  import opened TrieNodes
  import opened Automata
  import opened Slists
  import opened Frontiers

  /** The reached nodes have the right fail links. */
  ghost predicate LinkedAt(nodes: map<Word, TrieNode>, done: set<Word>)
    reads nodes.Values`fail
  {
    [] in nodes && forall u :: u in done ==> u in nodes && u != [] && nodes[u].fail == To(nodes[Fail(nodes.Keys, u)])
  }

  /** The nodes in the queue. */
  ghost predicate Holds(nodes: map<Word, TrieNode>, contents: seq<TrieNode>, q: seq<Word>) {
    |contents| == |q| && forall i :: 0 <= i < |q| ==> q[i] in nodes && contents[i] == nodes[q[i]]
  }

  /** The inner loop: follows fail links from `start` up to a node with a child under `letter`. It reads the
      fail links of nodes up to the depth of `start` only. */
  method FollowFails(root: TrieNode, start: TrieNode, letter: Letter,
                     ghost nodes: map<Word, TrieNode>, ghost done: set<Word>)
      returns (target: TrieNode, ghost steps: nat)
    requires Tree(nodes) && LinkedAt(nodes, done) && root == nodes[[]] && IsNode(nodes, start)
    requires forall u :: u in nodes && u != [] && |u| <= |start.word| ==> u in done
    ensures target == nodes[LongestSuffix(nodes.Keys, start.word + [letter])]
    ensures steps == FailSteps(nodes.Keys, start.word, letter)
    ensures var n := |LongestSuffix(nodes.Keys, start.word + [letter])|;
            steps == |(set u | u in nodes.Keys && u != [] && IsSuffix(u, start.word) && |u| >= n)|
  {
    hide Tree, PrefixClosed, LongestSuffix;
    TreeWords(nodes);
    ghost var N := nodes.Keys;
    FailStepsAre(N, start.word, letter);
    ghost var n := |LongestSuffix(N, start.word + [letter])|;
    assert (set u | u in N && u != [] && IsSuffix(u, start.word) && |u| >= n) ==
           set u | u in N && u != [] && IsSuffix(u, start.word) && |u| >= |LongestSuffix(N, start.word + [letter])|;
    steps := 0;
    var state := start;
    TreeLookup(nodes, state.word, letter);
    var next := state.GetNext(letter);
    while state != root && next == Null
      invariant IsNode(nodes, state)
      invariant steps + FailSteps(N, state.word, letter) == FailSteps(N, start.word, letter)
      invariant next == Target(nodes, state.word + [letter])
      invariant LongestSuffix(N, state.word + [letter]) == LongestSuffix(N, start.word + [letter])
      decreases |state.word|
    {
      FailStep(N, state.word, letter);
      state := state.fail.node;
      steps := steps + 1;
      TreeLookup(nodes, state.word, letter);
      next := state.GetNext(letter);
    }
    if next == Null {
      MissAtRoot(N, letter);
      target := root;
    } else {
      NodeIsItsSuffix(N, state.word + [letter]);
      target := next.node;
    }
  }

  /** Sets the fail link of one child. */
  method LinkChild(root: TrieNode, node: TrieNode, letter: Letter, child: TrieNode,
                   ghost nodes: map<Word, TrieNode>, ghost done: set<Word>) returns (ghost steps: nat)
    requires Tree(nodes) && LinkedAt(nodes, done) && root == nodes[[]]
    requires IsNode(nodes, node) && node.word != [] && node.word in done
    requires IsNode(nodes, child) && child.word == node.word + [letter] && child.word !in done
    requires forall u :: u in nodes && u != [] && |u| <= |node.word| ==> u in done
    modifies child`fail
    ensures LinkedAt(nodes, done + {child.word})
    ensures steps == LinkSteps(nodes.Keys, child.word)
  {
    hide PrefixClosed, LongestSuffix, Fail;
    assert Parent(child.word) == node.word;
    TreeWords(nodes);
    FailOfChild(nodes.Keys, node.word, letter);
    var target;
    target, steps := FollowFails(root, node.fail.node, letter, nodes, done);
    child.fail := To(target);
  }

  /** How far the construction got: the reached nodes and the words in the queue. */
  datatype Progress = Progress(done: set<Word>, q: seq<Word>)

  /** The fail links followed so far. */
  ghost function Spent(N: set<Word>, done: set<Word>): nat
    requires [] in N
  {
    Sum(done * (N - {[]}), StepsAt(N))
  }

  ghost predicate Ready(nodes: map<Word, TrieNode>, queue: List<TrieNode>, p: Progress, w: Word, part: set<Letter>)
    reads nodes.Values`fail, queue, queue.items
  {
    Frontier(nodes.Keys, p.done, p.q, w, part) && LinkedAt(nodes, p.done) &&
    queue.Valid() && Holds(nodes, queue.Contents(), p.q)
  }

  ghost function Reached(p: Progress, u: Word): Progress {
    Progress(p.done + {u}, p.q + [u])
  }

  lemma SpentMore(N: set<Word>, p: Progress, u: Word)
    requires u in N && u != [] && [] in N && u !in p.done
    ensures Spent(N, Reached(p, u).done) == Spent(N, p.done) + LinkSteps(N, u)
  {
    var S := Reached(p, u).done * (N - {[]});
    SumOne(S, StepsAt(N), u);
    assert S - {u} == p.done * (N - {[]});
  }

  lemma FailOnFirstLevel(N: set<Word>, c: Letter)
    requires [] in N
    ensures Fail(N, [] + [c]) == []
  {
    assert ([] + [c])[1..] == [];
  }

  lemma LevelsDone(N: set<Word>, done: set<Word>, q: seq<Word>, w: Word, part: set<Letter>)
    requires Frontier(N, done, q, w, part)
    ensures forall u :: u in N && u != [] && |u| <= |w| ==> u in done
    ensures w != [] ==> w in done
  {
    forall u | u in N && u != [] && |u| <= |w| ensures u in done {
      LevelDone(N, done, q, w, part, u);
    }
  }

  /** The fail link of a child of any node: the first level fails back to the root. */
  method LinkAny(root: TrieNode, node: TrieNode, letter: Letter, child: TrieNode,
                 ghost nodes: map<Word, TrieNode>, ghost p: Progress, ghost part: set<Letter>)
      returns (ghost steps: nat)
    requires Tree(nodes) && root == nodes[[]] && IsNode(nodes, node)
    requires IsNode(nodes, child) && child.word == node.word + [letter] && child.word !in p.done
    requires Frontier(nodes.Keys, p.done, p.q, node.word, part) && LinkedAt(nodes, p.done)
    modifies child`fail
    ensures LinkedAt(nodes, p.done + {child.word})
    ensures steps == LinkSteps(nodes.Keys, child.word)
  {
    hide Tree, PrefixClosed, LongestSuffix, Fail, Frontier;
    TreeWords(nodes);
    steps := 0;
    if node == root {
      FailOnFirstLevel(nodes.Keys, letter);
      child.fail := To(root);
    } else {
      LevelsDone(nodes.Keys, p.done, p.q, node.word, part);
      steps := LinkChild(root, node, letter, child, nodes, p.done);
    }
  }

  method Enqueue(queue: List<TrieNode>, child: TrieNode, ghost nodes: map<Word, TrieNode>, ghost q: seq<Word>)
    requires IsNode(nodes, child) && queue.Valid() && Holds(nodes, queue.Contents(), q)
    modifies queue, queue.last
    ensures queue.Valid() && Holds(nodes, queue.Contents(), q + [child.word])
    ensures forall x :: x in queue.items ==> x in old(queue.items) || fresh(x)
  {
    var item := new ListItem(child);
    queue.Append(item);
  }

  /** One child of `node` (src/Automaton.c:582-596 for the root, 608-636 for the others). */
  method ReachChild(root: TrieNode, node: TrieNode, letter: Letter, child: TrieNode, queue: List<TrieNode>,
                    ghost nodes: map<Word, TrieNode>, ghost p: Progress, ghost part: set<Letter>)
      returns (ghost p': Progress, ghost steps: nat)
    requires Tree(nodes) && root == nodes[[]] && IsNode(nodes, node)
    requires IsNode(nodes, child) && child.word == node.word + [letter] && letter !in part
    requires Ready(nodes, queue, p, node.word, part)
    modifies child`fail, queue, queue.last
    ensures Ready(nodes, queue, p', node.word, part + {letter})
    ensures p' == Reached(p, child.word) && child.word !in p.done && steps == LinkSteps(nodes.Keys, child.word)
    ensures forall x :: x in queue.items ==> x in old(queue.items) || fresh(x)
  {
    hide Tree, PrefixClosed, LongestSuffix, Fail, Frontier, LinkedAt, Holds;
    TreeWords(nodes);
    Reach(nodes.Keys, p.done, p.q, node.word, part, letter);
    steps := LinkAny(root, node, letter, child, nodes, p, part);
    Enqueue(queue, child, nodes, p.q);
    p' := Reached(p, child.word);
  }

  function FirstLetters(next: seq<Pair>, i: nat): set<Letter>
    requires i <= |next|
  {
    set j | 0 <= j < i :: next[j].letter
  }

  lemma NextLetter(nodes: map<Word, TrieNode>, w: Word, i: nat)
    requires Tree(nodes) && w in nodes && i < |nodes[w].next|
    ensures var c := nodes[w].next[i].letter;
            w + [c] in nodes && nodes[w].next[i].child == To(nodes[w + [c]]) &&
            c !in FirstLetters(nodes[w].next, i) &&
            FirstLetters(nodes[w].next, i + 1) == FirstLetters(nodes[w].next, i) + {c}
  {
    LookupFinds(nodes[w].next, i);
    TreeLookup(nodes, w, nodes[w].next[i].letter);
  }

  lemma AllLetters(nodes: map<Word, TrieNode>, w: Word)
    requires Tree(nodes) && w in nodes
    ensures forall c :: w + [c] in nodes ==> c in FirstLetters(nodes[w].next, |nodes[w].next|)
  {
    forall c | w + [c] in nodes ensures c in FirstLetters(nodes[w].next, |nodes[w].next|) {
      TreeLookup(nodes, w, c);
      LookupMisses(nodes[w].next, c);
    }
  }

  /** All children of `node`: they get their links and enter the queue. */
  method ExpandNode(root: TrieNode, node: TrieNode, queue: List<TrieNode>,
                    ghost nodes: map<Word, TrieNode>, ghost p: Progress)
      returns (ghost p': Progress, ghost steps: nat)
    requires Tree(nodes) && root == nodes[[]] && IsNode(nodes, node)
    requires Ready(nodes, queue, p, node.word, {})
    modifies nodes.Values`fail, queue, queue.items
    ensures Ready(nodes, queue, p', node.word, FirstLetters(node.next, |node.next|))
    ensures p' == p || p.done < p'.done
    ensures root.fail == old(root.fail)
    ensures Spent(nodes.Keys, p'.done) == Spent(nodes.Keys, p.done) + steps
    ensures forall x :: x in queue.items ==> x in old(queue.items) || fresh(x)
  {
    hide Tree, Frontier, LinkedAt, Holds, Spent, LinkSteps;
    TreeWords(nodes);
    p', steps := p, 0;
    var i := 0;
    assert FirstLetters(node.next, 0) == {};
    while i < |node.next|
      invariant 0 <= i <= |node.next|
      invariant Ready(nodes, queue, p', node.word, FirstLetters(node.next, i))
      invariant p' == p || p.done < p'.done
      invariant root.fail == old(root.fail)
      invariant Spent(nodes.Keys, p'.done) == Spent(nodes.Keys, p.done) + steps
      invariant forall x :: x in queue.items ==> x in old(queue.items) || fresh(x)
    {
      NextLetter(nodes, node.word, i);
      TreeWords(nodes);
      var child, letter := node.next[i].child.node, node.next[i].letter;
      assert nodes[child.word] in nodes.Values && (queue.last == null || queue.last in queue.items);
      ghost var before, more := p', 0;
      p', more := ReachChild(root, node, letter, child, queue, nodes, p', FirstLetters(node.next, i));
      SpentMore(nodes.Keys, before, child.word);
      steps := steps + more;
      i := i + 1;
    }
  }

  /** Takes the next node off the queue. */
  method Dequeue(queue: List<TrieNode>, ghost nodes: map<Word, TrieNode>, ghost p: Progress,
                 ghost w: Word, ghost part: set<Letter>)
      returns (node: Ptr, ghost p': Progress)
    requires Ready(nodes, queue, p, w, part) && forall c :: w + [c] in nodes ==> c in part
    requires forall u :: u in nodes ==> nodes[u].word == u
    modifies queue
    ensures node == Null <==> p.q == []
    ensures p'.done == p.done
    ensures node == Null ==> p' == p && Ready(nodes, queue, p', w, part)
    ensures node != Null ==> node.To? && IsNode(nodes, node.node) && p.q != [] && p' == p.(q := p.q[1..])
                             && Ready(nodes, queue, p', node.node.word, {})
    ensures forall x :: x in queue.items ==> x in old(queue.items)
  {
    hide Frontier, LinkedAt;
    var item := queue.PopFirst();
    if item == null {
      node, p' := Null, p;
    } else {
      Turn(nodes.Keys, p.done, p.q, w, part);
      node, p' := To(item.data), p.(q := p.q[1..]);
    }
  }

  /** The construction reached every node: all links are right, and their cost is linear. */
  lemma Finished(a: Automaton, p: Progress, w: Word, part: set<Letter>)
    requires a.Shape() && a.kind != Empty && a.RootIsTop()
    requires Frontier(a.nodes.Keys, p.done, [], w, part) && forall c :: w + [c] in a.nodes ==> c in part
    requires LinkedAt(a.nodes, p.done)
    ensures Linked(a.nodes) && Spent(a.nodes.Keys, p.done) == BuildSteps(a.nodes.Keys)
  {
    var N := a.nodes.Keys;
    forall u | u in N && u != [] ensures u in p.done {
      AllDone(N, p.done, w, part, u);
    }
    assert p.done * (N - {[]}) == N - {[]};
  }

  /** The first level and then, first in first out, the children of every reached node. */
  method Construct(root: TrieNode, ghost nodes: map<Word, TrieNode>)
      returns (ghost p: Progress, ghost w: Word, ghost part: set<Letter>, ghost steps: nat)
    requires Tree(nodes) && root == nodes[[]]
    modifies nodes.Values`fail
    ensures Frontier(nodes.Keys, p.done, [], w, part) && forall c :: w + [c] in nodes ==> c in part
    ensures nodes[[]].fail == old(nodes[[]].fail)
    ensures LinkedAt(nodes, p.done) && steps == Spent(nodes.Keys, p.done)
  {
    hide Tree, Ready, Spent;
    TreeWords(nodes);
    var queue := new List<TrieNode>();
    w, part := [], FirstLetters(root.next, |root.next|);
    EmptyProgress(nodes, queue);
    p, steps := ExpandNode(root, root, queue, nodes, Progress({}, []));
    AllLetters(nodes, []);
    while true
      invariant Ready(nodes, queue, p, w, part) && forall c :: w + [c] in nodes ==> c in part
      invariant Spent(nodes.Keys, p.done) == steps
      invariant root.fail == old(root.fail)
      invariant fresh(queue) && forall x :: x in queue.items ==> fresh(x)
      decreases nodes.Keys - p.done, |p.q|
    {
      ghost var more := 0;
      var next;
      next, p := Dequeue(queue, nodes, p, w, part);
      if next == Null {
        break;
      }
      assert forall i :: 0 <= i < |queue.items| ==> queue.items[i] in queue.items;
      p, more := ExpandNode(root, next.node, queue, nodes, p);
      AllLetters(nodes, next.node.word);
      steps := steps + more;
      w, part := next.node.word, FirstLetters(next.node.next, |next.node.next|);
      DoneAreNodes(nodes, queue, p, w, part);
    }
    ReadyMeans(nodes, queue, p, w, part);
  }

  lemma ReadyMeans(nodes: map<Word, TrieNode>, queue: List<TrieNode>, p: Progress, w: Word, part: set<Letter>)
    requires Ready(nodes, queue, p, w, part)
    ensures Frontier(nodes.Keys, p.done, p.q, w, part) && LinkedAt(nodes, p.done)
  {
  }

  /** make_automaton: whatever the fail links were before, each one now leads to the longest proper suffix that
      is a node. The fail links followed on the way are counted by BuildSteps, at most the letters of all keys. */
  method MakeAutomaton(a: Automaton) returns (made: bool, ghost steps: nat)
    requires a.Shape() && a.RootIsTop()
    modifies a`kind, a`version, a.nodes.Values`fail
    ensures made == (old(a.kind) == Trie)
    ensures !made ==> a.kind == old(a.kind) && a.version == old(a.version)
                      && forall n :: n in a.nodes.Values ==> n.fail == old(n.fail)
    ensures made ==> a.kind == AhoCorasick && a.version == old(a.version) + 1 && Linked(a.nodes)
    ensures made ==> steps == BuildSteps(a.nodes.Keys) <= TotalLength(a.Keys().Keys)
    ensures made ==> steps == |AllFollowed(a.nodes.Keys, a.nodes.Keys - {[]})|
    ensures !made ==> steps == 0
    ensures a.Shape() && a.RootIsTop()
  {
    hide Tree, TrieOf, Frontier, BuildSteps, Spent, TotalLength, LinkedAt, Linked, Fail, Automaton.Keys;
    hide AllFollowed;
    steps := 0;
    if a.kind != Trie {
      return false, steps;
    }
    TreeWords(a.nodes);
    ghost var p, w, part;
    p, w, part, steps := Construct(a.root.node, a.nodes);
    Finished(a, p, w, part);
    ShapeIsTrie(a);
    BuildIsLinear(a.nodes.Keys, a.Keys().Keys);
    BuildStepsAre(a.nodes.Keys);
    a.kind := AhoCorasick;
    a.version := a.version + 1;
    made := true;
  }

  lemma DoneAreNodes(nodes: map<Word, TrieNode>, queue: List<TrieNode>, p: Progress, w: Word, part: set<Letter>)
    requires Ready(nodes, queue, p, w, part)
    ensures p.done <= nodes.Keys
  {
  }

  lemma EmptyProgress(nodes: map<Word, TrieNode>, queue: List<TrieNode>)
    requires PrefixClosed(nodes.Keys) && queue.Valid() && queue.items == []
    ensures Ready(nodes, queue, Progress({}, []), [], {}) && Spent(nodes.Keys, {}) == 0
  {
    Begin(nodes.Keys);
  }
}
