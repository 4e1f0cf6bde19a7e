/** Depth-first traversal of the trie, parents before children, children in table order. */
module Traversal {
  import opened Words
  import opened TrieNodes
  import opened Automata

  /** The shape of a trie as a value: the child letters of each node, in table order. */
  type Table = map<Word, seq<Letter>>

  ghost predicate Branches(T: Table, w: Word)
    requires w in T
  {
    (forall i, j :: 0 <= i < j < |T[w]| ==> T[w][i] != T[w][j]) &&
    forall c :: c in T[w] <==> w + [c] in T
  }

  ghost predicate TreeTable(T: Table) {
    PrefixClosed(T.Keys) && forall w :: w in T ==> Branches(T, w)
  }

  ghost predicate Bounded(N: set<Word>, bound: nat) {
    forall w :: w in N ==> |w| <= bound
  }

  ghost function Preorder(T: Table, w: Word, bound: nat): seq<Word>
    requires TreeTable(T) && Bounded(T.Keys, bound) && w in T
    decreases bound - |w|, |T[w]| + 1
  {
    [w] + Forest(T, w, T[w], bound)
  }

  ghost function Forest(T: Table, w: Word, letters: seq<Letter>, bound: nat): seq<Word>
    requires TreeTable(T) && Bounded(T.Keys, bound) && w in T
    requires forall c :: c in letters ==> w + [c] in T
    decreases bound - |w|, |letters|
  {
    if letters == [] then []
    else
      assert letters[0] in letters;
      Preorder(T, w + [letters[0]], bound) + Forest(T, w, letters[1..], bound)
  }

  ghost predicate Distinct<X>(s: seq<X>) {
    forall i, j :: 0 <= i < j < |s| ==> s[i] != s[j]
  }

  lemma DistinctConcat<X>(s: seq<X>, t: seq<X>)
    requires Distinct(s) && Distinct(t) && forall x :: x in s ==> x !in t
    ensures Distinct(s + t)
  {
    forall i, j | 0 <= i < j < |s + t| ensures (s + t)[i] != (s + t)[j] {
      if i < |s| <= j {
        assert s[i] in s && t[j - |s|] in t;
      }
    }
  }

  /** Some child of `w` among `letters` leads to `u`. */
  predicate Through(w: Word, letters: seq<Letter>, u: Word) {
    IsPrefix(w, u) && |w| < |u| && u[|w|] in letters
  }

  lemma ThroughChild(w: Word, c: Letter, u: Word)
    ensures IsPrefix(w + [c], u) <==> IsPrefix(w, u) && |w| < |u| && u[|w|] == c
  {
  }

  /** Traversal visits exactly the nodes below its start, each once. */
  lemma {:induction false} PreorderVisits(T: Table, w: Word, bound: nat)
    requires TreeTable(T) && Bounded(T.Keys, bound) && w in T
    ensures Distinct(Preorder(T, w, bound))
    ensures forall u :: u in Preorder(T, w, bound) <==> u in T && IsPrefix(w, u)
    decreases bound - |w|, |T[w]| + 1
  {
    var letters, rest := T[w], Forest(T, w, T[w], bound);
    assert Branches(T, w);
    ForestVisits(T, w, letters, bound);
    DistinctConcat([w], rest);
    forall u ensures u in Preorder(T, w, bound) <==> u in T && IsPrefix(w, u) {
      if u in T && IsPrefix(w, u) && u != w {
        NextLetter(T, w, u);
      }
    }
  }

  lemma NextLetter(T: Table, w: Word, u: Word)
    requires TreeTable(T) && w in T && u in T && IsPrefix(w, u) && u != w
    ensures |w| < |u| && u[|w|] in T[w]
  {
    PrefixesAreNodes(T.Keys, u, |w| + 1);
    assert u[..|w| + 1] == w + [u[|w|]];
    assert Branches(T, w);
  }

  lemma {:induction false} ForestVisits(T: Table, w: Word, letters: seq<Letter>, bound: nat)
    requires TreeTable(T) && Bounded(T.Keys, bound) && w in T
    requires Distinct(letters) && forall c :: c in letters ==> w + [c] in T
    ensures Distinct(Forest(T, w, letters, bound))
    ensures forall u :: u in Forest(T, w, letters, bound) <==> u in T && Through(w, letters, u)
    decreases bound - |w|, |letters|
  {
    if letters != [] {
      var c := letters[0];
      assert c in letters;
      PreorderVisits(T, w + [c], bound);
      ForestVisits(T, w, letters[1..], bound);
      forall u ensures IsPrefix(w + [c], u) <==> IsPrefix(w, u) && |w| < |u| && u[|w|] == c {
        ThroughChild(w, c, u);
      }
      DistinctConcat(Preorder(T, w + [c], bound), Forest(T, w, letters[1..], bound));
    }
  }

  // ---------------------------------------------------------------- the order of a visit

  ghost predicate Earlier(letters: seq<Letter>, c: Letter, d: Letter) {
    exists m, n :: 0 <= m < n < |letters| && letters[m] == c && letters[n] == d
  }

  /** The words part after `n` letters, and `u` goes on with the child that is earlier in the table. */
  ghost predicate Parts(T: Table, u: Word, v: Word, n: nat) {
    n < |u| && n < |v| && u[..n] == v[..n] && u[..n] in T && Earlier(T[u[..n]], u[n], v[n])
  }

  /** The parent comes first; of words that part, the one with the earlier child. */
  ghost predicate Precedes(T: Table, u: Word, v: Word) {
    (|u| < |v| && IsPrefix(u, v)) || exists n :: Parts(T, u, v, n)
  }

  ghost predicate InTableOrder(T: Table, ws: seq<Word>) {
    forall i, j :: 0 <= i < j < |ws| ==> Precedes(T, ws[i], ws[j])
  }

  lemma OrderConcat(T: Table, f: seq<Word>, g: seq<Word>)
    requires InTableOrder(T, f) && InTableOrder(T, g) && forall u, v :: u in f && v in g ==> Precedes(T, u, v)
    ensures InTableOrder(T, f + g)
  {
    hide Precedes;
    forall i, j | 0 <= i < j < |f + g| ensures Precedes(T, (f + g)[i], (f + g)[j]) {
      if i < |f| <= j {
        assert (f + g)[i] in f && (f + g)[j] in g;
      }
    }
  }

  lemma ChildPrecedes(T: Table, w: Word, i: nat, u: Word, v: Word)
    requires w in T && i < |T[w]| && IsPrefix(w + [T[w][i]], u) && Through(w, T[w][i + 1..], v)
    ensures Precedes(T, u, v)
  {
    var n :| 0 <= n < |T[w][i + 1..]| && T[w][i + 1..][n] == v[|w|];
    assert T[w][i + 1 + n] == v[|w|];
    ThroughChild(w, T[w][i], u);
    assert u[..|w|] == w && v[..|w|] == w;
    assert Parts(T, u, v, |w|);
  }

  /** Traversal visits parents before children and the children in table order. */
  lemma {:induction false} PreorderInOrder(T: Table, w: Word, bound: nat)
    requires TreeTable(T) && Bounded(T.Keys, bound) && w in T
    ensures InTableOrder(T, Preorder(T, w, bound))
    decreases bound - |w|, |T[w]| + 1
  {
    hide InTableOrder, Precedes;
    assert Branches(T, w);
    assert T[w][0..] == T[w];
    ForestInOrder(T, w, 0, bound);
    ForestVisits(T, w, T[w], bound);
    OneInOrder(T, w);
    forall u, v | u in [w] && v in Forest(T, w, T[w], bound) ensures Precedes(T, u, v) {
      ParentPrecedes(T, u, v);
    }
    OrderConcat(T, [w], Forest(T, w, T[w], bound));
  }

  lemma OneInOrder(T: Table, w: Word)
    ensures InTableOrder(T, [w]) && InTableOrder(T, [])
  {
  }

  lemma ParentPrecedes(T: Table, u: Word, v: Word)
    requires |u| < |v| && IsPrefix(u, v)
    ensures Precedes(T, u, v)
  {
  }

  lemma {:induction false} ForestInOrder(T: Table, w: Word, i: nat, bound: nat)
    requires TreeTable(T) && Bounded(T.Keys, bound) && w in T && i <= |T[w]|
    ensures forall c :: c in T[w][i..] ==> w + [c] in T
    ensures InTableOrder(T, Forest(T, w, T[w][i..], bound))
    decreases bound - |w|, |T[w]| - i
  {
    hide InTableOrder, Precedes;
    assert Branches(T, w);
    var letters := T[w][i..];
    if letters == [] {
      OneInOrder(T, w);
    } else {
      var c := letters[0];
      assert c in letters && letters[1..] == T[w][i + 1..];
      PreorderInOrder(T, w + [c], bound);
      ForestInOrder(T, w, i + 1, bound);
      PreorderVisits(T, w + [c], bound);
      ForestVisits(T, w, letters[1..], bound);
      forall u, v | u in Preorder(T, w + [c], bound) && v in Forest(T, w, letters[1..], bound)
        ensures Precedes(T, u, v) {
        ChildPrecedes(T, w, i, u, v);
      }
      OrderConcat(T, Preorder(T, w + [c], bound), Forest(T, w, letters[1..], bound));
    }
  }

  // ---------------------------------------------------------------- over linked nodes

  function TableLetters(next: seq<Pair>): (r: seq<Letter>)
    ensures |r| == |next| && forall i :: 0 <= i < |next| ==> r[i] == next[i].letter
  {
    seq(|next|, i requires 0 <= i < |next| => next[i].letter)
  }

  ghost function TableOf(nodes: map<Word, TrieNode>): Table
    reads nodes.Values`next
  {
    map w | w in nodes :: TableLetters(nodes[w].next)
  }

  lemma TableIsTree(nodes: map<Word, TrieNode>)
    requires Tree(nodes)
    ensures TreeTable(TableOf(nodes)) && TableOf(nodes).Keys == nodes.Keys
  {
    var T := TableOf(nodes);
    forall w | w in T ensures Branches(T, w) {
      forall c ensures c in T[w] <==> w + [c] in T {
        assert Lookup(nodes[w].next, c) == Target(nodes, w + [c]);
        LookupMisses(nodes[w].next, c);
        if c in T[w] {
          var i :| 0 <= i < |T[w]| && T[w][i] == c;
          LookupFinds(nodes[w].next, i);
        }
      }
    }
  }

  /** The words of the nodes below `w`, in visiting order. */
  ghost function Visit(nodes: map<Word, TrieNode>, w: Word, bound: nat): seq<Word>
    requires Tree(nodes) && Bounded(nodes.Keys, bound) && w in nodes
    reads nodes.Values`next, nodes.Values`word
  {
    TableIsTree(nodes);
    Preorder(TableOf(nodes), w, bound)
  }

  /** `visited` are the nodes that spell `ws`. */
  ghost predicate Spell(nodes: map<Word, TrieNode>, visited: seq<TrieNode>, ws: seq<Word>) {
    |visited| == |ws| && forall i :: 0 <= i < |ws| ==> ws[i] in nodes && visited[i] == nodes[ws[i]]
  }

  lemma {:induction false} ForestSnoc(T: Table, w: Word, letters: seq<Letter>, c: Letter, bound: nat)
    requires TreeTable(T) && Bounded(T.Keys, bound) && w in T
    requires w + [c] in T && forall d :: d in letters ==> w + [d] in T
    ensures Forest(T, w, letters + [c], bound) == Forest(T, w, letters, bound) + Preorder(T, w + [c], bound)
    decreases |letters|
  {
    if letters == [] {
      assert letters + [c] == [c];
    } else {
      assert letters[0] in letters;
      assert (letters + [c])[1..] == letters[1..] + [c];
      ForestSnoc(T, w, letters[1..], c, bound);
    }
  }

  /** The words visited from `w` before its i-th child. */
  ghost function VisitPart(nodes: map<Word, TrieNode>, w: Word, i: nat, bound: nat): seq<Word>
    requires Tree(nodes) && Bounded(nodes.Keys, bound) && w in nodes && i <= |nodes[w].next|
    reads nodes.Values`next, nodes.Values`word
  {
    TableIsTree(nodes);
    var T := TableOf(nodes);
    assert Branches(T, w);
    [w] + Forest(T, w, T[w][..i], bound)
  }

  lemma VisitChild(nodes: map<Word, TrieNode>, w: Word, i: nat, bound: nat)
    requires Tree(nodes) && Bounded(nodes.Keys, bound) && w in nodes && i < |nodes[w].next|
    ensures var u := w + [nodes[w].next[i].letter];
            u in nodes && nodes[w].next[i].child == To(nodes[u]) && |u| == |w| + 1 <= bound &&
            VisitPart(nodes, w, i + 1, bound) == VisitPart(nodes, w, i, bound) + Visit(nodes, u, bound)
  {
    var c, T := nodes[w].next[i].letter, TableOf(nodes);
    LookupFinds(nodes[w].next, i);
    TreeLookup(nodes, w, c);
    TableIsTree(nodes);
    assert Branches(T, w);
    assert T[w][..i + 1] == T[w][..i] + [c];
    ForestSnoc(T, w, T[w][..i], c, bound);
  }

  lemma VisitWhole(nodes: map<Word, TrieNode>, w: Word, bound: nat)
    requires Tree(nodes) && Bounded(nodes.Keys, bound) && w in nodes
    ensures VisitPart(nodes, w, 0, bound) == [w]
    ensures VisitPart(nodes, w, |nodes[w].next|, bound) == Visit(nodes, w, bound)
  {
    assert TableOf(nodes)[w][..|nodes[w].next|] == TableOf(nodes)[w];
  }

  /** The depths that go with visited words, counted from `depth` at a word of length `from`. */
  ghost predicate Deep(depths: seq<int>, ws: seq<Word>, from: int, depth: int) {
    |depths| == |ws| && forall i :: 0 <= i < |ws| ==> depths[i] == depth + |ws[i]| - from
  }

  /** trie_traverse: the visited nodes with their depths, in the order the callback sees them. */
  method Traverse(node: TrieNode, depth: int, ghost nodes: map<Word, TrieNode>, ghost bound: nat)
      returns (visited: seq<TrieNode>, depths: seq<int>)
    requires Tree(nodes) && IsNode(nodes, node) && Bounded(nodes.Keys, bound)
    ensures Spell(nodes, visited, Visit(nodes, node.word, bound))
    ensures Deep(depths, Visit(nodes, node.word, bound), |node.word|, depth)
    decreases bound - |node.word|
  {
    hide Tree, Bounded;
    visited, depths := [node], [depth];
    VisitWhole(nodes, node.word, bound);
    var i := 0;
    while i < |node.next|
      invariant 0 <= i <= |node.next|
      invariant Spell(nodes, visited, VisitPart(nodes, node.word, i, bound))
      invariant Deep(depths, VisitPart(nodes, node.word, i, bound), |node.word|, depth)
    {
      VisitChild(nodes, node.word, i, bound);
      TreeWords(nodes);
      var below, belowDepths := Traverse(node.next[i].child.node, depth + 1, nodes, bound);
      visited, depths := visited + below, depths + belowDepths;
      i := i + 1;
    }
  }

  /** From the root, every node is visited exactly once. */
  lemma VisitsAll(nodes: map<Word, TrieNode>, visited: seq<TrieNode>, bound: nat)
    requires Tree(nodes) && Bounded(nodes.Keys, bound) && Spell(nodes, visited, Visit(nodes, [], bound))
    ensures Distinct(Visit(nodes, [], bound)) && forall w :: w in Visit(nodes, [], bound) <==> w in nodes
    ensures Distinct(visited) && forall n :: n in visited <==> n in nodes.Values
  {
    var ws := Visit(nodes, [], bound);
    TableIsTree(nodes);
    PreorderVisits(TableOf(nodes), [], bound);
    assert forall w: Word :: IsPrefix([], w);
    forall n | n in nodes.Values ensures n in visited {
      var w :| w in nodes && nodes[w] == n;
      assert w in ws;
      var i :| 0 <= i < |ws| && ws[i] == w;
      assert visited[i] == n;
    }
  }
}
