/** What both serialisers must carry over: a trie as a value, apart from the addresses of its nodes. */
module Copies {
  import opened Options
  import opened Words
  import opened TrieNodes
  import opened Automata
  import opened Traversal

  /** A node without addresses: its child letters in table order, its value if it ends a key, the word of the node
      its fail link leads to. */
  datatype Content = Content(letters: seq<Letter>, value: Option<Output>, fail: Option<Word>)

  type Picture = map<Word, Content>

  ghost function FailWord(nodes: map<Word, TrieNode>, fail: Ptr): Option<Word> {
    if exists u :: u in nodes && fail == To(nodes[u]) then
      var u :| u in nodes && fail == To(nodes[u]);
      Some(u)
    else None
  }

  lemma FailWordIs(nodes: map<Word, TrieNode>, u: Word)
    requires u in nodes && forall w :: w in nodes ==> nodes[w].word == w
    ensures FailWord(nodes, To(nodes[u])) == Some(u)
  {
  }

  lemma NoFailWord(nodes: map<Word, TrieNode>)
    ensures FailWord(nodes, Null) == None
  {
  }

  ghost function PictureOf(nodes: map<Word, TrieNode>): Picture
    reads nodes.Values
  {
    map w | w in nodes ::
      Content(TableLetters(nodes[w].next), if nodes[w].eow then Some(nodes[w].output) else None,
              FailWord(nodes, nodes[w].fail))
  }

  /** No fail link is stale. */
  ghost predicate Live(nodes: map<Word, TrieNode>)
    reads nodes.Values`fail
  {
    forall w :: w in nodes ==> nodes[w].fail == Null || exists u :: u in nodes && nodes[w].fail == To(nodes[u])
  }

  lemma LinkedIsLive(nodes: map<Word, TrieNode>)
    requires PrefixClosed(nodes.Keys) && Linked(nodes)
    ensures Live(nodes)
  {
  }

  /** The node `w` has the value and the children that the content says. */
  ghost predicate Shows(nodes: map<Word, TrieNode>, n: TrieNode, w: Word, c: Content)
    reads n`eow, n`output, n`next
  {
    && n.eow == c.value.Some? && (n.eow ==> n.output == c.value.value)
    && |n.next| == |c.letters|
    && forall j :: 0 <= j < |n.next| ==> n.next[j] == Pair(c.letters[j], Target(nodes, w + [c.letters[j]]))
  }

  /** The nodes are a copy of what the picture shows, apart from the fail links. */
  ghost predicate Similar(nodes: map<Word, TrieNode>, P: Picture)
    reads nodes.Values`word, nodes.Values`eow, nodes.Values`output, nodes.Values`next
  {
    nodes.Keys == P.Keys && forall w :: w in P ==> nodes[w].word == w && Shows(nodes, nodes[w], w, P[w])
  }

  /** The pointer for a fail link to the node of this word. */
  ghost function LinkTo(nodes: map<Word, TrieNode>, fail: Option<Word>): Ptr {
    match fail case None => Null case Some(u) => Target(nodes, u)
  }

  ghost predicate FailsShow(nodes: map<Word, TrieNode>, P: Picture)
    requires nodes.Keys == P.Keys
    reads nodes.Values`fail
  {
    forall w :: w in P ==> nodes[w].fail == LinkTo(nodes, P[w].fail) && (P[w].fail.Some? ==> P[w].fail.value in P)
  }

  /** The nodes are a copy of what the picture shows; fail links are compared only if `fails`. */
  ghost predicate Depicts(nodes: map<Word, TrieNode>, P: Picture, fails: bool)
    reads nodes.Values
  {
    Similar(nodes, P) && (fails ==> FailsShow(nodes, P))
  }

  ghost function LettersOf(P: Picture): Table {
    map w | w in P :: P[w].letters
  }

  lemma ChildInPicture(P: Picture, w: Word, i: nat)
    requires TreeTable(LettersOf(P)) && w in P && i < |P[w].letters|
    ensures w + [P[w].letters[i]] in P
  {
    assert Branches(LettersOf(P), w);
    assert P[w].letters[i] in LettersOf(P)[w];
  }

  ghost function KeysOf(P: Picture): map<Word, Output> {
    map w | w in P && P[w].value.Some? :: P[w].value.value
  }

  ghost predicate LinkedPicture(P: Picture) {
    [] in P && P[[]].fail == None && forall w :: w in P && w != [] ==> P[w].fail == Some(Fail(P.Keys, w))
  }

  lemma PictureIsSimilar(nodes: map<Word, TrieNode>)
    requires Tree(nodes)
    ensures Similar(nodes, PictureOf(nodes))
    ensures LettersOf(PictureOf(nodes)) == TableOf(nodes) && TreeTable(TableOf(nodes))
  {
    var P := PictureOf(nodes);
    TableIsTree(nodes);
    forall w | w in P ensures Shows(nodes, nodes[w], w, P[w]) {
      forall j | 0 <= j < |nodes[w].next|
        ensures nodes[w].next[j] == Pair(P[w].letters[j], Target(nodes, w + [P[w].letters[j]])) {
        LookupFinds(nodes[w].next, j);
        TreeLookup(nodes, w, nodes[w].next[j].letter);
      }
    }
  }

  lemma PictureShowsFails(nodes: map<Word, TrieNode>)
    requires Live(nodes)
    ensures FailsShow(nodes, PictureOf(nodes))
  {
  }

  /** Nodes similar to a tree are linked as that tree. */
  lemma CopyIsTree(nodes: map<Word, TrieNode>, P: Picture)
    requires Similar(nodes, P) && TreeTable(LettersOf(P))
    ensures Tree(nodes) && TableOf(nodes) == LettersOf(P)
  {
    var T := LettersOf(P);
    forall w | w in nodes ensures Tidy(nodes[w].next) {
      assert Branches(T, w);
      forall j | 0 <= j < |nodes[w].next| ensures nodes[w].next[j].child.To? {
        assert T[w][j] in T[w];
      }
    }
    forall w, c {:trigger Lookup(nodes[w].next, c)} | w in nodes
      ensures Lookup(nodes[w].next, c) == Target(nodes, w + [c])
    {
      assert Branches(T, w);
      LookupMisses(nodes[w].next, c);
      if w + [c] in nodes {
        var j :| 0 <= j < |T[w]| && T[w][j] == c;
        LookupFinds(nodes[w].next, j);
      }
    }
    assert PrefixClosed(nodes.Keys);
    forall w | w in nodes ensures TableLetters(nodes[w].next) == T[w] {
      assert Shows(nodes, nodes[w], w, P[w]);
    }
  }

  /** A faithful copy has the same picture, so nothing that a picture shows can tell it from the original. */
  lemma CopyHasPicture(nodes: map<Word, TrieNode>, P: Picture)
    requires Depicts(nodes, P, true) && PrefixClosed(nodes.Keys)
    ensures PictureOf(nodes) == P
    ensures Linked(nodes) <==> LinkedPicture(P)
  {
    hide FailWord, PrefixClosed;
    forall w | w in nodes ensures PictureOf(nodes)[w] == P[w] {
      assert Shows(nodes, nodes[w], w, P[w]);
      assert TableLetters(nodes[w].next) == P[w].letters;
      if P[w].fail.Some? {
        FailWordIs(nodes, P[w].fail.value);
      } else {
        NoFailWord(nodes);
      }
    }
    LinkedByPicture(nodes, P);
  }

  lemma LinkedByPicture(nodes: map<Word, TrieNode>, P: Picture)
    requires Depicts(nodes, P, true) && PrefixClosed(nodes.Keys)
    ensures Linked(nodes) <==> LinkedPicture(P)
  {
    forall w | w in P && w != []
      ensures nodes[w].fail == To(nodes[Fail(nodes.Keys, w)]) <==> P[w].fail == Some(Fail(P.Keys, w)) {
      assert nodes[w].fail == LinkTo(nodes, P[w].fail);
    }
  }

  lemma SimilarKeys(nodes: map<Word, TrieNode>, P: Picture)
    requires Similar(nodes, P)
    ensures nodes.Keys == P.Keys
  {
  }

  lemma ShownFails(nodes: map<Word, TrieNode>, P: Picture)
    requires nodes.Keys == P.Keys && FailsShow(nodes, P)
    ensures forall w :: w in nodes ==> nodes[w].fail == LinkTo(nodes, P[w].fail)
  {
  }

  lemma KeysByPicture(nodes: map<Word, TrieNode>, P: Picture)
    requires Similar(nodes, P)
    ensures KeysIn(nodes) == KeysOf(P)
  {
    forall w | w in P
      ensures nodes[w].eow == P[w].value.Some? && (nodes[w].eow ==> nodes[w].output == P[w].value.value) {
      assert Shows(nodes, nodes[w], w, P[w]);
    }
  }

  // ---------------------------------------------------------------- records

  datatype Link = Link(letter: Letter, id: int)

  /** A dumped node: numbers stand for the nodes it links to, zero for the null pointer. */
  datatype Record = Record(output: Output, fail: int, eow: bool, links: seq<Link>)

  ghost predicate Stands(r: Record, c: Content, w: Word, ids: map<Word, int>, fails: bool) {
    && r.eow == c.value.Some?
    && (fails ==> r.fail == match c.fail case None => 0 case Some(u) => if u in ids then ids[u] else 0)
    && |r.links| == |c.letters|
    && forall j :: 0 <= j < |r.links| ==>
         w + [c.letters[j]] in ids && r.links[j] == Link(c.letters[j], ids[w + [c.letters[j]]])
  }

  function Cast(id: int): Ptr {
    if id == 0 then Null else Raw(id)
  }

  /** The node was made from the record; its links still are numbers. */
  ghost predicate Unlinked(n: TrieNode, r: Record)
    reads n`eow, n`output, n`fail, n`next
  {
    && n.eow == r.eow && n.output == r.output && n.fail == Cast(r.fail) && |n.next| == |r.links|
    && forall j :: 0 <= j < |r.links| ==> n.next[j] == Pair(r.links[j].letter, Raw(r.links[j].id))
  }

  /** The node was made from the record and linked again. */
  ghost predicate Relinked(n: TrieNode, r: Record, M: map<int, TrieNode>, fails: bool)
    reads n`eow, n`output, n`fail, n`next
  {
    && n.eow == r.eow && n.output == r.output
    && n.fail == (if fails && r.fail in M then To(M[r.fail]) else Cast(r.fail))
    && |n.next| == |r.links|
    && forall j :: 0 <= j < |r.links| ==>
         r.links[j].id in M && n.next[j] == Pair(r.links[j].letter, To(M[r.links[j].id]))
  }

  /** `M` finds the node of every number. */
  ghost predicate Finds(M: map<int, TrieNode>, ids: map<Word, int>, nodes: map<Word, TrieNode>) {
    ids.Keys == nodes.Keys && 0 !in M && forall w :: w in ids ==> ids[w] in M && M[ids[w]] == nodes[w]
  }

  lemma RelinkedShows(nodes: map<Word, TrieNode>, w: Word, r: Record, c: Content, M: map<int, TrieNode>,
                      ids: map<Word, int>,
                      fails: bool)
    requires w in nodes && Relinked(nodes[w], r, M, fails) && Stands(r, c, w, ids, fails) && Finds(M, ids, nodes)
    requires (r.eow ==> r.output == c.value.value) && (fails && c.fail.Some? ==> c.fail.value in ids)
    ensures Shows(nodes, nodes[w], w, c) && (fails ==> nodes[w].fail == LinkTo(nodes, c.fail))
  {
    forall j | 0 <= j < |nodes[w].next|
      ensures nodes[w].next[j] == Pair(c.letters[j], Target(nodes, w + [c.letters[j]])) {
      assert r.links[j].id in M;
    }
  }

  // ---------------------------------------------------------------- the new nodes

  ghost function NodesOf(made: seq<TrieNode>, ws: seq<Word>): map<Word, TrieNode>
    requires |made| == |ws| && Distinct(ws)
  {
    map k: int | 0 <= k < |ws| :: ws[k] := made[k]
  }

  lemma FreshNodes(made: seq<TrieNode>, ws: seq<Word>)
    requires |made| == |ws| && Distinct(ws)
    ensures forall n :: n in NodesOf(made, ws).Values ==> n in made
  {
  }

  /** Names the new nodes by the words they now spell. */
  ghost method NameNodes(made: seq<TrieNode>, ws: seq<Word>)
    requires |made| == |ws| && Distinct(made)
    modifies set n | n in made :: n`word
    ensures forall k :: 0 <= k < |ws| ==> made[k].word == ws[k]
  {
    var k := 0;
    while k < |made|
      invariant 0 <= k <= |made|
      invariant forall i :: 0 <= i < k ==> made[i].word == ws[i]
    {
      assert made[k] in made;
      made[k].word := ws[k];
      k := k + 1;
    }
  }
}
