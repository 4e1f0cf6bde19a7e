/** The automaton object and the invariant that ties its linked nodes to a map from keys to values. */
module Automata {
  import opened Words
  import opened TrieNodes

  datatype Kind = Empty | Trie | AhoCorasick

  datatype Store = Ints | Length | Any

  datatype KeyType = String | Sequence

  /** The statistics of the version they were taken at. */
  datatype Stats = Stats(version: int, nodesCount: int, wordsCount: int, longestWord: int, linksCount: int,
                         totalSize: int)

  /** The pointer to the node that spells `u`. */
  ghost function Target(nodes: map<Word, TrieNode>, u: Word): Ptr {
    if u in nodes then To(nodes[u]) else Null
  }

  /** `nodes` are linked as a trie: exactly one node for each spelled word, reached through its parent. */
  ghost predicate Tree(nodes: map<Word, TrieNode>)
    reads nodes.Values`word, nodes.Values`next
  {
    && PrefixClosed(nodes.Keys)
    && (forall w :: w in nodes ==> nodes[w].word == w && Tidy(nodes[w].next))
    && (forall w, c {:trigger Lookup(nodes[w].next, c)} ::
          w in nodes ==> Lookup(nodes[w].next, c) == Target(nodes, w + [c]))
  }

  ghost predicate IsNode(nodes: map<Word, TrieNode>, node: TrieNode)
    reads node`word
  {
    node.word in nodes && nodes[node.word] == node
  }

  lemma TreeWords(nodes: map<Word, TrieNode>)
    requires Tree(nodes)
    ensures PrefixClosed(nodes.Keys) && forall w :: w in nodes ==> nodes[w].word == w
  {
  }

  lemma TreeLookup(nodes: map<Word, TrieNode>, w: Word, c: Letter)
    requires Tree(nodes) && w in nodes
    ensures Lookup(nodes[w].next, c) == Target(nodes, w + [c])
  {
  }

  /** Every fail link leads to the longest proper suffix that is a node; the root has none. */
  ghost predicate Linked(nodes: map<Word, TrieNode>)
    reads nodes.Values`fail
  {
    [] in nodes && nodes[[]].fail == Null &&
    forall w :: w in nodes && w != [] ==> nodes[w].fail == To(nodes[Fail(nodes.Keys, w)])
  }

  /** The words that nodes end, with their values. */
  ghost function KeysIn(nodes: map<Word, TrieNode>): map<Word, Output>
    reads nodes.Values`eow, nodes.Values`output
  {
    map w | w in nodes && nodes[w].eow :: nodes[w].output
  }

  class Automaton {
    var kind: Kind
    var store: Store
    var keyType: KeyType
    var count: int
    var longestWord: int
    var root: Ptr
    var version: int
    var stats: Stats
    ghost var nodes: map<Word, TrieNode>  // the allocated nodes, by the word they spell
    ghost var held: multiset<Output>  // the object references taken and not given back
    ghost var lost: nat  // removed words that `count` still includes
    ghost var unseen: bool  // a word went and neither `version` nor `stats` was renewed since

    constructor (store: Store, keyType: KeyType)
      ensures kind == Empty && this.store == store && this.keyType == keyType
      ensures count == 0 && longestWord == 0 && version == 0 && stats.version == -1
      ensures root == Null && nodes == map[] && held == multiset{} && lost == 0 && !unseen
    {
      kind, count, longestWord, version := Empty, 0, 0, 0;
      this.store, this.keyType := store, keyType;
      stats := Stats(-1, 0, 0, 0, 0, 0);
      root, nodes := Null, map[];
      held, lost, unseen := multiset{}, 0, false;
    }

    /** The dictionary the automaton stands for. */
    ghost function Keys(): map<Word, Output>
      reads this`nodes, nodes.Values`eow, nodes.Values`output
    {
      KeysIn(nodes)
    }

    /** No fail link leaves the root. */
    ghost predicate RootIsTop()
      reads this`nodes, nodes.Values`fail
    {
      [] in nodes ==> nodes[[]].fail == Null
    }

    /** The pointer structure: the nodes spell the root and exactly the prefixes of the keys. */
    ghost predicate Shape()
      reads this`kind, this`root, this`nodes
      reads nodes.Values`word, nodes.Values`next, nodes.Values`eow, nodes.Values`output
    {
      if kind == Empty then root == Null && nodes == map[]
      else Tree(nodes) && root == To(nodes[[]]) && TrieOf(nodes.Keys, Keys().Keys)
    }
  }

  lemma ShapeIsTrie(a: Automaton)
    requires a.Shape() && a.kind != Empty
    ensures TrieOf(a.nodes.Keys, a.Keys().Keys)
  {
  }
}
