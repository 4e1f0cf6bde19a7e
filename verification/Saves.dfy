/** save: every node goes to the file with its own address and those of the nodes it links to. */
module Saves {
  import opened Options
  import opened Words
  import opened TrieNodes
  import opened Automata
  import opened Traversal
  import opened Copies
  import opened Upkeep
  import opened SaveBuffers
  import opened Files

  /** The number that a pointer is. */
  function Bits(address: TrieNode -> int, p: Ptr): int {
    match p
    case Null => 0
    case To(node) => address(node)
    case Raw(bits) => bits
    case Tag(_, _) => 0
  }

  function LinksOf(address: TrieNode -> int, next: seq<Pair>): (r: seq<Link>)
    ensures |r| == |next| && forall j :: 0 <= j < |r| ==> r[j] == Link(next[j].letter, Bits(address, next[j].child))
  {
    seq(|next|, i requires 0 <= i < |next| => Link(next[i].letter, Bits(address, next[i].child)))
  }

  /** What save_node writes for a node. In an automaton of objects the value goes behind the node, its length into the
      place of the value. */
  ghost predicate Saved(e: Entry, address: TrieNode -> int, serialize: Output -> seq<Byte>, store: Store,
                        node: TrieNode)
    reads node`output, node`fail, node`eow, node`next
  {
    && e.address == address(node)
    && e.record.eow == node.eow && e.record.fail == Bits(address, node.fail)
    && e.record.links == LinksOf(address, node.next)
    && (store != Any ==> e.record.output == node.output)
    && e.data == (if store == Any && node.eow then serialize(node.output) else [])
    && (store == Any && node.eow ==> e.record.output == |e.data|)
  }

  /** Acquires the place for one value and fills it. */
  method PutField(output: SaveBuffer<Byte>, S: Sizes, f: Field)
    requires output.Valid() && S.Of(f) <= output.buffer.Length
    modifies output`file, output`size, output.buffer
    ensures output.Valid() && output.Stored() == old(output.Stored()) + Bytes(S, f)
  {
    var at := output.Acquire(S.Of(f));
    output.Fill(at.value, Bytes(S, f));
  }

  /** automaton_save_node. The place of the value keeps what lay in the buffer, `junk`, where nothing is written. */
  method SaveNode(output: SaveBuffer<Byte>, node: TrieNode, store: Store, S: Sizes, junk: int,
                  address: TrieNode -> int, serialize: Output -> seq<Byte>) returns (ghost e: Entry)
    requires output.Valid() && S.pointer <= output.buffer.Length && S.node <= output.buffer.Length
    modifies output, output.buffer
    ensures output.Valid() && output.nodesCount == old(output.nodesCount) + 1
    ensures Saved(e, address, serialize, store, node)
    ensures output.Stored() == old(output.Stored()) + EntryBytes(S, e)
  {
    hide SaveBuffer.Valid, SaveBuffer.Stored, Bytes, LinkBytes, LinksOf;
    var before := output.Stored();
    PutField(output, S, Address(address(node)));
    var data: Option<seq<Byte>>, value := None, junk;
    if store != Any {
      value := node.output;
    } else if node.eow {
      data := Some(serialize(node.output));
      value := |data.value|;
    }
    var record := Record(value, Bits(address, node.fail), node.eow, LinksOf(address, node.next));
    PutField(output, S, NodeField(record));
    PutRest(output, S, record.links, data);
    ghost var bytes := if data.Some? then data.value else [];
    e := Entry(address(node), record, bytes);
    output.nodesCount := output.nodesCount + 1;
    Joined(before, Bytes(S, Address(e.address)), Bytes(S, NodeField(record)), LinkBytes(S, record.links) + bytes);
  }

  lemma Joined<T>(a: seq<T>, b: seq<T>, c: seq<T>, d: seq<T>)
    ensures a + b + c + d == a + (b + (c + d))
  {
  }

  method PutRest(output: SaveBuffer<Byte>, S: Sizes, links: seq<Link>, data: Option<seq<Byte>>)
    requires output.Valid()
    modifies output`file, output`size, output.buffer
    ensures output.Valid()
    ensures output.Stored() == old(output.Stored()) + (LinkBytes(S, links) + if data.Some? then data.value else [])
  {
    if |links| > 0 {
      output.Store(LinkBytes(S, links));
    }
    if data.Some? {
      output.Store(data.value);
    }
  }

  function HeaderOf(a: Automaton): Field
    reads a`kind, a`store, a`keyType, a`count, a`longestWord
  {
    Header(a.kind, a.store, a.keyType, a.count, a.longestWord)
  }

  /** The entries were written for the nodes `ws`, in this order. */
  ghost predicate SavedAll(es: seq<Entry>, address: TrieNode -> int, serialize: Output -> seq<Byte>, store: Store,
                           nodes: map<Word, TrieNode>, ws: seq<Word>)
    reads nodes.Values`output, nodes.Values`fail, nodes.Values`eow, nodes.Values`next
  {
    && |es| == |ws|
    && forall k :: 0 <= k < |ws| ==> ws[k] in nodes && Saved(es[k], address, serialize, store, nodes[ws[k]])
  }

  method SaveNodes(output: SaveBuffer<Byte>, visited: seq<TrieNode>, store: Store, S: Sizes, junk: int,
                   address: TrieNode -> int, serialize: Output -> seq<Byte>, ghost nodes: map<Word, TrieNode>,
                   ghost ws: seq<Word>) returns (ghost es: seq<Entry>)
    requires output.Valid() && S.pointer <= output.buffer.Length && S.node <= output.buffer.Length
    requires Spell(nodes, visited, ws)
    modifies output, output.buffer
    ensures output.Valid() && output.nodesCount == old(output.nodesCount) + |visited|
    ensures SavedAll(es, address, serialize, store, nodes, ws)
    ensures output.Stored() == old(output.Stored()) + EntriesBytes(S, es)
  {
    hide SaveBuffer.Valid, SaveBuffer.Stored, EntryBytes, EntriesBytes, Saved;
    es := [];
    NoEntries(S);
    var i := 0;
    ghost var before := output.Stored();
    while i < |visited|
      invariant 0 <= i <= |visited| && output.Valid() && output.nodesCount == old(output.nodesCount) + i
      invariant SavedAll(es, address, serialize, store, nodes, ws[..i])
      invariant output.Stored() == before + EntriesBytes(S, es)
    {
      ghost var e := SaveNode(output, visited[i], store, S, junk, address, serialize);
      EntriesBytesSnoc(S, es, e);
      es := es + [e];
      i := i + 1;
    }
    assert ws[..i] == ws;
  }

  lemma NoEntries(S: Sizes)
    ensures EntriesBytes(S, []) == []
  {
  }

  /** trie_traverse with automaton_save_node. */
  method SaveTrie(output: SaveBuffer<Byte>, a: Automaton, S: Sizes, junk: int, address: TrieNode -> int,
                  serialize: Output -> seq<Byte>) returns (ghost es: seq<Entry>, ghost ws: seq<Word>)
    requires a.Shape() && a.longestWord >= 0 && Bounded(a.nodes.Keys, a.longestWord)
    requires output.Valid() && S.pointer <= output.buffer.Length && S.node <= output.buffer.Length
    modifies output, output.buffer
    ensures output.Valid() && output.nodesCount == old(output.nodesCount) + |es|
    ensures output.Stored() == old(output.Stored()) + EntriesBytes(S, es)
    ensures SavedAll(es, address, serialize, a.store, a.nodes, ws) && ListsAll(ws, a.nodes)
  {
    hide SaveBuffer.Valid, SaveBuffer.Stored, EntriesBytes, SavedAll, Bounded, Tree, TrieOf, Automaton.Keys, Distinct;
    hide Visit;
    es, ws := [], [];
    if a.kind != Empty {
      var visited, depths;
      visited, depths, ws := VisitTrie(a, a.longestWord);
      RootFirst(a.nodes, a.longestWord);
      es := SaveNodes(output, visited, a.store, S, junk, address, serialize, a.nodes, ws);
      EntryCount(es, address, serialize, a.store, a.nodes, ws);
    } else {
      NothingToSave(S, address, serialize, a.store);
    }
  }

  /** All words of nodes, the root first. */
  ghost predicate ListsAll(ws: seq<Word>, nodes: map<Word, TrieNode>) {
    Distinct(ws) && (forall w :: w in ws <==> w in nodes) && (nodes != map[] ==> ws != [] && ws[0] == [])
  }

  lemma EntryCount(es: seq<Entry>, address: TrieNode -> int, serialize: Output -> seq<Byte>, store: Store,
                   nodes: map<Word, TrieNode>, ws: seq<Word>)
    requires SavedAll(es, address, serialize, store, nodes, ws)
    ensures |es| == |ws|
  {
  }

  lemma NothingToSave(S: Sizes, address: TrieNode -> int, serialize: Output -> seq<Byte>, store: Store)
    ensures EntriesBytes(S, []) == [] && ListsAll([], map[])
    ensures SavedAll([], address, serialize, store, map[], [])
  {
  }

  lemma RootFirst(nodes: map<Word, TrieNode>, bound: nat)
    requires Tree(nodes) && Bounded(nodes.Keys, bound)
    ensures Visit(nodes, [], bound) != [] && Visit(nodes, [], bound)[0] == []
  {
  }

  /** The file holds the header, an entry for every node, the root first, and the footer. */
  ghost predicate FileOf(a: Automaton, file: seq<Byte>, S: Sizes, address: TrieNode -> int,
                         serialize: Output -> seq<Byte>)
    reads a, a.nodes.Values
  {
    exists es, ws :: Describes(a, file, S, address, serialize, es, ws)
  }

  ghost predicate Describes(a: Automaton, file: seq<Byte>, S: Sizes, address: TrieNode -> int,
                            serialize: Output -> seq<Byte>,
                            es: seq<Entry>, ws: seq<Word>)
    reads a, a.nodes.Values
  {
    && file == FileBytes(S, HeaderOf(a), es)
    && SavedAll(es, address, serialize, a.store, a.nodes, ws) && ListsAll(ws, a.nodes)
  }

  /** save: the header, one entry for every node with the root first, the footer. */
  method Save(a: Automaton, S: Sizes, capacity: nat, junk: int, address: TrieNode -> int,
              serialize: Output -> seq<Byte>)
      returns (file: seq<Byte>)
    requires a.Shape() && a.longestWord >= 0 && Bounded(a.nodes.Keys, a.longestWord)
    requires S.pointer <= capacity && S.node <= capacity
    ensures FileOf(a, file, S, address, serialize)
    ensures Bytes(S, Header(a.kind, a.store, a.keyType, a.count, a.longestWord)) <= file
    ensures S.footer <= |file| && file[|file| - S.footer..] == Bytes(S, Footer(|a.nodes|))
  {
    hide SaveBuffer.Valid, EntriesBytes, SavedAll, Bounded, Automaton.Shape, Bytes, ListsAll, SaveBuffer.Stored;
    var output := new SaveBuffer<Byte>(capacity, Data(0));
    output.Store(Bytes(S, HeaderOf(a)));
    ghost var es, ws := SaveTrie(output, a, S, junk, address, serialize);
    output.Store(Bytes(S, Footer(output.nodesCount)));
    output.Finalize();
    file := output.file;
    Joined([], Bytes(S, HeaderOf(a)), EntriesBytes(S, es), Bytes(S, Footer(|es|)));
    assert Describes(a, file, S, address, serialize, es, ws);
    ListCount(ws, a.nodes);
    EntryCount(es, address, serialize, a.store, a.nodes, ws);
  }

  lemma ListCount(ws: seq<Word>, nodes: map<Word, TrieNode>)
    requires ListsAll(ws, nodes)
    ensures |ws| == |nodes|
  {
    assert forall w :: w in ws <==> w in nodes.Keys;
    DistinctCount(ws, nodes.Keys);
    assert |nodes| == |nodes.Keys|;
  }
}
