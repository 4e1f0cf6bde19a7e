/** Pickling: nodes are numbered in visiting order, dumped into chunks of bytes, and linked again by number. */
module Pickles {
  import opened Options
  import opened Words
  import opened TrieNodes
  import opened Automata
  import opened Traversal
  import opened Copies
  import opened Dictionary
  import opened Upkeep
  import opened Replicas

  /** The sizes of a node header, of a child link and of the node counter of a chunk, and the largest chunk. */
  datatype Layout = Layout(header: nat, pair: nat, counter: nat, max: nat)
  {
    function NodeSize(links: nat): nat {
      header + links * pair
    }

    /** A header for each node of a trie and a link for each but the root are no more than the largest chunk. */
    predicate FitsOne(nodes: nat) {
      nodes * header + (nodes - 1) * pair <= max
    }

    function TotalSize(rs: seq<Record>): nat {
      if rs == [] then 0 else TotalSize(rs[..|rs| - 1]) + NodeSize(|rs[|rs| - 1].links|)
    }
  }

  /** A bytes object: the node counter at its start, the records behind it, and its length. */
  datatype Chunk = Chunk(count: int, records: seq<Record>, size: nat)
  {
    predicate Holds(L: Layout) {
      L.counter + L.TotalSize(records) <= size
    }
  }

  function AllRecords(chunks: seq<Chunk>): seq<Record> {
    if chunks == [] then [] else AllRecords(chunks[..|chunks| - 1]) + chunks[|chunks| - 1].records
  }

  datatype Pickled =
    | Fresh
    | State(chunks: seq<Chunk>, kind: Kind, store: Store, keyType: KeyType, count: int, longestWord: int,
            values: Option<seq<Output>>)

  lemma TotalSizeNext(L: Layout, rs: seq<Record>, r: Record)
    ensures L.TotalSize(rs + [r]) == L.TotalSize(rs) + L.NodeSize(|r.links|)
  {
    assert (rs + [r])[..|rs|] == rs;
  }

  lemma {:induction false} TotalSizeGrows(L: Layout, rs: seq<Record>, i: nat)
    requires i <= |rs|
    ensures L.TotalSize(rs[..i]) <= L.TotalSize(rs)
    decreases |rs|
  {
    if i < |rs| {
      assert rs[..|rs| - 1][..i] == rs[..i];
      TotalSizeGrows(L, rs[..|rs| - 1], i);
    } else {
      assert rs[..i] == rs;
    }
  }

  // ---------------------------------------------------------------- packing into chunks

  /** The first record of the k-th chunk did not fit into the chunk before. */
  ghost predicate Overflows(L: Layout, size: nat, chunks: seq<Chunk>, k: nat)
    requires 0 < k < |chunks|
  {
    chunks[k].records != [] ==>
      L.counter + L.TotalSize(chunks[k - 1].records) + L.NodeSize(|chunks[k].records[0].links|) > size
  }

  /** Every full chunk holds its records and at least one, and the next record did not fit; the last one is filled up to
      `top`. */
  ghost predicate Filled(L: Layout, size: nat, chunks: seq<Chunk>, top: nat) {
    && chunks != []
    && (forall k :: 0 <= k < |chunks| ==>
          chunks[k].count == |chunks[k].records| && chunks[k].Holds(L) && chunks[k].size == size)
    && (forall k :: 0 <= k < |chunks| - 1 ==> chunks[k].count > 0)
    && (forall k :: 0 < k < |chunks| ==> Overflows(L, size, chunks, k))
    && top == L.counter + L.TotalSize(chunks[|chunks| - 1].records)
  }

  /** One more record in the last chunk. If it is the first one there, it did not fit into the chunk before. */
  lemma {:induction false} FilledNext(L: Layout, size: nat, before: seq<Chunk>, top: nat, r: Record)
    requires Filled(L, size, before, top) && top + L.NodeSize(|r.links|) <= size
    requires |before| > 1 && before[|before| - 1].records == [] ==>
               L.counter + L.TotalSize(before[|before| - 2].records) + L.NodeSize(|r.links|) > size
    ensures var last := |before| - 1;
            var chunk := Chunk(before[last].count + 1, before[last].records + [r], size);
            && Filled(L, size, before[last := chunk], top + L.NodeSize(|r.links|))
            && AllRecords(before[last := chunk]) == AllRecords(before) + [r]
  {
    hide Layout.NodeSize, Layout.TotalSize;
    var last := |before| - 1;
    var rs := before[last].records;
    var after := before[last := Chunk(before[last].count + 1, rs + [r], size)];
    TotalSizeNext(L, rs, r);
    assert after[..last] == before[..last];
    forall k | 0 < k < |after| ensures Overflows(L, size, after, k) {
      assert Overflows(L, size, before, k);
      assert after[k - 1] == before[k - 1];
      if k == last {
        assert after[k].records[0] == if rs == [] then r else rs[0];
      }
    }
  }

  lemma {:induction false} FilledNew(L: Layout, size: nat, before: seq<Chunk>, top: nat)
    requires Filled(L, size, before, top) && before[|before| - 1].count > 0 && L.counter <= size
    ensures Filled(L, size, before + [Chunk(0, [], size)], L.counter)
    ensures AllRecords(before + [Chunk(0, [], size)]) == AllRecords(before)
  {
    var after := before + [Chunk(0, [], size)];
    assert after[..|before|] == before;
    forall k | 0 < k < |after| ensures Overflows(L, size, after, k) {
      if k < |before| {
        assert Overflows(L, size, before, k);
      }
    }
  }

  class PickleData {
    const L: Layout
    const size: nat
    const chunked: bool
    var bytesList: seq<Chunk>
    var top: nat
    var values: Option<seq<Output>>

    ghost predicate Valid()
      reads this`bytesList, this`top
    {
      Filled(L, size, bytesList, top)
    }

    /** pickle_data__init: one chunk that fits if everything can go into it, chunks of the largest size otherwise. */
    constructor (L: Layout, store: Store, totalSize: nat)
      requires L.counter <= L.max
      ensures Valid() && this.L == L && AllRecords(bytesList) == [] && |bytesList| == 1
      ensures values == if store == Any then Some([]) else None
      ensures chunked <==> totalSize > L.max
      ensures size == if chunked then L.max else L.counter + totalSize
    {
      this.L := L;
      chunked := totalSize > L.max;
      size := if totalSize > L.max then L.max else L.counter + totalSize;
      bytesList := [Chunk(0, [], if totalSize > L.max then L.max else L.counter + totalSize)];
      top := L.counter;
      values := if store == Any then Some([]) else None;
    }

    method AddNextBuffer()
      requires Valid() && bytesList[|bytesList| - 1].count > 0 && L.counter <= size
      modifies this`bytesList, this`top
      ensures Valid() && AllRecords(bytesList) == old(AllRecords(bytesList))
      ensures bytesList == old(bytesList) + [Chunk(0, [], size)] && top == L.counter
    {
      hide Filled;
      FilledNew(L, size, bytesList, top);
      bytesList := bytesList + [Chunk(0, [], size)];
      top := L.counter;
    }

    /** The last chunk loses what it does not use. */
    method ShrinkLastBuffer()
      requires Valid()
      modifies this`bytesList
      ensures |bytesList| == |old(bytesList)| && AllRecords(bytesList) == old(AllRecords(bytesList))
      ensures forall k :: 0 <= k < |bytesList| - 1 ==> bytesList[k] == old(bytesList)[k]
      ensures bytesList[|bytesList| - 1] == old(bytesList)[|bytesList| - 1].(size := top)
    {
      if top >= size {
        return;
      }
      var last := |bytesList| - 1;
      assert bytesList[..last] == bytesList[last := bytesList[last].(size := top)][..last];
      bytesList := bytesList[last := bytesList[last].(size := top)];
    }

    /** Appends a record to the last chunk, or to a new one if it does not fit. */
    method Put(r: Record)
      requires Valid() && L.counter + L.NodeSize(|r.links|) <= size
      requires |bytesList| > 1 ==> bytesList[|bytesList| - 1].count > 0
      modifies this`bytesList, this`top
      ensures Valid() && AllRecords(bytesList) == old(AllRecords(bytesList)) + [r]
      ensures |bytesList| == |old(bytesList)| + if old(top) + L.NodeSize(|r.links|) > size then 1 else 0
      ensures |bytesList| == |old(bytesList)| ==> top == old(top) + L.NodeSize(|r.links|)
      ensures bytesList[|bytesList| - 1].count > 0
    {
      hide Filled, Layout.NodeSize, AllRecords;
      FilledLast(L, size, bytesList, top);
      var s := L.NodeSize(|r.links|);
      if top + s > size {
        AddNextBuffer();
      }
      var last := |bytesList| - 1;
      FilledNext(L, size, bytesList, top, r);
      bytesList := bytesList[last := Chunk(bytesList[last].count + 1, bytesList[last].records + [r], size)];
      top := top + s;
    }
  }

  /** What a filled list says of its last chunk. */
  lemma {:induction false} FilledLast(L: Layout, size: nat, chunks: seq<Chunk>, top: nat)
    requires Filled(L, size, chunks, top)
    ensures chunks != [] && L.counter <= size
    ensures var last := chunks[|chunks| - 1];
            && last.count == |last.records| && (last.count > 0 <==> last.records != [])
            && top == L.counter + L.TotalSize(last.records) && (last.records == [] ==> top == L.counter)
  {
  }

  // ---------------------------------------------------------------- numbering

  ghost function Numbering(ws: seq<Word>): map<Word, int>
    requires Distinct(ws)
  {
    map i: int | 0 <= i < |ws| :: ws[i] := i + 1
  }

  /** The first `i` visited nodes carry their number in place of their fail link. */
  ghost predicate Numbered(nodes: map<Word, TrieNode>, visited: seq<TrieNode>, P: Picture, ws: seq<Word>, i: nat)
    reads visited
  {
    && |visited| == |ws| && (forall k :: 0 <= k < |ws| ==> ws[k] in P)
    && forall k :: 0 <= k < |ws| ==>
         visited[k].fail == if k < i then Tag(k + 1, LinkTo(nodes, P[ws[k]].fail)) else LinkTo(nodes, P[ws[k]].fail)
  }

  /** Numbers the visited nodes and adds up the size of their dumps. */
  method NumberNodes(visited: seq<TrieNode>, L: Layout, ghost nodes: map<Word, TrieNode>, ghost P: Picture,
                     ghost ws: seq<Word>) returns (totalSize: nat)
    requires Distinct(visited) && Numbered(nodes, visited, P, ws, 0) && forall w :: w in ws ==> w in P
    requires forall k :: 0 <= k < |ws| ==> |visited[k].next| == |P[ws[k]].letters|
    modifies set n | n in visited :: n`fail
    ensures Numbered(nodes, visited, P, ws, |visited|)
    ensures totalSize == SizeAlong(L, P, ws)
  {
    totalSize := 0;
    var i := 0;
    while i < |visited|
      invariant 0 <= i <= |visited| && Numbered(nodes, visited, P, ws, i)
      invariant totalSize == SizeAlong(L, P, ws[..i])
    {
      var node := visited[i];
      assert node in visited;
      totalSize := totalSize + L.NodeSize(|node.next|);
      node.fail := Tag(i + 1, node.fail);
      assert ws[..i + 1][..i] == ws[..i];
      i := i + 1;
    }
    assert ws[..|visited|] == ws;
  }

  /** The size of the dumps of the nodes `ws`. */
  ghost function SizeAlong(L: Layout, P: Picture, ws: seq<Word>): nat
    requires forall w :: w in ws ==> w in P
  {
    if ws == [] then 0 else SizeAlong(L, P, ws[..|ws| - 1]) + L.NodeSize(|P[ws[|ws| - 1]].letters|)
  }

  /** Puts the fail links back. */
  method UndoReplace(visited: seq<TrieNode>, ghost nodes: map<Word, TrieNode>, ghost P: Picture, ghost ws: seq<Word>)
    requires Distinct(visited) && Numbered(nodes, visited, P, ws, |visited|)
    modifies set n | n in visited :: n`fail
    ensures Numbered(nodes, visited, P, ws, 0)
  {
    var i := 0;
    while i < |visited|
      invariant 0 <= i <= |visited| == |ws|
      invariant forall k :: 0 <= k < i ==> visited[k].fail == LinkTo(nodes, P[ws[k]].fail)
      invariant forall k :: i <= k < |ws| ==> visited[k].fail == Tag(k + 1, LinkTo(nodes, P[ws[k]].fail))
    {
      var node := visited[i];
      assert node in visited;
      node.fail := node.fail.saved;
      i := i + 1;
    }
  }

  // ---------------------------------------------------------------- dumping

  /** Every node carries its number, and all else is as the picture shows. */
  ghost predicate Tagged(nodes: map<Word, TrieNode>, P: Picture, ids: map<Word, int>)
    reads nodes.Values
  {
    Similar(nodes, P) && nodes.Keys == ids.Keys && forall w :: w in nodes ==> TaggedNode(nodes, P[w], ids[w], nodes[w])
  }

  ghost predicate TaggedNode(nodes: map<Word, TrieNode>, c: Content, id: int, n: TrieNode)
    reads n
  {
    n.fail.Tag? && n.fail.id == id && n.fail.saved == LinkTo(nodes, c.fail) && (c.fail.Some? ==> c.fail.value in nodes)
  }

  /** pickle_dump_save for one node: the record with numbers in place of all links. */
  method Dump(node: TrieNode, objects: bool, ghost nodes: map<Word, TrieNode>, ghost P: Picture,
              ghost ids: map<Word, int>,
              ghost w: Word) returns (r: Record)
    requires Tagged(nodes, P, ids) && w in nodes && node == nodes[w] && TreeTable(LettersOf(P))
    ensures Stands(r, P[w], w, ids, true) && r.output == if objects then 0 else node.output
  {
    var saved := node.fail.saved;
    var failId := if saved.To? then saved.node.fail.id else 0;
    var links: seq<Link> := [];
    var i := 0;
    while i < |node.next|
      invariant 0 <= i <= |node.next| && |links| == i
      invariant forall j :: 0 <= j < i ==>
        w + [P[w].letters[j]] in ids && links[j] == Link(P[w].letters[j], ids[w + [P[w].letters[j]]])
    {
      var child := node.next[i].child;
      ChildInPicture(P, w, i);
      links := links + [Link(node.next[i].letter, child.node.fail.id)];
      i := i + 1;
    }
    r := Record(if objects then 0 else node.output, failId, node.eow, links);
  }

  /** The records and the values stand for the visited nodes `ws`. */
  ghost predicate Dumped(rs: seq<Record>, values: Option<seq<Output>>, P: Picture, ws: seq<Word>, ids: map<Word, int>) {
    && |rs| == |ws| && (forall w :: w in ws ==> w in P)
    && (forall k :: 0 <= k < |ws| ==> Stands(rs[k], P[ws[k]], ws[k], ids, true))
    && match values
       case Some(vs) => vs == ValuesAlong(P, ws)
       case None => forall k :: 0 <= k < |ws| && rs[k].eow ==> rs[k].output == P[ws[k]].value.value
  }

  lemma DumpedNext(rs: seq<Record>, values: Option<seq<Output>>, P: Picture, ws: seq<Word>, ids: map<Word, int>,
                   r: Record, values': Option<seq<Output>>, w: Word)
    requires Dumped(rs, values, P, ws, ids) && w in P && Stands(r, P[w], w, ids, true)
    requires values.None? ==> values'.None? && (r.eow ==> r.output == P[w].value.value)
    requires values.Some? ==> values' == if r.eow then Some(values.value + [P[w].value.value]) else values
    ensures Dumped(rs + [r], values', P, ws + [w], ids)
  {
    assert (ws + [w])[..|ws|] == ws;
  }

  /** pickle_dump_save. */
  method SaveNode(data: PickleData, node: TrieNode, ghost nodes: map<Word, TrieNode>, ghost P: Picture,
                  ghost ids: map<Word, int>, ghost ws: seq<Word>, ghost w: Word)
    requires Tagged(nodes, P, ids) && w in nodes && node == nodes[w] && TreeTable(LettersOf(P))
    requires data.Valid() && data.L.counter + data.L.NodeSize(|P[w].letters|) <= data.size
    requires |data.bytesList| > 1 ==> data.bytesList[|data.bytesList| - 1].count > 0
    requires Dumped(AllRecords(data.bytesList), data.values, P, ws, ids)
    modifies data
    ensures data.Valid() && Dumped(AllRecords(data.bytesList), data.values, P, ws + [w], ids)
    ensures data.values.Some? <==> old(data.values).Some?
    ensures data.bytesList[|data.bytesList| - 1].count > 0
    ensures |data.bytesList| ==
              |old(data.bytesList)| + if old(data.top) + data.L.NodeSize(|P[w].letters|) > data.size then 1 else 0
    ensures |data.bytesList| == |old(data.bytesList)| ==> data.top == old(data.top) + data.L.NodeSize(|P[w].letters|)
  {
    hide PickleData.Valid, Dumped, Layout.NodeSize, Layout.TotalSize, AllRecords, TreeTable;
    assert Shows(nodes, node, w, P[w]);
    var r := Dump(node, data.values.Some?, nodes, P, ids, w);
    ghost var rs, values := AllRecords(data.bytesList), data.values;
    data.Put(r);
    if node.eow && data.values.Some? {
      data.values := Some(data.values.value + [node.output]);
    }
    DumpedNext(rs, values, P, ws, ids, r, data.values, w);
  }

  lemma {:induction false} SizeAlongGrows(L: Layout, P: Picture, ws: seq<Word>, i: nat)
    requires i <= |ws| && forall w :: w in ws ==> w in P
    ensures SizeAlong(L, P, ws[..i]) <= SizeAlong(L, P, ws)
    decreases |ws|
  {
    if i < |ws| {
      assert ws[..|ws| - 1][..i] == ws[..i];
      SizeAlongGrows(L, P, ws[..|ws| - 1], i);
    } else {
      assert ws[..i] == ws;
    }
  }

  /** Dumps all visited nodes; if they fit into one chunk they go into one. */
  method SaveNodes(data: PickleData, visited: seq<TrieNode>, ghost nodes: map<Word, TrieNode>, ghost P: Picture,
                   ghost ids: map<Word, int>, ghost ws: seq<Word>)
    requires data.Valid() && AllRecords(data.bytesList) == [] && |data.bytesList| == 1
    requires data.values.None? || data.values == Some([])
    requires Tagged(nodes, P, ids) && Spell(nodes, visited, ws) && TreeTable(LettersOf(P)) && ws != []
    requires forall w :: w in ws ==> w in P && data.L.counter + data.L.NodeSize(|P[w].letters|) <= data.size
    modifies data
    ensures data.Valid() && Dumped(AllRecords(data.bytesList), data.values, P, ws, ids)
    ensures data.values.Some? <==> old(data.values).Some?
    ensures data.bytesList[|data.bytesList| - 1].count > 0
    ensures data.L.counter + SizeAlong(data.L, P, ws) <= data.size ==> |data.bytesList| == 1
  {
    hide PickleData.Valid, Dumped, Layout.NodeSize, Layout.TotalSize, AllRecords, TreeTable, Tagged, SizeAlong;
    var i := 0;
    NothingDumped(data, P, ids);
    while i < |visited|
      invariant 0 <= i <= |visited| && data.Valid()
      invariant Dumped(AllRecords(data.bytesList), data.values, P, ws[..i], ids)
      invariant data.values.Some? <==> old(data.values).Some?
      invariant data.bytesList != [] && (i > 0 ==> data.bytesList[|data.bytesList| - 1].count > 0)
      invariant i == 0 ==> |data.bytesList| == 1
      invariant data.L.counter + SizeAlong(data.L, P, ws) <= data.size ==>
        |data.bytesList| == 1 && data.top == data.L.counter + SizeAlong(data.L, P, ws[..i])
    {
      assert ws[..i + 1] == ws[..i] + [ws[i]];
      SizeAlongNext(data.L, P, ws, i);
      SizeAlongGrows(data.L, P, ws, i + 1);
      SaveNode(data, visited[i], nodes, P, ids, ws[..i], ws[i]);
      i := i + 1;
    }
    assert ws[..|visited|] == ws;
  }

  lemma NothingDumped(data: PickleData, P: Picture, ids: map<Word, int>)
    requires data.Valid() && AllRecords(data.bytesList) == [] && |data.bytesList| == 1
    requires data.values.None? || data.values == Some([])
    ensures Dumped(AllRecords(data.bytesList), data.values, P, [], ids)
    ensures data.top == data.L.counter + SizeAlong(data.L, P, [])
  {
    assert data.bytesList[..0] == [];
  }

  lemma SizeAlongNext(L: Layout, P: Picture, ws: seq<Word>, i: nat)
    requires i < |ws| && forall w :: w in ws ==> w in P
    ensures SizeAlong(L, P, ws[..i + 1]) == SizeAlong(L, P, ws[..i]) + L.NodeSize(|P[ws[i]].letters|)
  {
    assert ws[..i + 1][..i] == ws[..i];
  }

  // ---------------------------------------------------------------- __reduce__

  /** `ws` lists the words of the picture, the root first. */
  ghost predicate Lists(ws: seq<Word>, P: Picture) {
    Distinct(ws) && ws != [] && ws[0] == [] && forall w :: w in ws <==> w in P
  }

  /** What __reduce__ hands out for the trie of the picture: chunks that are read back to records in the order `ws`,
      and the values in the same order. */
  ghost predicate Encodes(chunks: seq<Chunk>, values: Option<seq<Output>>, L: Layout, P: Picture, ws: seq<Word>) {
    && Lists(ws, P)
    && (forall k :: 0 <= k < |chunks| ==> chunks[k].count == |chunks[k].records| > 0 && chunks[k].Holds(L))
    && Dumped(AllRecords(chunks), values, P, ws, Numbering(ws))
  }

  /** The last chunk is as long as what it holds, every other is a full one, into which the next record did not fit. */
  ghost predicate Packed(L: Layout, chunks: seq<Chunk>) {
    && chunks != [] && chunks[|chunks| - 1].size == L.counter + L.TotalSize(chunks[|chunks| - 1].records)
    && (forall k :: 0 <= k < |chunks| - 1 ==> chunks[k].size == L.max)
    && forall k :: 0 < k < |chunks| ==>
         && chunks[k].records != []
         && L.counter + L.TotalSize(chunks[k - 1].records) + L.NodeSize(|chunks[k].records[0].links|) > L.max
  }

  /** Every node record fits a chunk. */
  ghost predicate RecordsFit(L: Layout, P: Picture) {
    forall w :: w in P ==> L.counter + L.NodeSize(|P[w].letters|) <= L.max
  }

  lemma LinksSaved(nodes: map<Word, TrieNode>, visited: seq<TrieNode>, P: Picture, ws: seq<Word>)
    requires Depicts(nodes, P, true) && Spell(nodes, visited, ws)
    ensures Numbered(nodes, visited, P, ws, 0) && (forall w :: w in ws ==> w in P)
    ensures forall k :: 0 <= k < |ws| ==> |visited[k].next| == |P[ws[k]].letters|
  {
    forall k | 0 <= k < |ws| ensures |visited[k].next| == |P[ws[k]].letters| {
      assert Shows(nodes, nodes[ws[k]], ws[k], P[ws[k]]);
    }
  }

  lemma AllTagged(nodes: map<Word, TrieNode>, visited: seq<TrieNode>, P: Picture, ws: seq<Word>)
    requires Similar(nodes, P) && Spell(nodes, visited, ws) && Lists(ws, P)
    requires Numbered(nodes, visited, P, ws, |visited|)
    requires forall w :: w in P && P[w].fail.Some? ==> P[w].fail.value in P
    ensures Tagged(nodes, P, Numbering(ws))
  {
    hide Similar;
    SimilarKeys(nodes, P);
    var ids := Numbering(ws);
    forall w | w in nodes ensures w in ids && TaggedNode(nodes, P[w], ids[w], nodes[w]) {
      var k :| 0 <= k < |ws| && ws[k] == w;
      assert ids[ws[k]] == k + 1 && visited[k] == nodes[w];
    }
  }

  lemma LinksRestored(nodes: map<Word, TrieNode>, visited: seq<TrieNode>, P: Picture, ws: seq<Word>)
    requires nodes.Keys == P.Keys && Spell(nodes, visited, ws) && Lists(ws, P) && Numbered(nodes, visited, P, ws, 0)
    requires forall w :: w in P && P[w].fail.Some? ==> P[w].fail.value in P
    ensures FailsShow(nodes, P)
  {
    forall w | w in nodes ensures nodes[w].fail == LinkTo(nodes, P[w].fail) {
      var k :| 0 <= k < |ws| && ws[k] == w;
      assert visited[k] == nodes[w];
    }
  }

  /** A node's dump is part of the total. */
  lemma PartOfTotal(L: Layout, P: Picture, ws: seq<Word>, w: Word)
    requires (forall u :: u in ws ==> u in P) && w in ws
    ensures L.NodeSize(|P[w].letters|) <= SizeAlong(L, P, ws)
  {
    var k :| 0 <= k < |ws| && ws[k] == w;
    SizeAlongNext(L, P, ws, k);
    SizeAlongGrows(L, P, ws, k + 1);
  }

  /** The last chunk was cut to what it uses. */
  ghost predicate Shrunk(before: seq<Chunk>, after: seq<Chunk>, top: nat) {
    && before != [] && |after| == |before|
    && (forall k :: 0 <= k < |before| - 1 ==> after[k] == before[k])
    && after[|before| - 1] == before[|before| - 1].(size := top)
  }

  lemma ShrunkEncodes(before: seq<Chunk>, after: seq<Chunk>, values: Option<seq<Output>>, L: Layout, P: Picture,
                      ws: seq<Word>, size: nat, top: nat)
    requires Shrunk(before, after, top) && AllRecords(after) == AllRecords(before)
    requires Filled(L, size, before, top) && before[|before| - 1].count > 0
    requires Lists(ws, P) && Dumped(AllRecords(before), values, P, ws, Numbering(ws))
    ensures Encodes(after, values, L, P, ws)
  {
    hide Layout.NodeSize, Layout.TotalSize, Dumped, AllRecords, Overflows, Lists, Numbering;
  }

  lemma ShrunkPacked(before: seq<Chunk>, after: seq<Chunk>, L: Layout, size: nat, top: nat)
    requires Shrunk(before, after, top) && Filled(L, size, before, top) && before[|before| - 1].count > 0
    requires |before| > 1 ==> size == L.max
    ensures Packed(L, after)
  {
    hide Layout.NodeSize, Layout.TotalSize, AllRecords;
    forall k | 0 < k < |after|
      ensures after[k].records != []
      ensures L.counter + L.TotalSize(after[k - 1].records) + L.NodeSize(|after[k].records[0].links|) > L.max {
      assert Overflows(L, size, before, k);
      assert after[k].records == before[k].records && after[k - 1].records == before[k - 1].records;
    }
  }

  /** All records together have the size that was added up while numbering. */
  lemma {:induction false} DumpedSize(L: Layout, rs: seq<Record>, P: Picture, ws: seq<Word>, ids: map<Word, int>)
    requires |rs| == |ws| && (forall w :: w in ws ==> w in P)
    requires forall k :: 0 <= k < |ws| ==> Stands(rs[k], P[ws[k]], ws[k], ids, true)
    ensures L.TotalSize(rs) == SizeAlong(L, P, ws)
    decreases |ws|
  {
    if ws != [] {
      var n := |ws| - 1;
      assert Stands(rs[n], P[ws[n]], ws[n], ids, true);
      DumpedSize(L, rs[..n], P, ws[..n], ids);
    }
  }

  /** If everything is in one chunk, it fits one. */
  lemma OneChunk(L: Layout, chunks: seq<Chunk>, values: Option<seq<Output>>, P: Picture, ws: seq<Word>)
    requires Encodes(chunks, values, L, P, ws) && |chunks| == 1
    ensures (forall w :: w in ws ==> w in P) && L.counter + SizeAlong(L, P, ws) <= chunks[0].size
  {
    hide Layout.NodeSize, Layout.TotalSize, SizeAlong;
    assert chunks[..0] == [];
    assert AllRecords(chunks) == chunks[0].records;
    DumpedSize(L, AllRecords(chunks), P, ws, Numbering(ws));
  }

  /** The sizes along the words of a tree: a header for each node, and a link for each but the root. */
  lemma {:induction false} SizesAlong(L: Layout, P: Picture, ws: seq<Word>)
    requires forall w :: w in ws ==> w in P
    ensures forall w :: w in ws ==> w in LettersOf(P)
    ensures SizeAlong(L, P, ws) == |ws| * L.header + LinkSum(LettersOf(P), ws) * L.pair
    decreases |ws|
  {
    if ws != [] {
      var n, T := |ws| - 1, LettersOf(P);
      SizesAlong(L, P, ws[..n]);
      assert ws[n] in P;
      SizesAdd(n, L.header, LinkSum(T, ws[..n]), |T[ws[n]]|, L.pair);
    }
  }

  lemma SizesAdd(n: nat, header: nat, links: nat, more: nat, pair: nat)
    ensures n * header + links * pair + (header + more * pair) == (n + 1) * header + (links + more) * pair
  {
  }

  lemma SizeOfTrie(L: Layout, nodes: map<Word, TrieNode>, P: Picture, bound: nat)
    requires Tree(nodes) && Bounded(nodes.Keys, bound) && nodes.Keys == P.Keys && LettersOf(P) == TableOf(nodes)
    ensures [] in nodes && forall w :: w in Visit(nodes, [], bound) ==> w in P
    ensures SizeAlong(L, P, Visit(nodes, [], bound)) <= L.max <==> L.FitsOne(|nodes|)
  {
    hide LinkSum, SizeAlong, Layout.FitsOne, TreeTable, Preorder, Bounded, Tree;
    TreeWords(nodes);
    TableIsTree(nodes);
    var ws, T := Visit(nodes, [], bound), TableOf(nodes);
    PreorderVisits(T, [], bound);
    assert forall w :: w in ws <==> w in nodes.Keys;
    DistinctCount(ws, nodes.Keys);
    LinksOfPreorder(T, [], bound);
    SizesAlong(L, P, ws);
    assert |nodes| == |nodes.Keys|;
    SizeFits(L, SizeAlong(L, P, ws), |nodes|);
  }

  lemma SizeFits(L: Layout, size: nat, nodes: nat)
    requires nodes > 0 && size == nodes * L.header + (nodes - 1) * L.pair
    ensures size <= L.max <==> L.FitsOne(nodes)
  {
  }

  lemma VisitLists(nodes: map<Word, TrieNode>, P: Picture, ws: seq<Word>, bound: nat)
    requires Tree(nodes) && Bounded(nodes.Keys, bound) && ws == Visit(nodes, [], bound) && Distinct(ws)
    requires forall w :: w in ws <==> w in nodes
    requires nodes.Keys == P.Keys && LettersOf(P) == TableOf(nodes)
    ensures Lists(ws, P) && Distinct(ws) && TreeTable(LettersOf(P))
  {
    TableIsTree(nodes);
  }

  lemma FailsInside(nodes: map<Word, TrieNode>, P: Picture)
    requires Depicts(nodes, P, true)
    ensures nodes.Keys == P.Keys && Similar(nodes, P)
    ensures forall w :: w in P && P[w].fail.Some? ==> P[w].fail.value in P
  {
  }

  method TagNodes(visited: seq<TrieNode>, L: Layout, ghost nodes: map<Word, TrieNode>, ghost P: Picture,
                  ghost ws: seq<Word>)
      returns (totalSize: nat)
    requires Depicts(nodes, P, true) && Spell(nodes, visited, ws) && Lists(ws, P) && Distinct(visited)
    modifies set n | n in visited :: n`fail
    ensures Tagged(nodes, P, Numbering(ws)) && Numbered(nodes, visited, P, ws, |visited|)
    ensures totalSize == SizeAlong(L, P, ws)
  {
    hide Similar, FailsShow, Numbered, Tagged, Spell, SizeAlong;
    FailsInside(nodes, P);
    LinksSaved(nodes, visited, P, ws);
    totalSize := NumberNodes(visited, L, nodes, P, ws);
    AllTagged(nodes, visited, P, ws);
  }

  /** Gathers the dumps of numbered nodes. */
  method Pack(store: Store, L: Layout, totalSize: nat, visited: seq<TrieNode>, ghost nodes: map<Word, TrieNode>,
              ghost P: Picture, ghost ws: seq<Word>)
      returns (chunks: seq<Chunk>, values: Option<seq<Output>>)
    requires Lists(ws, P) && Tagged(nodes, P, Numbering(ws)) && Spell(nodes, visited, ws) && TreeTable(LettersOf(P))
    requires RecordsFit(L, P) && totalSize == SizeAlong(L, P, ws)
    ensures Encodes(chunks, values, L, P, ws) && Packed(L, chunks) && (values.Some? <==> store == Any)
    ensures totalSize <= L.max <==> |chunks| == 1
  {
    hide TreeTable, Tagged, Dumped, Spell, SizeAlong, Encodes, Packed, AllRecords, Layout.TotalSize, Layout.NodeSize;
    assert ws[0] in ws;
    var data := new PickleData(L, store, totalSize);
    forall w | w in ws ensures data.L.counter + data.L.NodeSize(|P[w].letters|) <= data.size {
      PartOfTotal(L, P, ws, w);
    }
    SaveNodes(data, visited, nodes, P, Numbering(ws), ws);
    ghost var before := data.bytesList;
    data.ShrinkLastBuffer();
    chunks, values := data.bytesList, data.values;
    ShrunkEncodes(before, chunks, values, L, P, ws, data.size, data.top);
    ShrunkPacked(before, chunks, L, data.size, data.top);
    if |chunks| == 1 {
      OneChunk(L, chunks, values, P, ws);
    }
  }

  /** The nodes in visiting order. */
  method VisitNodes(a: Automaton, ghost L: Layout, ghost P: Picture)
      returns (visited: seq<TrieNode>, ghost ws: seq<Word>)
    requires a.Shape() && a.kind != Empty && a.longestWord >= 0 && Bounded(a.nodes.Keys, a.longestWord)
    requires a.nodes.Keys == P.Keys && LettersOf(P) == TableOf(a.nodes)
    ensures Spell(a.nodes, visited, ws) && Lists(ws, P) && Distinct(visited) && TreeTable(LettersOf(P))
    ensures forall n :: n in visited ==> n in a.nodes.Values
    ensures SizeAlong(L, P, ws) <= L.max <==> L.FitsOne(|a.nodes|)
  {
    hide Tree, TrieOf, Bounded, TreeTable, Spell, Lists, SizeAlong, Layout.FitsOne, Visit, TableOf, LettersOf, Distinct;
    var depths;
    visited, depths, ws := VisitTrie(a, a.longestWord);
    VisitLists(a.nodes, P, ws, a.longestWord);
    SizeOfTrie(L, a.nodes, P, a.longestWord);
  }

  /** Steps 1 to 3 of __reduce__: number the nodes, dump them, put the fail links back. */
  method DumpTrie(a: Automaton, L: Layout, ghost P: Picture)
      returns (chunks: seq<Chunk>, values: Option<seq<Output>>, ghost ws: seq<Word>)
    requires a.Shape() && a.kind != Empty && a.longestWord >= 0 && Bounded(a.nodes.Keys, a.longestWord)
    requires Depicts(a.nodes, P, true) && LettersOf(P) == TableOf(a.nodes) && RecordsFit(L, P)
    modifies a.nodes.Values`fail
    ensures FailsShow(a.nodes, P)
    ensures Encodes(chunks, values, L, P, ws) && Packed(L, chunks) && (values.Some? <==> a.store == Any)
    ensures |chunks| == 1 <==> L.FitsOne(|a.nodes|)
  {
    hide Tree, TrieOf, Bounded, TreeTable, Similar, FailsShow, Numbered, Tagged, Spell, Lists, Encodes, SizeAlong;
    hide Packed, Layout.FitsOne;
    hide Visit;
    hide RecordsFit, TableOf, LettersOf, Distinct;
    FailsInside(a.nodes, P);
    var visited;
    visited, ws := VisitNodes(a, L, P);
    var totalSize := TagNodes(visited, L, a.nodes, P, ws);
    chunks, values := Pack(a.store, L, totalSize, visited, a.nodes, P, ws);
    UndoReplace(visited, a.nodes, P, ws);
    LinksRestored(a.nodes, visited, P, ws);
  }

  lemma PictureIsFaithful(nodes: map<Word, TrieNode>)
    requires Tree(nodes) && Live(nodes)
    ensures Depicts(nodes, PictureOf(nodes), true) && LettersOf(PictureOf(nodes)) == TableOf(nodes)
  {
    PictureIsSimilar(nodes);
    PictureShowsFails(nodes);
  }

  /** The same for the picture that the nodes show: they show it again afterwards. */
  method DumpKeys(a: Automaton, L: Layout)
      returns (chunks: seq<Chunk>, values: Option<seq<Output>>, ghost ws: seq<Word>)
    requires a.Shape() && a.kind != Empty && a.longestWord >= 0 && Bounded(a.nodes.Keys, a.longestWord)
    requires Live(a.nodes) && RecordsFit(L, PictureOf(a.nodes))
    modifies a.nodes.Values`fail
    ensures forall w :: w in a.nodes ==> a.nodes[w].fail == old(a.nodes[w].fail)
    ensures PictureOf(a.nodes) == old(PictureOf(a.nodes))
    ensures Encodes(chunks, values, L, PictureOf(a.nodes), ws) && Packed(L, chunks)
    ensures (values.Some? <==> a.store == Any) && (|chunks| == 1 <==> L.FitsOne(|a.nodes|))
  {
    hide Encodes, SizeAlong, RecordsFit, Bounded, TrieOf, PictureOf, Tree, Live, Similar, FailsShow, LinkTo;
    hide PrefixClosed, Packed, Layout.FitsOne;
    ghost var P := PictureOf(a.nodes);
    PictureIsFaithful(a.nodes);
    PictureKeys(a.nodes);
    ShownFails(a.nodes, P);
    chunks, values, ws := DumpTrie(a, L, P);
    ShownFails(a.nodes, P);
    TreeWords(a.nodes);
    CopyHasPicture(a.nodes, P);
  }

  lemma PictureKeys(nodes: map<Word, TrieNode>)
    ensures PictureOf(nodes).Keys == nodes.Keys
  {
  }

  method Dumping(a: Automaton, L: Layout) returns (r: Pickled, ghost ws: seq<Word>)
    requires a.Shape() && a.longestWord >= 0 && Bounded(a.nodes.Keys, a.longestWord)
    requires a.count != 0 ==> a.kind != Empty && Live(a.nodes) && RecordsFit(L, PictureOf(a.nodes))
    modifies a.nodes.Values`fail
    ensures forall w :: w in a.nodes ==> a.nodes[w].fail == old(a.nodes[w].fail)
    ensures PictureOf(a.nodes) == old(PictureOf(a.nodes))
    ensures a.count == 0 ==> r == Fresh
    ensures a.count != 0 ==>
              r.State? && r == State(r.chunks, a.kind, a.store, a.keyType, a.count, a.longestWord, r.values)
    ensures a.count != 0 ==> Encodes(r.chunks, r.values, L, PictureOf(a.nodes), ws) && Packed(L, r.chunks)
    ensures a.count != 0 ==> (r.values.Some? <==> a.store == Any) && (|r.chunks| == 1 <==> L.FitsOne(|a.nodes|))
  {
    hide Encodes, RecordsFit, Bounded, PictureOf, Live, Automaton.Shape, Packed, Layout.FitsOne;
    ws := [];
    if a.count == 0 {
      return Fresh, ws;
    }
    var chunks, values;
    chunks, values, ws := DumpKeys(a, L);
    r := State(chunks, a.kind, a.store, a.keyType, a.count, a.longestWord, values);
  }

  lemma ValidBooks(a: Automaton)
    requires Valid(a)
    ensures a.Shape() && a.longestWord >= 0 && Bounded(a.nodes.Keys, a.longestWord) && a.count == |a.Keys()| + a.lost
    ensures a.count == 0 ==> a.Keys() == map[]
    ensures a.count != 0 ==> a.kind != Empty
    ensures BooksOf(a).Fit(a.nodes.Keys, a.Keys())
  {
  }

  /** __reduce__: an automaton without keys is handed out as a new one. Any other needs fail links that are not stale;
      they are overwritten on the way and come back. */
  method Reduce(a: Automaton, L: Layout) returns (r: Pickled, ghost ws: seq<Word>)
    requires Valid(a)
    requires a.count != 0 ==> Live(a.nodes) && RecordsFit(L, PictureOf(a.nodes))
    modifies a.nodes.Values`fail
    ensures Valid(a) && forall w :: w in a.nodes ==> a.nodes[w].fail == old(a.nodes[w].fail)
    ensures PictureOf(a.nodes) == old(PictureOf(a.nodes)) && (old(Live(a.nodes)) ==> Live(a.nodes))
    ensures a.count == 0 ==> r == Fresh
    ensures a.count != 0 ==>
              r.State? && r == State(r.chunks, a.kind, a.store, a.keyType, a.count, a.longestWord, r.values)
    ensures a.count != 0 ==> Encodes(r.chunks, r.values, L, PictureOf(a.nodes), ws)
    ensures a.count != 0 ==> (r.values.Some? <==> a.store == Any)
    ensures a.count != 0 ==>
              && r.chunks != []
              && r.chunks[|r.chunks| - 1].size == L.counter + L.TotalSize(r.chunks[|r.chunks| - 1].records)
    ensures a.count != 0 ==> forall k :: 0 <= k < |r.chunks| - 1 ==> r.chunks[k].size == L.max
    ensures a.count != 0 ==>
              forall k :: 0 < k < |r.chunks| ==>
                && r.chunks[k].records != []
                && L.counter + L.TotalSize(r.chunks[k - 1].records) + L.NodeSize(|r.chunks[k].records[0].links|) > L.max
    ensures a.count != 0 ==> (|r.chunks| == 1 <==> |a.nodes| * L.header + (|a.nodes| - 1) * L.pair <= L.max)
  {
    hide Encodes, SizeAlong, RecordsFit, PictureOf, Automaton.Shape, Books.Fit, Automaton.Keys, Bounded, Fail;
    hide PrefixClosed;
    ValidBooks(a);
    r, ws := Dumping(a, L);
    assert a.RootIsTop();
    assert a.kind == AhoCorasick ==> Linked(a.nodes);
  }

  // ---------------------------------------------------------------- making the nodes

  /** The nodes were made from the records, one each. */
  ghost predicate Made(made: seq<TrieNode>, rs: seq<Record>)
    reads made
  {
    |made| == |rs| && forall i :: 0 <= i < |rs| ==> Unlinked(made[i], rs[i])
  }

  ghost predicate Countable(chunks: seq<Chunk>) {
    forall k :: 0 <= k < |chunks| ==> chunks[k].count > 0
  }

  /** automaton_unpickle__validate_bytes_list: the number of nodes, if every chunk has some. */
  method Validate(chunks: seq<Chunk>) returns (r: Outcome<int>)
    requires forall k :: 0 <= k < |chunks| ==> chunks[k].count == |chunks[k].records|
    ensures r == if Countable(chunks) then Ok(|AllRecords(chunks)|) else Raised(ValueError)
  {
    var count := 0;
    var k := 0;
    while k < |chunks|
      invariant 0 <= k <= |chunks| && count == |AllRecords(chunks[..k])|
      invariant forall j :: 0 <= j < k ==> chunks[j].count > 0
    {
      if chunks[k].count <= 0 {
        return Raised(ValueError);
      }
      assert chunks[..k + 1][..k] == chunks[..k];
      count := count + chunks[k].count;
      k := k + 1;
    }
    assert chunks[..k] == chunks;
    r := Ok(count);
  }

  method MakeNode(r: Record) returns (node: TrieNode)
    ensures fresh(node) && Unlinked(node, r)
  {
    node := new TrieNode(r.eow);
    node.output := r.output;
    node.fail := Cast(r.fail);
    var j := 0;
    while j < |r.links|
      invariant 0 <= j <= |r.links| == |r.links| && |node.next| == j
      invariant node.eow == r.eow && node.output == r.output && node.fail == Cast(r.fail)
      invariant forall i :: 0 <= i < j ==> node.next[i] == Pair(r.links[i].letter, Raw(r.links[i].id))
    {
      node.next := node.next + [Pair(r.links[j].letter, Raw(r.links[j].id))];
      j := j + 1;
    }
  }

  /** Moves behind a record with so many links, unless it runs over the end of the chunk. */
  method PassRecord(L: Layout, size: nat, ptr: nat, links: nat) returns (ok: bool, next: nat)
    ensures ok <==> ptr + L.NodeSize(links) <= size
    ensures ok ==> next == ptr + L.NodeSize(links)
  {
    next := ptr;
    if next + L.header > size {
      return false, next;
    }
    next := next + L.header;
    if links > 0 {
      if next + links * L.pair > size {
        return false, next;
      }
      next := next + links * L.pair;
    }
    ok := true;
  }

  lemma NoSize(L: Layout)
    ensures L.TotalSize([]) == 0
  {
  }

  /** Makes the nodes of one chunk; fails if its records run over its end. */
  method ReadChunk(chunk: Chunk, L: Layout, id2node: seq<TrieNode>, ghost rs: seq<Record>)
      returns (ok: bool, id2node': seq<TrieNode>)
    requires Made(id2node, rs) && Distinct(id2node)
    ensures ok <==> chunk.records == [] || chunk.Holds(L)
    ensures ok ==> Made(id2node', rs + chunk.records) && Distinct(id2node')
    ensures forall n :: n in id2node' ==> n in id2node || fresh(n)
  {
    hide Layout.TotalSize, Layout.NodeSize, Unlinked;
    id2node' := id2node;
    var ptr := L.counter;
    NoSize(L);
    var i := 0;
    assert rs + chunk.records[..0] == rs;
    while i < |chunk.records|
      invariant 0 <= i <= |chunk.records| && ptr == L.counter + L.TotalSize(chunk.records[..i])
      invariant i > 0 ==> ptr <= chunk.size
      invariant Made(id2node', rs + chunk.records[..i]) && Distinct(id2node')
      invariant forall n :: n in id2node' ==> n in id2node || fresh(n)
    {
      var dump := chunk.records[i];
      assert chunk.records[..i + 1] == chunk.records[..i] + [dump];
      TotalSizeNext(L, chunk.records[..i], dump);
      TotalSizeGrows(L, chunk.records, i + 1);
      ok, ptr := PassRecord(L, chunk.size, ptr, |dump.links|);
      if !ok {
        return;
      }
      var node := MakeNode(dump);
      id2node' := id2node' + [node];
      i := i + 1;
    }
    assert chunk.records[..i] == chunk.records;
    ok := true;
  }

  ghost predicate Untruncated(chunks: seq<Chunk>, L: Layout) {
    forall k :: 0 <= k < |chunks| ==> chunks[k].records == [] || chunks[k].Holds(L)
  }

  method MakeNodes(chunks: seq<Chunk>, L: Layout) returns (ok: bool, id2node: seq<TrieNode>)
    ensures ok <==> Untruncated(chunks, L)
    ensures ok ==> Made(id2node, AllRecords(chunks)) && Distinct(id2node) && forall n :: n in id2node ==> fresh(n)
  {
    hide Made, Distinct, Layout.TotalSize;
    id2node := [];
    NoneMade();
    var k := 0;
    while k < |chunks|
      invariant 0 <= k <= |chunks| && Untruncated(chunks[..k], L)
      invariant Made(id2node, AllRecords(chunks[..k])) && Distinct(id2node) && forall n :: n in id2node ==> fresh(n)
    {
      assert chunks[..k + 1][..k] == chunks[..k];
      ok, id2node := ReadChunk(chunks[k], L, id2node, AllRecords(chunks[..k]));
      if !ok {
        return;
      }
      k := k + 1;
    }
    assert chunks[..k] == chunks;
    ok := true;
  }

  lemma NoneMade()
    ensures Made([], []) && Distinct<TrieNode>([])
  {
  }

  // ---------------------------------------------------------------- linking them again

  function KeyCount(rs: seq<Record>): nat {
    if rs == [] then 0 else KeyCount(rs[..|rs| - 1]) + if rs[|rs| - 1].eow then 1 else 0
  }

  lemma {:induction false} KeyCountGrows(rs: seq<Record>, i: nat)
    requires i <= |rs|
    ensures KeyCount(rs[..i]) <= KeyCount(rs)
    decreases |rs|
  {
    if i < |rs| {
      assert rs[..|rs| - 1][..i] == rs[..i];
      KeyCountGrows(rs[..|rs| - 1], i);
    } else {
      assert rs[..i] == rs;
    }
  }

  lemma KeyCountNext(rs: seq<Record>, i: nat)
    requires i < |rs|
    ensures KeyCount(rs[..i + 1]) == KeyCount(rs[..i]) + if rs[i].eow then 1 else 0
    ensures KeyCount(rs[..i + 1]) <= KeyCount(rs)
  {
    assert rs[..i + 1][..i] == rs[..i];
    KeyCountGrows(rs, i + 1);
  }

  /** The numbers in the record belong to nodes. A writer never uses zero for a child. */
  ghost predicate Positive(r: Record) {
    r.fail >= 0 && forall j :: 0 <= j < |r.links| ==> r.links[j].id > 0
  }

  ghost predicate InRange(r: Record, count: nat) {
    r.fail <= count && forall j :: 0 <= j < |r.links| ==> r.links[j].id <= count
  }

  ghost predicate IsId(id2node: seq<TrieNode>, id: int) {
    1 <= id <= |id2node|
  }

  ghost function ById(id2node: seq<TrieNode>): map<int, TrieNode> {
    map id: int | 1 <= id <= |id2node| && IsId(id2node, id) :: id2node[id - 1]
  }

  lemma FoundById(id2node: seq<TrieNode>)
    ensures forall id: int :: id in ById(id2node) <==> 1 <= id <= |id2node|
    ensures forall id: int :: 1 <= id <= |id2node| ==> ById(id2node)[id] == id2node[id - 1]
  {
    assert forall id: int :: IsId(id2node, id) <==> 1 <= id <= |id2node|;
  }

  /** The i-th record with the value its node gets. */
  function Valued(rs: seq<Record>, values: Option<seq<Output>>, i: nat): Record
    requires i < |rs|
  {
    if values.Some? && rs[i].eow && KeyCount(rs[..i]) < |values.value|
    then rs[i].(output := values.value[KeyCount(rs[..i])])
    else rs[i]
  }

  method RelinkChildren(node: TrieNode, id2node: seq<TrieNode>, ghost r: Record) returns (ok: bool)
    requires Positive(r) && |node.next| == |r.links|
    requires forall j :: 0 <= j < |r.links| ==> node.next[j] == Pair(r.links[j].letter, Raw(r.links[j].id))
    modifies node`next
    ensures ok <==> forall j :: 0 <= j < |r.links| ==> r.links[j].id <= |id2node|
    ensures ok ==> |node.next| == |r.links| && forall j :: 0 <= j < |r.links| ==>
              node.next[j] == Pair(r.links[j].letter, To(id2node[r.links[j].id - 1]))
  {
    var j := 0;
    while j < |node.next|
      invariant 0 <= j <= |node.next| == |r.links|
      invariant forall i :: 0 <= i < j ==> r.links[i].id <= |id2node|
      invariant forall i :: 0 <= i < j ==> node.next[i] == Pair(r.links[i].letter, To(id2node[r.links[i].id - 1]))
      invariant forall i :: j <= i < |r.links| ==> node.next[i] == Pair(r.links[i].letter, Raw(r.links[i].id))
    {
      var index := node.next[j].child.bits;
      if index >= |id2node| + 1 {
        assert r.links[j].id > |id2node|;
        return false;
      }
      node.next := node.next[j := Pair(node.next[j].letter, To(id2node[index - 1]))];
      j := j + 1;
    }
    ok := true;
  }

  /** Restores the value and the pointers of the i-th node, and takes a reference to the value. */
  method RelinkNode(node: TrieNode, id2node: seq<TrieNode>, values: Option<seq<Output>>, objectIdx: nat,
                    ghost rs: seq<Record>, ghost i: nat)
      returns (failed: Option<PyError>, objectIdx': nat, ghost taken: multiset<Output>)
    requires i < |rs| && Unlinked(node, rs[i]) && Positive(rs[i])
    requires values.Some? ==> objectIdx == KeyCount(rs[..i])
    modifies node`output, node`fail, node`next
    ensures failed == if values.Some? && rs[i].eow && objectIdx >= |values.value| then Some(IndexError)
                      else if InRange(rs[i], |id2node|) then None else Some(ValueError)
    ensures failed == None ==> Relinked(node, Valued(rs, values, i), ById(id2node), true)
    ensures failed == None && values.Some? ==> objectIdx' == KeyCount(rs[..i + 1]) && objectIdx <= objectIdx'
    ensures failed == None && values.Some? && objectIdx' <= |values.value| ==>
              taken == multiset(values.value[objectIdx..objectIdx'])
    ensures values.None? ==> taken == multiset{}
  {
    hide KeyCount, ById;
    FoundById(id2node);
    ghost var r := rs[i];
    objectIdx', taken := objectIdx, multiset{};
    if values.Some? && node.eow {
      if objectIdx >= |values.value| {
        return Some(IndexError), objectIdx, taken;
      }
      node.output := values.value[objectIdx];
      objectIdx', taken := objectIdx + 1, multiset{node.output};
      assert values.value[objectIdx..objectIdx'] == [node.output];
      r := r.(output := values.value[objectIdx]);
    }
    KeyCountNext(rs, i);
    if node.fail != Null {
      var index := node.fail.bits;
      if index >= |id2node| + 1 {
        return Some(ValueError), objectIdx', taken;
      }
      node.fail := To(id2node[index - 1]);
    }
    var ok := RelinkChildren(node, id2node, r);
    failed := if ok then None else Some(ValueError);
  }

  ghost predicate Linkable(rs: seq<Record>, values: Option<seq<Output>>) {
    (forall i :: 0 <= i < |rs| ==> InRange(rs[i], |rs|)) && (values.Some? ==> KeyCount(rs) <= |values.value|)
  }

  /** The i-th record is the first key without a value, and the records before it could be linked. */
  ghost predicate LacksValue(rs: seq<Record>, values: Option<seq<Output>>, i: nat)
    requires i < |rs|
  {
    && values.Some? && rs[i].eow && KeyCount(rs[..i]) == |values.value|
    && forall k :: 0 <= k < i ==> InRange(rs[k], |rs|)
  }

  /** The first `i` nodes are linked, the others are as they were made. */
  ghost predicate LinkedUpTo(id2node: seq<TrieNode>, rs: seq<Record>, values: Option<seq<Output>>, i: nat)
    reads set n | n in id2node :: n`eow, set n | n in id2node :: n`output
    reads set n | n in id2node :: n`fail, set n | n in id2node :: n`next
  {
    && |id2node| == |rs|
    && forall k :: 0 <= k < |rs| ==>
         assert id2node[k] in id2node;
         if k < i then Relinked(id2node[k], Valued(rs, values, k), ById(id2node), true) else Unlinked(id2node[k], rs[k])
  }

  method RelinkNodes(id2node: seq<TrieNode>, values: Option<seq<Output>>, ghost rs: seq<Record>)
      returns (failed: Option<PyError>, ghost taken: multiset<Output>)
    requires Made(id2node, rs) && Distinct(id2node) && forall k :: 0 <= k < |rs| ==> Positive(rs[k])
    modifies set n | n in id2node :: n`output, set n | n in id2node :: n`fail, set n | n in id2node :: n`next
    ensures failed == None <==> Linkable(rs, values)
    ensures failed == Some(IndexError) <==> exists i :: 0 <= i < |rs| && LacksValue(rs, values, i)
    ensures failed.Some? ==> failed.value == IndexError || failed.value == ValueError
    ensures failed == None ==> LinkedUpTo(id2node, rs, values, |rs|) && taken == multiset(Used(values, KeyCount(rs)))
  {
    hide KeyCount, Relinked, Unlinked, InRange, Positive, ById, Valued;
    taken := multiset{};
    var objectIdx := 0;
    var i := 0;
    NoKeyYet(rs);
    while i < |id2node|
      invariant 0 <= i <= |id2node| && LinkedUpTo(id2node, rs, values, i)
      invariant values.Some? ==> objectIdx == KeyCount(rs[..i]) <= |values.value|
      invariant forall k :: 0 <= k < i ==> InRange(rs[k], |rs|) && !LacksValue(rs, values, k)
      invariant taken == multiset(Used(values, KeyCount(rs[..i])))
    {
      assert id2node[i] in id2node;
      KeyCountNext(rs, i);
      ghost var before, more := objectIdx, multiset{};
      failed, objectIdx, more := RelinkNode(id2node[i], id2node, values, objectIdx, rs, i);
      if failed.Some? {
        FailedAt(rs, values, i, failed.value);
        return;
      }
      UsedNext(values, before, objectIdx);
      taken := taken + more;
      i := i + 1;
    }
    assert rs[..i] == rs;
    failed := None;
  }

  /** The first record that cannot be linked decides the error. */
  lemma FailedAt(rs: seq<Record>, values: Option<seq<Output>>, i: nat, e: PyError)
    requires i < |rs| && (values.Some? ==> KeyCount(rs[..i]) <= |values.value|)
    requires forall k :: 0 <= k < i ==> InRange(rs[k], |rs|) && !LacksValue(rs, values, k)
    requires if values.Some? && rs[i].eow && KeyCount(rs[..i]) >= |values.value| then e == IndexError
             else !InRange(rs[i], |rs|) && e == ValueError
    ensures !Linkable(rs, values)
    ensures e == IndexError <==> exists k :: 0 <= k < |rs| && LacksValue(rs, values, k)
  {
    hide KeyCount, InRange;
    if e == IndexError {
      assert LacksValue(rs, values, i);
      KeyCountNext(rs, i);
    }
  }

  /** The values of the first keys, for each of which a reference is taken. */
  function Used(values: Option<seq<Output>>, count: nat): seq<Output> {
    if values.Some? && count <= |values.value| then values.value[..count] else []
  }

  lemma UsedNext(values: Option<seq<Output>>, i: nat, j: nat)
    ensures values.Some? && i <= j <= |values.value| ==>
              multiset(Used(values, j)) == multiset(Used(values, i)) + multiset(values.value[i..j])
  {
    if values.Some? && i <= j <= |values.value| {
      assert values.value[..j] == values.value[..i] + values.value[i..j];
    }
  }

  lemma NoKeyYet(rs: seq<Record>)
    ensures KeyCount(rs[..0]) == 0
  {
  }

  /** automaton_unpickle: succeeds exactly on chunks that can be counted, are not cut off and hold no number beyond
      the last node, with a value for every key. */
  method Unpickle(chunks: seq<Chunk>, values: Option<seq<Output>>, L: Layout)
      returns (r: Outcome<Ptr>, ghost made: seq<TrieNode>, ghost taken: multiset<Output>)
    requires chunks != [] && forall k :: 0 <= k < |chunks| ==> chunks[k].count == |chunks[k].records|
    requires forall k :: 0 <= k < |AllRecords(chunks)| ==> Positive(AllRecords(chunks)[k])
    ensures r.Ok? <==> Countable(chunks) && Untruncated(chunks, L) && Linkable(AllRecords(chunks), values)
    ensures r.Ok? ==> made != [] && Distinct(made) && (forall n :: n in made ==> fresh(n)) && r.value == To(made[0])
                      && LinkedUpTo(made, AllRecords(chunks), values, |made|)
                      && taken == multiset(Used(values, KeyCount(AllRecords(chunks))))
    ensures r.Raised? ==> (r.error == IndexError || r.error == ValueError)
    ensures r == Raised(IndexError) <==>
              && Countable(chunks) && Untruncated(chunks, L)
              && exists i :: 0 <= i < |AllRecords(chunks)| && LacksValue(AllRecords(chunks), values, i)
  {
    hide Made, LinkedUpTo, Linkable, Untruncated, Positive, Distinct, LacksValue;
    made, taken := [], multiset{};
    var counted := Validate(chunks);
    if counted.Raised? {
      return Raised(ValueError), made, taken;
    }
    var ok, id2node := MakeNodes(chunks, L);
    if !ok {
      return Raised(ValueError), made, taken;
    }
    SomeRecord(chunks);
    MadeCount(id2node, AllRecords(chunks));
    var failed;
    failed, taken := RelinkNodes(id2node, values, AllRecords(chunks));
    if failed.Some? {
      return Raised(failed.value), made, taken;
    }
    r, made := Ok(To(id2node[0])), id2node;
  }

  lemma SomeRecord(chunks: seq<Chunk>)
    requires chunks != [] && Countable(chunks)
    requires forall k :: 0 <= k < |chunks| ==> chunks[k].count == |chunks[k].records|
    ensures AllRecords(chunks) != []
  {
  }

  lemma MadeCount(id2node: seq<TrieNode>, rs: seq<Record>)
    requires Made(id2node, rs)
    ensures |id2node| == |rs|
  {
  }

  // ---------------------------------------------------------------- the round trip

  lemma {:induction false} ValuesGrow(P: Picture, ws: seq<Word>, i: nat)
    requires i <= |ws| && forall w :: w in ws ==> w in P
    ensures ValuesAlong(P, ws[..i]) <= ValuesAlong(P, ws)
    decreases |ws|
  {
    if i < |ws| {
      assert ws[..|ws| - 1][..i] == ws[..i];
      ValuesGrow(P, ws[..|ws| - 1], i);
    } else {
      assert ws[..i] == ws;
    }
  }

  /** A record ends a key just when the value list has an entry for it. */
  lemma {:induction false} KeysCounted(rs: seq<Record>, P: Picture, ws: seq<Word>, ids: map<Word, int>, i: nat)
    requires |rs| == |ws| && (forall w :: w in ws ==> w in P) && i <= |ws|
    requires forall k :: 0 <= k < |ws| ==> Stands(rs[k], P[ws[k]], ws[k], ids, true)
    ensures KeyCount(rs[..i]) == |ValuesAlong(P, ws[..i])|
  {
    if i > 0 {
      assert rs[..i][..i - 1] == rs[..i - 1] && ws[..i][..i - 1] == ws[..i - 1];
      KeysCounted(rs, P, ws, ids, i - 1);
    }
  }

  /** The value of a key is found where the keys before it are counted. */
  lemma ValueFound(rs: seq<Record>, P: Picture, ws: seq<Word>, ids: map<Word, int>, i: nat)
    requires |rs| == |ws| && (forall w :: w in ws ==> w in P) && i < |ws|
    requires forall k :: 0 <= k < |ws| ==> Stands(rs[k], P[ws[k]], ws[k], ids, true)
    ensures KeyCount(rs) == |ValuesAlong(P, ws)|
    ensures rs[i].eow ==> P[ws[i]].value.Some? && KeyCount(rs[..i]) < |ValuesAlong(P, ws)|
                          && ValuesAlong(P, ws)[KeyCount(rs[..i])] == P[ws[i]].value.value
  {
    hide KeyCount;
    KeysCounted(rs, P, ws, ids, |ws|);
    assert rs[..|rs|] == rs && ws[..|ws|] == ws;
    assert Stands(rs[i], P[ws[i]], ws[i], ids, true);
    if rs[i].eow {
      KeysCounted(rs, P, ws, ids, i);
      assert ws[..i + 1][..i] == ws[..i];
      ValuesGrow(P, ws, i + 1);
    }
  }

  /** Every node gets the value it had. */
  lemma ValueRestored(rs: seq<Record>, values: Option<seq<Output>>, P: Picture, ws: seq<Word>, ids: map<Word, int>,
                      i: nat)
    requires Dumped(rs, values, P, ws, ids) && i < |ws|
    ensures values.Some? ==> KeyCount(rs) <= |values.value|
    ensures Stands(Valued(rs, values, i), P[ws[i]], ws[i], ids, true)
    ensures rs[i].eow ==> Valued(rs, values, i).output == P[ws[i]].value.value
  {
    hide KeyCount, ValuesAlong;
    assert Stands(rs[i], P[ws[i]], ws[i], ids, true);
    ValueFound(rs, P, ws, ids, i);
  }

  ghost predicate FailsStay(P: Picture) {
    forall w :: w in P && P[w].fail.Some? ==> P[w].fail.value in P
  }

  /** What __reduce__ hands out can be read. */
  lemma WrittenIsReadable(chunks: seq<Chunk>, values: Option<seq<Output>>, L: Layout, P: Picture, ws: seq<Word>)
    requires Encodes(chunks, values, L, P, ws) && FailsStay(P)
    ensures chunks != [] && Countable(chunks) && Untruncated(chunks, L) && Linkable(AllRecords(chunks), values)
    ensures forall k :: 0 <= k < |AllRecords(chunks)| ==> Positive(AllRecords(chunks)[k])
  {
    var rs, ids := AllRecords(chunks), Numbering(ws);
    forall k | 0 <= k < |rs| ensures Positive(rs[k]) && InRange(rs[k], |rs|) {
      assert Stands(rs[k], P[ws[k]], ws[k], ids, true);
      assert ws[k] in P;
      IdsInRange(ws, P);
    }
    ValueRestored(rs, values, P, ws, ids, 0);
  }

  lemma IdsInRange(ws: seq<Word>, P: Picture)
    requires Lists(ws, P)
    ensures Numbering(ws).Keys == P.Keys
    ensures forall w :: w in P ==> 1 <= Numbering(ws)[w] <= |ws|
  {
  }

  lemma NodesFound(made: seq<TrieNode>, P: Picture, ws: seq<Word>)
    requires |made| == |ws| && Lists(ws, P)
    ensures NodesOf(made, ws).Keys == P.Keys
    ensures Finds(ById(made), Numbering(ws), NodesOf(made, ws))
    ensures forall k :: 0 <= k < |ws| ==> ws[k] in NodesOf(made, ws) && NodesOf(made, ws)[ws[k]] == made[k]
  {
    hide ById;
    FoundById(made);
    IdsInRange(ws, P);
    var ids, nodes := Numbering(ws), NodesOf(made, ws);
    forall w | w in ids ensures ids[w] in ById(made) && ById(made)[ids[w]] == nodes[w] {
      var k :| 0 <= k < |ws| && ws[k] == w;
      assert ids[ws[k]] == k + 1;
    }
  }

  /** The nodes linked by number are a copy of the numbered ones. */
  lemma LinkedIsCopy(made: seq<TrieNode>, rs: seq<Record>, values: Option<seq<Output>>, P: Picture, ws: seq<Word>)
    requires Lists(ws, P) && Dumped(rs, values, P, ws, Numbering(ws)) && FailsStay(P) && |made| == |ws|
    requires LinkedUpTo(made, rs, values, |rs|) && forall k :: 0 <= k < |ws| ==> made[k].word == ws[k]
    ensures Depicts(NodesOf(made, ws), P, true)
  {
    hide Dumped, Relinked, Stands, Numbering, NodesOf, ById, Shows, Valued;
    var nodes := NodesOf(made, ws);
    NodesFound(made, P, ws);
    DumpedAll(rs, values, P, ws);
    forall w | w in P
      ensures nodes[w].word == w && Shows(nodes, nodes[w], w, P[w]) && nodes[w].fail == LinkTo(nodes, P[w].fail) {
      var k :| 0 <= k < |ws| && ws[k] == w;
      ValueRestored(rs, values, P, ws, Numbering(ws), k);
      ValuedKeepsKey(rs, values, k);
      RelinkedShows(nodes, w, Valued(rs, values, k), P[w], ById(made), Numbering(ws), true);
    }
  }

  lemma ValuedKeepsKey(rs: seq<Record>, values: Option<seq<Output>>, k: nat)
    requires k < |rs|
    ensures Valued(rs, values, k).eow == rs[k].eow
  {
  }

  lemma DumpedAll(rs: seq<Record>, values: Option<seq<Output>>, P: Picture, ws: seq<Word>)
    requires Lists(ws, P) && Dumped(rs, values, P, ws, Numbering(ws))
    ensures |rs| == |ws|
  {
  }

  // ---------------------------------------------------------------- a new automaton

  /** The trie read back: root and nodes. */
  method ReadTrie(p: Pickled, L: Layout, ghost P: Picture, ghost ws: seq<Word>)
      returns (root: Ptr, ghost nodes: map<Word, TrieNode>, ghost taken: multiset<Output>)
    requires p.State? && Encodes(p.chunks, p.values, L, P, ws) && FailsStay(P)
    ensures Depicts(nodes, P, true) && root == Target(nodes, []) && forall n :: n in nodes.Values ==> fresh(n)
    ensures taken == multiset(if p.values.Some? then p.values.value else [])
  {
    hide Encodes, Countable, Untruncated, Linkable, Dumped, LinkedUpTo, FailsStay, Depicts, Lists, NodesOf;
    hide KeyCount;
    WrittenIsReadable(p.chunks, p.values, L, P, ws);
    EncodedParts(p.chunks, p.values, L, P, ws);
    var r;
    ghost var made;
    r, made, taken := Unpickle(p.chunks, p.values, L);
    AllUsed(p.chunks, p.values, L, P, ws);
    root := r.value;
    LinkedCount(made, AllRecords(p.chunks), p.values);
    NameNodes(made, ws);
    nodes := NodesOf(made, ws);
    LinkedIsCopy(made, AllRecords(p.chunks), p.values, P, ws);
    NodesFound(made, P, ws);
    FreshNodes(made, ws);
  }

  lemma LinkedCount(made: seq<TrieNode>, rs: seq<Record>, values: Option<seq<Output>>)
    requires LinkedUpTo(made, rs, values, |made|)
    ensures |made| == |rs|
  {
  }

  /** Every value on the list is that of a key. */
  lemma AllUsed(chunks: seq<Chunk>, values: Option<seq<Output>>, L: Layout, P: Picture, ws: seq<Word>)
    requires Encodes(chunks, values, L, P, ws)
    ensures Used(values, KeyCount(AllRecords(chunks))) == if values.Some? then values.value else []
  {
    hide KeyCount, ValuesAlong;
    if values.Some? {
      EncodedValues(chunks, values, L, P, ws);
      ValueFound(AllRecords(chunks), P, ws, Numbering(ws), 0);
    }
  }

  lemma EncodedParts(chunks: seq<Chunk>, values: Option<seq<Output>>, L: Layout, P: Picture, ws: seq<Word>)
    requires Encodes(chunks, values, L, P, ws)
    ensures Lists(ws, P) && Distinct(ws) && ws != [] && ws[0] == []
    ensures Dumped(AllRecords(chunks), values, P, ws, Numbering(ws))
    ensures |AllRecords(chunks)| == |ws|
    ensures forall k :: 0 <= k < |chunks| ==> chunks[k].count == |chunks[k].records|
  {
  }

  /** The constructor called with what __reduce__ handed out. */
  method FromPickle(p: Pickled, L: Layout, ghost P: Picture, ghost ws: seq<Word>) returns (b: Automaton)
    requires p.State? ==> Encodes(p.chunks, p.values, L, P, ws) && FailsStay(P) && p.count >= |KeysOf(P)|
    ensures fresh(b) && b.version == 0 && b.stats.version == -1 && !b.unseen
    ensures p.Fresh? ==> b.kind == Empty && b.store == Any && b.keyType == String && b.count == 0 && b.longestWord == 0
                         && b.root == Null && b.nodes == map[] && b.held == multiset{} && b.lost == 0
    ensures p.State? ==> p == State(p.chunks, b.kind, b.store, b.keyType, b.count, b.longestWord, p.values)
    ensures p.State? ==> Depicts(b.nodes, P, true) && b.root == Target(b.nodes, []) && b.count == |KeysOf(P)| + b.lost
    ensures p.State? ==> b.held == multiset(if p.values.Some? then p.values.value else [])
    ensures forall n :: n in b.nodes.Values ==> fresh(n)
  {
    hide Encodes, FailsStay, Depicts, KeysOf;
    if p.Fresh? {
      b := new Automaton(Any, String);
      return;
    }
    b := Restore(p, L, P, ws);
  }

  method Restore(p: Pickled, L: Layout, ghost P: Picture, ghost ws: seq<Word>) returns (b: Automaton)
    requires p.State? && Encodes(p.chunks, p.values, L, P, ws) && FailsStay(P) && p.count >= |KeysOf(P)|
    ensures fresh(b) && b.version == 0 && b.stats.version == -1 && !b.unseen
    ensures p == State(p.chunks, b.kind, b.store, b.keyType, b.count, b.longestWord, p.values)
    ensures Depicts(b.nodes, P, true) && b.root == Target(b.nodes, []) && b.count == |KeysOf(P)| + b.lost
    ensures b.held == multiset(if p.values.Some? then p.values.value else [])
    ensures forall n :: n in b.nodes.Values ==> fresh(n)
  {
    hide Encodes, FailsStay, Depicts, KeysOf;
    b := new Automaton(p.store, p.keyType);
    var root;
    ghost var nodes;
    ghost var taken;
    root, nodes, taken := ReadTrie(p, L, P, ws);
    Fill(b, p, root, nodes, taken, p.count - |KeysOf(P)|);
  }

  method Fill(b: Automaton, p: Pickled, root: Ptr, ghost nodes: map<Word, TrieNode>, ghost taken: multiset<Output>,
              ghost lost: nat)
    requires p.State? && b.store == p.store && b.keyType == p.keyType
    modifies b`root, b`nodes, b`held, b`kind, b`count, b`longestWord, b`lost
    ensures b.root == root && b.nodes == nodes && b.lost == lost && b.held == taken
    ensures p == State(p.chunks, b.kind, b.store, b.keyType, b.count, b.longestWord, p.values)
  {
    b.root, b.nodes := root, nodes;
    b.held := taken;
    b.kind, b.count, b.longestWord := p.kind, p.count, p.longestWord;
    b.lost := lost;
  }

  /** The references taken by the copy are those the original holds. */
  lemma ValuesHeld(a: Automaton, values: Option<seq<Output>>, L: Layout, P: Picture, ws: seq<Word>, chunks: seq<Chunk>)
    requires Valid(a) && KeysOf(P) == a.Keys() && Encodes(chunks, values, L, P, ws)
    requires (values.Some? <==> a.store == Any)
    ensures a.held == multiset(if values.Some? then values.value else [])
  {
    hide Valid, Encodes, KeysOf, Automaton.Keys, HoldsValues, ValuesAlong;
    HeldAre(a);
    if values.Some? {
      EncodedValues(chunks, values, L, P, ws);
      ValuesAreHeld(P, ws);
      SameHolding(a.held, multiset(values.value), a.Keys());
    }
  }

  lemma EncodedValues(chunks: seq<Chunk>, values: Option<seq<Output>>, L: Layout, P: Picture, ws: seq<Word>)
    requires Encodes(chunks, values, L, P, ws) && values.Some?
    ensures Distinct(ws) && (forall w :: w in ws ==> w in P)
    ensures values.value == ValuesAlong(P, ws) && KeysAmong(P, ws) == KeysOf(P)
  {
  }

  lemma LivePictureStays(nodes: map<Word, TrieNode>)
    requires Live(nodes)
    ensures FailsStay(PictureOf(nodes))
  {
  }

  /** Unpickling what __reduce__ handed out gives an automaton with the same picture: the same words, child order, keys,
      values and fail links. Without keys the store and the key type are not kept. */
  method CopyByPickle(a: Automaton, L: Layout) returns (b: Automaton)
    requires Valid(a)
    requires a.count != 0 ==> Live(a.nodes) && RecordsFit(L, PictureOf(a.nodes))
    modifies a.nodes.Values`fail
    ensures forall w :: w in a.nodes ==> a.nodes[w].fail == old(a.nodes[w].fail)
    ensures fresh(b) && (forall n :: n in b.nodes.Values ==> fresh(n)) && Valid(a) && Valid(b)
    ensures b.Keys() == a.Keys() && b.count == a.count
    ensures a.count != 0 ==> b.kind == a.kind && b.store == a.store && b.keyType == a.keyType
    ensures a.count != 0 ==> b.longestWord == a.longestWord && PictureOf(b.nodes) == PictureOf(a.nodes)
    ensures a.count == 0 ==> b.kind == Empty && b.store == Any && b.keyType == String
  {
    hide Valid, Encodes, RecordsFit, Depicts, PictureOf, FailsStay, SizeAlong, Live, Automaton.Keys, Automaton.Shape;
    hide Books.Fit, BooksOf, PictureFits, Bounded, KeysOf, Similar, FailsShow;
    ghost var P, ws := PictureOf(a.nodes), [];
    ValidBooks(a);
    var p;
    p, ws := Reduce(a, L);
    if a.count != 0 {
      PictureOfValid(a);
      FittingPicture(a, P);
      LivePictureStays(a.nodes);
    }
    b := FromPickle(p, L, P, ws);
    if a.count == 0 {
      NewIsValid(b);
    } else {
      ValuesHeld(a, p.values, L, P, ws, p.chunks);
      FaithfulReplicaIsValid(a, b, P);
    }
  }
}
