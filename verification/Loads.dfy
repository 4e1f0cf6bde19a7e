/** load: the nodes are read one by one, and linked again by looking up their old addresses. */
module Loads {
  import opened Options
  import opened Words
  import opened TrieNodes
  import opened Automata
  import opened Traversal
  import opened Copies
  import opened Dictionary
  import opened Files

  datatype AddressPair = AddressPair(original: int, current: TrieNode)

  // ---------------------------------------------------------------- sorting and searching by address

  ghost predicate Sorted(lookup: seq<AddressPair>) {
    forall i, j :: 0 <= i < j < |lookup| ==> lookup[i].original < lookup[j].original
  }

  /** `M` finds the new node for each old address in the table. */
  ghost predicate Indexes(M: map<int, TrieNode>, lookup: seq<AddressPair>) {
    && (forall i :: 0 <= i < |lookup| ==> lookup[i].original in M && M[lookup[i].original] == lookup[i].current)
    && (forall x :: x in M ==> AddressPair(x, M[x]) in lookup)
  }

  ghost predicate Within(s: seq<AddressPair>, t: seq<AddressPair>) {
    forall i :: 0 <= i < |s| ==> s[i] in t
  }

  function Insert(p: AddressPair, lookup: seq<AddressPair>): seq<AddressPair> {
    if lookup == [] || p.original < lookup[0].original then [p] + lookup
    else [lookup[0]] + Insert(p, lookup[1..])
  }

  /** Stands for qsort with addresspair_cmp. */
  function Sort(lookup: seq<AddressPair>): seq<AddressPair> {
    if lookup == [] then [] else Insert(lookup[0], Sort(lookup[1..]))
  }

  ghost predicate OneEach(lookup: seq<AddressPair>) {
    forall i, j :: 0 <= i < j < |lookup| ==> lookup[i].original != lookup[j].original
  }

  lemma {:induction false} InsertWithin(p: AddressPair, lookup: seq<AddressPair>)
    ensures |Insert(p, lookup)| == |lookup| + 1
    ensures Within(Insert(p, lookup), [p] + lookup) && Within([p] + lookup, Insert(p, lookup))
  {
    if lookup == [] || p.original < lookup[0].original {
      assert forall i :: 0 <= i < |[p] + lookup| ==> ([p] + lookup)[i] in [p] + lookup;
    } else {
      var first, tail, rest := lookup[0], lookup[1..], Insert(p, lookup[1..]);
      InsertWithin(p, tail);
      assert lookup == [first] + tail;
      forall i | 0 <= i < |[first] + rest| ensures ([first] + rest)[i] in [p] + lookup {
        if i > 0 {
          assert rest[i - 1] in [p] + tail;
        }
      }
      forall i | 0 <= i < |[p] + lookup| ensures ([p] + lookup)[i] in [first] + rest {
        if i != 1 {
          assert ([p] + tail)[if i == 0 then 0 else i - 1] in rest;
        }
      }
    }
  }

  lemma {:induction false} InsertSorts(p: AddressPair, lookup: seq<AddressPair>)
    requires Sorted(lookup) && forall i :: 0 <= i < |lookup| ==> lookup[i].original != p.original
    ensures Sorted(Insert(p, lookup)) && |Insert(p, lookup)| == |lookup| + 1
    ensures Within(Insert(p, lookup), [p] + lookup) && Within([p] + lookup, Insert(p, lookup))
  {
    InsertWithin(p, lookup);
    if lookup != [] && p.original >= lookup[0].original {
      var tail, rest := lookup[1..], Insert(p, lookup[1..]);
      InsertSorts(p, tail);
      forall i | 0 <= i < |rest| ensures lookup[0].original < rest[i].original {
        assert rest[i] in [p] + tail;
      }
    }
  }

  lemma {:induction false} SortSorts(lookup: seq<AddressPair>)
    requires OneEach(lookup)
    ensures Sorted(Sort(lookup)) && |Sort(lookup)| == |lookup|
    ensures Within(Sort(lookup), lookup) && Within(lookup, Sort(lookup))
  {
    hide Sorted, Insert;
    if lookup == [] {
      NothingSorted();
    } else {
      var p, tail := lookup[0], lookup[1..];
      SortSorts(tail);
      var sorted := Sort(tail);
      assert lookup == [p] + tail;
      forall i | 0 <= i < |sorted| ensures sorted[i].original != p.original && sorted[i] in lookup {
        assert sorted[i] in tail;
      }
      InsertSorts(p, sorted);
      forall i | 0 <= i < |Sort(lookup)| ensures Sort(lookup)[i] in lookup {
        assert Sort(lookup)[i] in [p] + sorted;
      }
      forall i | 0 <= i < |lookup| ensures lookup[i] in Sort(lookup) {
        if i == 0 {
          assert ([p] + sorted)[0] in Sort(lookup);
        } else {
          assert tail[i - 1] in sorted;
          var j :| 0 <= j < |sorted| && sorted[j] == tail[i - 1];
          assert ([p] + sorted)[j + 1] in Sort(lookup);
        }
      }
    }
  }

  lemma NothingSorted()
    ensures Sorted([])
  {
  }

  lemma SortKeepsIndex(M: map<int, TrieNode>, lookup: seq<AddressPair>)
    requires OneEach(lookup) && Indexes(M, lookup)
    ensures Sorted(Sort(lookup)) && Indexes(M, Sort(lookup)) && |Sort(lookup)| == |lookup|
  {
    SortSorts(lookup);
    forall i | 0 <= i < |lookup|
      ensures Sort(lookup)[i].original in M && M[Sort(lookup)[i].original] == Sort(lookup)[i].current {
      assert Sort(lookup)[i] in lookup;
    }
    forall x | x in M ensures AddressPair(x, M[x]) in Sort(lookup) {
      var i :| 0 <= i < |lookup| && lookup[i] == AddressPair(x, M[x]);
      assert lookup[i] in Sort(lookup);
    }
  }

  /** lookup_address, with the binary search of bsearch. */
  method LookupAddress(lookup: seq<AddressPair>, original: int, ghost M: map<int, TrieNode>) returns (r: Ptr)
    requires Sorted(lookup) && Indexes(M, lookup)
    ensures r == if original in M then To(M[original]) else Null
  {
    var low, high := 0, |lookup|;
    while low < high
      invariant 0 <= low <= high <= |lookup|
      invariant forall i :: 0 <= i < low ==> lookup[i].original < original
      invariant forall i :: high <= i < |lookup| ==> lookup[i].original > original
    {
      var middle := (low + high) / 2;
      if lookup[middle].original == original {
        return To(lookup[middle].current);
      } else if lookup[middle].original < original {
        low := middle + 1;
      } else {
        high := middle;
      }
    }
    r := Null;
  }

  // ---------------------------------------------------------------- reading

  /** The record with the value that the node gets. */
  function Restored(store: Store, deserialize: seq<Byte> -> Output, e: Entry): Record {
    if store == Any && e.record.eow then e.record.(output := deserialize(e.data)) else e.record
  }

  /** An entry whose value cannot be read back. */
  predicate Unreadable(store: Store, e: Entry) {
    store == Any && e.record.eow && e.data == []
  }

  predicate WellFormed(store: Store, e: Entry) {
    if store == Any && e.record.eow then e.record.output == |e.data| else e.data == []
  }

  /** The reference that loading the entry takes. */
  function Taken(store: Store, deserialize: seq<Byte> -> Output, e: Entry): multiset<Output> {
    if store == Any && e.record.eow then multiset{deserialize(e.data)} else multiset{}
  }

  function TakenAll(store: Store, deserialize: seq<Byte> -> Output, es: seq<Entry>): multiset<Output> {
    if es == [] then multiset{}
    else TakenAll(store, deserialize, es[..|es| - 1]) + Taken(store, deserialize, es[|es| - 1])
  }

  lemma TakenNext(store: Store, deserialize: seq<Byte> -> Output, es: seq<Entry>, e: Entry)
    ensures TakenAll(store, deserialize, es + [e]) == TakenAll(store, deserialize, es) + Taken(store, deserialize, e)
  {
    assert (es + [e])[..|es|] == es;
  }

  class LoadBuffer {
    const file: seq<Byte>
    const S: Sizes
    const deserialize: seq<Byte> -> Output
    var at: nat
    var store: Store
    var kind: Kind
    var lookup: seq<AddressPair>
    var capacity: nat
    ghost var taken: multiset<Output>  // the references to objects that were made

    constructor (file: seq<Byte>, S: Sizes, deserialize: seq<Byte> -> Output)
      ensures this.file == file && this.S == S && this.deserialize == deserialize && at == 0 && lookup == []
      ensures taken == multiset{}
    {
      this.file, this.S, this.deserialize := file, S, deserialize;
      at, store, kind, lookup, capacity := 0, Any, Empty, [], 0;
      taken := multiset{};
    }

    /** What is still to be read. */
    ghost function Rest(): seq<Byte>
      reads this`at
    {
      if at <= |file| then file[at..] else []
    }

    /** loadbuffer_load: it is an error to read nothing. */
    method Load(size: nat) returns (r: Option<seq<Byte>>)
      modifies this`at
      ensures r.Some? <==> 0 < size <= |old(Rest())|
      ensures r.Some? ==> r.value == old(Rest())[..size] && Rest() == old(Rest())[size..]
    {
      if size == 0 || at + size > |file| {
        return None;
      }
      r := Some(file[at..at + size]);
      at := at + size;
    }

    /** Reads one value that was written before `tail`. */
    method LoadInto(size: nat, ghost f: Field, ghost tail: seq<Byte>) returns (r: Option<Field>)
      requires S.Real() && size == S.Of(f) && Rest() == Bytes(S, f) + tail
      modifies this`at
      ensures r == Some(f) && Rest() == tail
    {
      var bytes := Load(size);
      BytesReinterpreted(S, f);
      assert bytes.value == Bytes(S, f);
      r := Reinterpret(S, bytes.value);
    }

    /** loadbuffer_init: reads the header, then the footer at the end of the file, and comes back. */
    method Init(ghost h: Field, ghost es: seq<Entry>) returns (header: Field)
      requires S.Real() && at == 0 && h.Header? && file == FileBytes(S, h, es)
      modifies this`at, this`store, this`kind, this`capacity
      ensures header == h && store == h.store && kind == h.kind && capacity == |es|
      ensures Rest() == EntriesBytes(S, es) + Bytes(S, Footer(|es|))
    {
      ghost var rest := EntriesBytes(S, es) + Bytes(S, Footer(|es|));
      var first := LoadInto(S.header, h, rest);
      var pos := at;
      at := |file| - S.footer;
      assert file == Bytes(S, h) + EntriesBytes(S, es) + Bytes(S, Footer(|es|));
      assert Rest() == Bytes(S, Footer(|es|)) + [];
      var footer := LoadInto(S.footer, Footer(|es|), []);
      at := pos;
      header := first.value;
      store, kind, capacity := header.store, header.kind, footer.value.nodes;
    }

    /** Reads the array of child links. */
    method LoadLinks(n: nat, ghost links: seq<Link>, ghost tail: seq<Byte>) returns (r: Option<seq<Link>>)
      requires S.Real() && n == |links| && Rest() == LinkBytes(S, links) + tail
      modifies this`at
      ensures r == Some(links) && Rest() == tail
    {
      LinkBytesLength(S, links);
      if n == 0 {
        return Some([]);
      }
      LinksTakeRoom(n, S.pair);
      var bytes := Load(n * S.pair);
      assert bytes.value == LinkBytes(S, links);
      LinksReinterpreted(S, links);
      r := ReinterpretLinks(S, bytes.value, n);
    }

    /** Reads the bytes of a value; no bytes are an error. */
    method LoadObject(size: nat, ghost data: seq<Byte>, ghost tail: seq<Byte>) returns (r: Option<Output>)
      requires size == |data| && Rest() == data + tail
      modifies this`at
      ensures r == if data == [] then None else Some(deserialize(data))
      ensures r.Some? ==> Rest() == tail
    {
      var bytes := Load(size);
      if bytes.None? {
        return None;
      }
      assert bytes.value == data;
      r := Some(deserialize(bytes.value));
    }

    /** automaton_load_node. */
    method LoadNode(ghost e: Entry, ghost tail: seq<Byte>) returns (ok: bool)
      requires S.Real() && WellFormed(store, e) && Rest() == EntryBytes(S, e) + tail
      modifies this`at, this`lookup, this`taken
      ensures ok <==> !Unreadable(store, e)
      ensures ok ==> taken == old(taken) + Taken(store, deserialize, e)
      ensures ok ==> Rest() == tail && |lookup| == |old(lookup)| + 1 && lookup[..|old(lookup)|] == old(lookup)
                     && lookup[|old(lookup)|].original == e.address && fresh(lookup[|old(lookup)|].current)
                     && Unlinked(lookup[|old(lookup)|].current, Restored(store, deserialize, e))
    {
      hide Bytes, LinkBytes, Rest;
      ghost var links, end := LinkBytes(S, e.record.links), e.data + tail;
      EntrySplit(e, tail);
      var original := LoadInto(S.pointer, Address(e.address), Bytes(S, NodeField(e.record)) + (links + end));
      var header := LoadInto(S.node, NodeField(e.record), links + end);
      var children := LoadLinks(header.value.links, e.record.links, end);
      var output := header.value.output;
      if header.value.eow && store == Any {
        var value := LoadObject(output, e.data, tail);
        if value.None? {
          return false;
        }
        output := value.value;
        taken := taken + multiset{output};
      } else {
        assert end == tail;
      }
      var node := Make(output, header.value.eow, header.value.fail, children.value);
      lookup := lookup + [AddressPair(original.value.bits, node)];
      ok := true;
    }

    /** The nodes were made from the entries, in this order. */
    ghost predicate LoadedAll(es: seq<Entry>)
      reads this`lookup, this`store, set p | p in lookup :: p.current
    {
      && |lookup| == |es| && Apart(lookup)
      && forall k :: 0 <= k < |es| ==>
           assert lookup[k] in lookup;
           lookup[k].original == es[k].address && Unlinked(lookup[k].current, Restored(store, deserialize, es[k]))
    }

    method LoadNodes(ghost es: seq<Entry>, ghost tail: seq<Byte>) returns (ok: bool)
      requires S.Real() && lookup == [] && capacity == |es| && Rest() == EntriesBytes(S, es) + tail
      requires taken == multiset{}
      requires forall k :: 0 <= k < |es| ==> WellFormed(store, es[k])
      modifies this`at, this`lookup, this`taken
      ensures ok ==> taken == TakenAll(store, deserialize, es)
      ensures ok <==> forall k :: 0 <= k < |es| ==> !Unreadable(store, es[k])
      ensures ok ==> LoadedAll(es) && forall k :: 0 <= k < |lookup| ==> fresh(lookup[k].current)
    {
      hide Rest, EntryBytes, EntriesBytes, WellFormed, Unreadable, Restored, Unlinked, Taken, TakenAll;
      NothingTakenYet();
      assert es[0..] == es && es[..0] == [];
      var i := 0;
      while i < capacity
        invariant 0 <= i <= capacity && Rest() == EntriesBytes(S, es[i..]) + tail
        invariant taken == TakenAll(store, deserialize, es[..i])
        invariant forall k :: 0 <= k < i ==> !Unreadable(store, es[k])
        invariant LoadedAll(es[..i]) && forall k :: 0 <= k < |lookup| ==> fresh(lookup[k].current)
      {
        ghost var before, rest := lookup, EntriesBytes(S, es[i + 1..]) + tail;
        FirstEntry(es[i..], tail);
        assert es[i..][1..] == es[i + 1..] && es[i..][0] == es[i] && es[..i + 1] == es[..i] + [es[i]];
        TakenNext(store, deserialize, es[..i], es[i]);
        ok := LoadNode(es[i], rest);
        if !ok {
          return;
        }
        assert forall k :: 0 <= k < i ==> lookup[k] == before[k];
        i := i + 1;
      }
      assert es[..i] == es && es[i..] == [];
      NoEntriesLeft();
      ok := true;
    }

    lemma NoEntriesLeft()
      ensures EntriesBytes(S, []) == []
    {
    }

    lemma NothingTakenYet()
      ensures TakenAll(store, deserialize, []) == multiset{}
    {
    }

    lemma FirstEntry(es: seq<Entry>, tail: seq<Byte>)
      requires es != []
      ensures EntriesBytes(S, es) + tail == EntryBytes(S, es[0]) + (EntriesBytes(S, es[1..]) + tail)
    {
    }

    // -------------------------------------------------------------- linking again

    /** All addresses in the record are found. */
    ghost predicate Resolves(r: Record, M: map<int, TrieNode>)
      reads this`kind
    {
      (kind == AhoCorasick && r.fail != 0 ==> r.fail in M) && forall j :: 0 <= j < |r.links| ==> r.links[j].id in M
    }

    /** automaton_load_fixup_node: fail links only matter in an Aho-Corasick automaton. */
    method FixupNode(node: TrieNode, ghost r: Record, ghost M: map<int, TrieNode>) returns (ok: bool)
      requires Sorted(lookup) && Indexes(M, lookup) && 0 !in M && Unlinked(node, r)
      modifies node`fail, node`next
      ensures ok <==> Resolves(r, M)
      ensures ok ==> Relinked(node, r, M, kind == AhoCorasick)
    {
      hide Sorted, Indexes;
      if kind == AhoCorasick && node.fail != Null {
        node.fail := LookupAddress(lookup, node.fail.bits, M);
        if node.fail == Null {
          return false;
        }
      }
      ghost var fail := node.fail;
      var i := 0;
      while i < |node.next|
        invariant 0 <= i <= |node.next| == |r.links| && node.fail == fail
        invariant forall j :: 0 <= j < i ==>
          r.links[j].id in M && node.next[j] == Pair(r.links[j].letter, To(M[r.links[j].id]))
        invariant forall j :: i <= j < |r.links| ==> node.next[j] == Pair(r.links[j].letter, Raw(r.links[j].id))
      {
        var child := LookupAddress(lookup, node.next[i].child.bits, M);
        if child == Null {
          assert r.links[i].id !in M;
          return false;
        }
        node.next := node.next[i := Pair(node.next[i].letter, child)];
        i := i + 1;
      }
      ok := true;
    }

    /** The first `i` nodes of the table are linked, the others are as they were read. */
    ghost predicate FixedUpTo(table: seq<AddressPair>, R: map<int, Record>, M: map<int, TrieNode>, i: nat)
      reads this`kind, set p | p in table :: p.current
    {
      forall k :: 0 <= k < |table| ==>
        assert table[k] in table;
        table[k].original in R &&
        if k < i then Relinked(table[k].current, R[table[k].original], M, kind == AhoCorasick)
        else Unlinked(table[k].current, R[table[k].original])
    }

    ghost predicate AllResolve(R: map<int, Record>, M: map<int, TrieNode>)
      reads this`kind
    {
      forall x :: x in R ==> Resolves(R[x], M)
    }

    /** automaton_load_fixup_pointers: the first node read is the root; then the table is sorted and every node linked.
        An address that is not in the table is an error. */
    method FixupPointers(ghost R: map<int, Record>, ghost M: map<int, TrieNode>) returns (root: Ptr)
      requires lookup != [] && OneEach(lookup) && Apart(lookup) && Indexes(M, lookup) && 0 !in M
      requires FixedUpTo(lookup, R, M, 0)
      requires forall x :: x in R ==> x in M
      modifies this`lookup, set p | p in lookup :: p.current`fail, set p | p in lookup :: p.current`next
      ensures root == if AllResolve(R, M) then To(old(lookup)[0].current) else Null
      ensures Indexes(M, lookup) && |lookup| == |old(lookup)|
      ensures root != Null ==> FixedUpTo(lookup, R, M, |lookup|)
    {
      hide Sorted, Indexes, Apart, OneEach, Resolves;
      root := To(lookup[0].current);
      ghost var before := lookup;
      lookup := Sort(lookup);
      SortKeepsIndex(M, before);
      SortKeepsNodes(before);
      SortKeepsRecords(before, R, M);
      var ok := FixupAll(R, M);
      if !ok {
        root := Null;
      }
    }

    method FixupAll(ghost R: map<int, Record>, ghost M: map<int, TrieNode>) returns (ok: bool)
      requires Sorted(lookup) && Apart(lookup) && Indexes(M, lookup) && 0 !in M && FixedUpTo(lookup, R, M, 0)
      requires forall x :: x in R ==> x in M
      modifies set p | p in lookup :: p.current`fail, set p | p in lookup :: p.current`next
      ensures ok <==> AllResolve(R, M)
      ensures ok ==> FixedUpTo(lookup, R, M, |lookup|)
    {
      hide Sorted, Indexes, Unlinked, Relinked, Resolves;
      var i := 0;
      while i < |lookup|
        invariant 0 <= i <= |lookup| && FixedUpTo(lookup, R, M, i)
        invariant forall k :: 0 <= k < i ==> Resolves(R[lookup[k].original], M)
      {
        assert lookup[i] in lookup;
        ok := FixupNode(lookup[i].current, R[lookup[i].original], M);
        if !ok {
          return;
        }
        i := i + 1;
      }
      ok := true;
      forall x | x in R ensures Resolves(R[x], M) {
        PairOf(lookup, M, x);
        var k :| 0 <= k < |lookup| && lookup[k].original == x;
      }
    }

    lemma SortKeepsRecords(before: seq<AddressPair>, R: map<int, Record>, M: map<int, TrieNode>)
      requires OneEach(before) && FixedUpTo(before, R, M, 0)
      ensures FixedUpTo(Sort(before), R, M, 0)
    {
      hide Unlinked;
      SortSorts(before);
      var table := Sort(before);
      forall k | 0 <= k < |table|
        ensures table[k].original in R && Unlinked(table[k].current, R[table[k].original]) {
        assert table[k] in before;
      }
    }

    lemma EntrySplit(e: Entry, tail: seq<Byte>)
      ensures EntryBytes(S, e) + tail == Bytes(S, Address(e.address)) +
                (Bytes(S, NodeField(e.record)) + (LinkBytes(S, e.record.links) + (e.data + tail)))
    {
      var a, b := Bytes(S, Address(e.address)), Bytes(S, NodeField(e.record));
      var c, d := LinkBytes(S, e.record.links), e.data;
      assert (a + (b + (c + d))) + tail == a + (b + (c + (d + tail)));
    }
  }

  ghost predicate Apart(lookup: seq<AddressPair>) {
    forall i, j :: 0 <= i < j < |lookup| ==> lookup[i].current != lookup[j].current
  }

  lemma PairOf(lookup: seq<AddressPair>, M: map<int, TrieNode>, x: int)
    requires Indexes(M, lookup) && x in M
    ensures exists k :: 0 <= k < |lookup| && lookup[k].original == x
  {
    var k :| 0 <= k < |lookup| && lookup[k] == AddressPair(x, M[x]);
  }

  lemma SortKeepsNodes(lookup: seq<AddressPair>)
    requires OneEach(lookup) && Apart(lookup)
    ensures Apart(Sort(lookup)) && Within(Sort(lookup), lookup)
  {
    SortSorts(lookup);
    var table := Sort(lookup);
    forall i, j | 0 <= i < j < |table| ensures table[i].current != table[j].current {
      assert table[i] in lookup && table[j] in lookup;
      var p :| 0 <= p < |lookup| && lookup[p] == table[i];
      var q :| 0 <= q < |lookup| && lookup[q] == table[j];
      assert p != q;
    }
  }

  lemma LinksTakeRoom(n: nat, pair: nat)
    requires n > 0 && pair > 0
    ensures n * pair > 0
  {
  }

  method Make(output: Output, eow: bool, fail: int, links: seq<Link>) returns (node: TrieNode)
    ensures fresh(node) && Unlinked(node, Record(output, fail, eow, links))
  {
    node := new TrieNode(eow);
    node.output, node.fail := output, Cast(fail);
    node.next := seq(|links|, j requires 0 <= j < |links| => Pair(links[j].letter, Raw(links[j].id)));
  }

  // ---------------------------------------------------------------- the loaded trie

  /** Every address in the entries is that of an entry, and no two entries share one. */
  ghost predicate Closed(es: seq<Entry>, fails: bool) {
    && (forall i, j :: 0 <= i < j < |es| ==> es[i].address != es[j].address)
    && (forall k :: 0 <= k < |es| ==> es[k].address != 0 && Known(es, es[k].record, fails))
  }

  ghost predicate Known(es: seq<Entry>, r: Record, fails: bool) {
    (fails && r.fail != 0 ==> Saved(es, r.fail)) && forall j :: 0 <= j < |r.links| ==> Saved(es, r.links[j].id)
  }

  ghost predicate Saved(es: seq<Entry>, x: int) {
    exists k :: 0 <= k < |es| && es[k].address == x
  }

  ghost function NodeAt(lookup: seq<AddressPair>): map<int, TrieNode>
    requires OneEach(lookup)
  {
    map k: int | 0 <= k < |lookup| :: lookup[k].original := lookup[k].current
  }

  ghost function RecordAt(store: Store, deserialize: seq<Byte> -> Output, es: seq<Entry>): map<int, Record>
    requires forall i, j :: 0 <= i < j < |es| ==> es[i].address != es[j].address
  {
    map k: int | 0 <= k < |es| :: es[k].address := Restored(store, deserialize, es[k])
  }

  ghost function Currents(lookup: seq<AddressPair>): (made: seq<TrieNode>)
    ensures |made| == |lookup| && forall k :: 0 <= k < |made| ==> made[k] == lookup[k].current
  {
    seq(|lookup|, k requires 0 <= k < |lookup| => lookup[k].current)
  }

  /** The nodes read, in the order of the entries, are linked as their entries say. */
  ghost predicate Rebuilt(made: seq<TrieNode>, es: seq<Entry>, M: map<int, TrieNode>, fails: bool, store: Store,
                          deserialize: seq<Byte> -> Output)
    reads set n | n in made :: n`eow, set n | n in made :: n`output
    reads set n | n in made :: n`fail, set n | n in made :: n`next
  {
    && |made| == |es| && 0 !in M
    && forall k :: 0 <= k < |es| ==>
         assert made[k] in made;
         es[k].address in M && M[es[k].address] == made[k] &&
         Relinked(made[k], Restored(store, deserialize, es[k]), M, fails)
  }

  lemma NodesIndexed(lookup: seq<AddressPair>)
    requires OneEach(lookup)
    ensures Indexes(NodeAt(lookup), lookup)
  {
    forall x | x in NodeAt(lookup) ensures AddressPair(x, NodeAt(lookup)[x]) in lookup {
      var k :| 0 <= k < |lookup| && lookup[k].original == x;
      assert lookup[k] == AddressPair(x, NodeAt(lookup)[x]);
    }
  }

  lemma RecordsIndexed(store: Store, deserialize: seq<Byte> -> Output, es: seq<Entry>, fails: bool)
    requires Closed(es, fails)
    ensures forall k :: 0 <= k < |es| ==>
              es[k].address in RecordAt(store, deserialize, es)
              && RecordAt(store, deserialize, es)[es[k].address] == Restored(store, deserialize, es[k])
    ensures forall x :: x in RecordAt(store, deserialize, es) ==> Saved(es, x)
  {
  }

  lemma AddressesKnown(lookup: seq<AddressPair>, es: seq<Entry>, fails: bool)
    requires Closed(es, fails) && |lookup| == |es| && forall k :: 0 <= k < |es| ==> lookup[k].original == es[k].address
    ensures OneEach(lookup) && 0 !in NodeAt(lookup) && forall x :: Saved(es, x) <==> x in NodeAt(lookup)
  {
  }

  lemma Resolved(input: LoadBuffer, es: seq<Entry>, M: map<int, TrieNode>, e: Entry)
    requires Known(es, e.record, input.kind == AhoCorasick) && forall x :: Saved(es, x) <==> x in M
    ensures input.Resolves(Restored(input.store, input.deserialize, e), M)
  {
    RestoredLinks(input.store, input.deserialize, e);
  }

  /** The table that was read suits the fixup. */
  lemma TableSuits(input: LoadBuffer, es: seq<Entry>, M: map<int, TrieNode>, R: map<int, Record>)
    requires input.LoadedAll(es) && Closed(es, input.kind == AhoCorasick)
    requires OneEach(input.lookup) ==> M == NodeAt(input.lookup)
    requires R == RecordAt(input.store, input.deserialize, es)
    ensures OneEach(input.lookup) && Apart(input.lookup) && Indexes(M, input.lookup) && 0 !in M
    ensures input.FixedUpTo(input.lookup, R, M, 0) && input.AllResolve(R, M) && forall x :: x in R ==> x in M
  {
    hide Unlinked, Restored, NodeAt, RecordAt, Indexes, OneEach, Apart, LoadBuffer.Resolves, Known, Saved;
    TableRead(input, es);
    AddressesKnown(input.lookup, es, input.kind == AhoCorasick);
    NodesIndexed(input.lookup);
    RecordsIndexed(input.store, input.deserialize, es, input.kind == AhoCorasick);
    forall x | x in R ensures x in M && input.Resolves(R[x], M) {
      SavedEntry(es, x);
      var k :| 0 <= k < |es| && es[k].address == x;
      Resolved(input, es, M, es[k]);
    }
  }

  lemma SavedEntry(es: seq<Entry>, x: int)
    requires Saved(es, x)
    ensures exists k :: 0 <= k < |es| && es[k].address == x
  {
  }

  lemma TableRead(input: LoadBuffer, es: seq<Entry>)
    requires input.LoadedAll(es)
    ensures |input.lookup| == |es| && Apart(input.lookup)
    ensures forall k :: 0 <= k < |es| ==> input.lookup[k].original == es[k].address
  {
  }

  /** After the fixup every entry's node is linked. */
  lemma FixupRebuilds(input: LoadBuffer, lookup: seq<AddressPair>, es: seq<Entry>, M: map<int, TrieNode>,
                      R: map<int, Record>)
    requires Closed(es, input.kind == AhoCorasick) && |lookup| == |es|
    requires forall k :: 0 <= k < |es| ==> lookup[k].original == es[k].address
    requires Indexes(M, lookup) && Indexes(M, input.lookup) && 0 !in M
    requires R == RecordAt(input.store, input.deserialize, es) && input.FixedUpTo(input.lookup, R, M, |input.lookup|)
    ensures Rebuilt(Currents(lookup), es, M, input.kind == AhoCorasick, input.store, input.deserialize)
  {
    hide Relinked, Unlinked, RecordAt, Restored, Known;
    RecordsIndexed(input.store, input.deserialize, es, input.kind == AhoCorasick);
    forall k | 0 <= k < |es|
      ensures es[k].address in M && M[es[k].address] == lookup[k].current
      ensures Relinked(lookup[k].current, Restored(input.store, input.deserialize, es[k]), M, input.kind == AhoCorasick)
    {
      var x := es[k].address;
      assert lookup[k].original == x;
      assert AddressPair(x, M[x]) in input.lookup;
      var j :| 0 <= j < |input.lookup| && input.lookup[j] == AddressPair(x, M[x]);
      assert input.lookup[j].original in R;
    }
  }

  lemma RestoredLinks(store: Store, deserialize: seq<Byte> -> Output, e: Entry)
    ensures Restored(store, deserialize, e).links == e.record.links
    ensures Restored(store, deserialize, e).fail == e.record.fail
  {
  }

  /** Reads the nodes and links them. */
  method ReadTrie(input: LoadBuffer, ghost es: seq<Entry>, ghost tail: seq<Byte>, ghost ws: seq<Word>)
      returns (ok: bool, root: Ptr, ghost made: seq<TrieNode>, ghost M: map<int, TrieNode>)
    requires input.S.Real() && input.lookup == [] && input.capacity == |es| > 0
    requires input.Rest() == EntriesBytes(input.S, es) + tail
    requires (forall k :: 0 <= k < |es| ==> WellFormed(input.store, es[k])) && Closed(es, input.kind == AhoCorasick)
    requires |ws| == |es| && input.taken == multiset{}
    modifies input`at, input`lookup, input`taken
    ensures ok ==> input.taken == TakenAll(input.store, input.deserialize, es)
    ensures ok <==> forall k :: 0 <= k < |es| ==> !Unreadable(input.store, es[k])
    ensures ok ==> Rebuilt(made, es, M, input.kind == AhoCorasick, input.store, input.deserialize) && Distinct(made)
    ensures ok ==> |made| == |ws| && root == To(made[0])
    ensures ok ==> forall k :: 0 <= k < |ws| ==> made[k].word == ws[k] && fresh(made[k])
  {
    hide LoadBuffer.Rest, LoadBuffer.LoadedAll, LoadBuffer.FixedUpTo, Rebuilt, Closed, Indexes, RecordAt, Unreadable;
    hide WellFormed;
    hide OneEach, LoadBuffer.Resolves, LoadBuffer.AllResolve, NodeAt, Apart, Distinct;
    root, made, M := Null, [], map[];
    ok := input.LoadNodes(es, tail);
    if !ok {
      return;
    }
    ghost var lookup := input.lookup;
    TableRead(input, es);
    AddressesKnown(lookup, es, input.kind == AhoCorasick);
    M := NodeAt(lookup);
    ClosedApart(es, input.kind == AhoCorasick);
    ghost var R := RecordAt(input.store, input.deserialize, es);
    TableSuits(input, es, M, R);
    root := input.FixupPointers(R, M);
    ok := root != Null;
    made := Currents(lookup);
    FixupRebuilds(input, lookup, es, M, R);
    CurrentsApart(lookup);
    NameNodes(made, ws);
  }

  lemma ClosedApart(es: seq<Entry>, fails: bool)
    requires Closed(es, fails)
    ensures forall i, j :: 0 <= i < j < |es| ==> es[i].address != es[j].address
  {
  }

  lemma CurrentsApart(lookup: seq<AddressPair>)
    requires Apart(lookup)
    ensures Distinct(Currents(lookup))
  {
  }

  /** The entries belong to a file with this header. */
  ghost predicate Suits(h: Field, es: seq<Entry>, ws: seq<Word>)
    requires h.Header?
  {
    && |ws| == |es| && Distinct(ws) && (h.kind == Empty <==> es == [])
    && (forall k :: 0 <= k < |es| ==> WellFormed(h.store, es[k])) && Closed(es, h.kind == AhoCorasick)
  }

  /** The loaded automaton has the nodes of the entries. */
  ghost predicate Loaded(b: Automaton, h: Field, es: seq<Entry>, ws: seq<Word>, made: seq<TrieNode>,
                         M: map<int, TrieNode>,
                         deserialize: seq<Byte> -> Output)
    requires h.Header? && Distinct(ws)
    reads b`root, b`nodes, made
  {
    && |made| == |ws| && Distinct(made) && (forall k :: 0 <= k < |ws| ==> made[k].word == ws[k])
    && b.nodes == NodesOf(made, ws) && b.root == (if made == [] then Null else To(made[0]))
    && (made != [] ==> Rebuilt(made, es, M, h.kind == AhoCorasick, h.store, deserialize))
  }

  /** load: fails exactly when some value was written as no bytes at all. */
  method Load(file: seq<Byte>, S: Sizes, deserialize: seq<Byte> -> Output, ghost h: Field, ghost es: seq<Entry>,
              ghost ws: seq<Word>)
      returns (r: Outcome<Automaton>, ghost made: seq<TrieNode>, ghost M: map<int, TrieNode>)
    requires S.Real() && h.Header? && file == FileBytes(S, h, es) && Suits(h, es, ws)
    ensures r.Ok? <==> forall k :: 0 <= k < |es| ==> !Unreadable(h.store, es[k])
    ensures r.Raised? ==> r.error == ValueError
    ensures r.Ok? ==> fresh(r.value) && (forall k :: 0 <= k < |made| ==> fresh(made[k]))
    ensures r.Ok? ==> r.value.version == 0 && r.value.stats.version == -1 && !r.value.unseen
    ensures r.Ok? ==> h == Header(r.value.kind, r.value.store, r.value.keyType, r.value.count, r.value.longestWord)
    ensures r.Ok? ==> Loaded(r.value, h, es, ws, made, M, deserialize)
    ensures r.Ok? ==> r.value.held == TakenAll(h.store, deserialize, es)
    ensures r.Ok? && r.value.count >= |r.value.Keys()| ==> r.value.count == |r.value.Keys()| + r.value.lost
  {
    hide LoadBuffer.Rest, Rebuilt, Closed, Unreadable, WellFormed, FileBytes, EntriesBytes, Bytes, Distinct, NodesOf;
    hide TakenAll, Automaton.Keys;
    var input := new LoadBuffer(file, S, deserialize);
    var header := input.Init(h, es);
    var root := Null;
    made, M := [], map[];
    if header.kind != Empty {
      var ok;
      ok, root, made, M := ReadTrie(input, es, Bytes(S, Footer(|es|)), ws);
      if !ok {
        return Raised(ValueError), made, M;
      }
    } else {
      NothingMade();
      input.NothingTakenYet();
    }
    var b := Setup(header, root, NodesOf(made, ws), input.taken);
    r := Ok(b);
  }

  lemma NothingMade()
    ensures Distinct<TrieNode>([])
  {
  }

  method Setup(header: Field, root: Ptr, ghost nodes: map<Word, TrieNode>, ghost held: multiset<Output>)
      returns (b: Automaton)
    requires header.Header?
    ensures fresh(b) && b.version == 0 && b.stats.version == -1 && !b.unseen
    ensures b.root == root && b.nodes == nodes && b.held == held
    ensures header == Header(b.kind, b.store, b.keyType, b.count, b.longestWord)
    ensures b.count >= |b.Keys()| ==> b.count == |b.Keys()| + b.lost
  {
    hide KeysIn;
    b := new Automaton(header.store, header.keyType);
    b.kind, b.count, b.longestWord := header.kind, header.count, header.longestWord;
    b.root, b.nodes, b.held := root, nodes, held;
    b.lost := if b.count >= |b.Keys()| then b.count - |b.Keys()| else 0;
  }
}
