/** The file format of save and load: a header, the nodes with their addresses, a footer. */
module Files {
  import opened Options
  import opened Words
  import opened Automata
  import opened Copies

  /** A value as it lies in memory. */
  datatype Field =
    | Address(bits: int)
    | Node(output: int, links: nat, eow: bool, fail: int)
    | Child(link: Link)
    | Header(kind: Kind, store: Store, keyType: KeyType, count: int, longestWord: int)
    | Footer(nodes: nat)

  /** A byte is the n-th byte of a value in memory, or a byte that the user's serialiser made. */
  datatype Byte = Part(field: Field, at: nat) | Data(value: bv8)

  /** The sizes of the structures that are written. None of them is empty. */
  datatype Sizes = Sizes(pointer: nat, node: nat, pair: nat, header: nat, footer: nat)
  {
    predicate Real() {
      pointer > 0 && node > 0 && pair > 0 && header > 0 && footer > 0
    }

    function Of(f: Field): nat {
      match f
      case Address(_) => pointer
      case Node(_, _, _, _) => node
      case Child(_) => pair
      case Header(_, _, _, _, _) => header
      case Footer(_) => footer
    }
  }

  function Bytes(S: Sizes, f: Field): (bytes: seq<Byte>)
    ensures |bytes| == S.Of(f)
  {
    seq(S.Of(f), i requires 0 <= i < S.Of(f) => Part(f, i))
  }

  /** Takes bytes for the value they are the bytes of. */
  function Reinterpret(S: Sizes, bytes: seq<Byte>): Option<Field> {
    if bytes != [] && bytes[0].Part? && bytes == Bytes(S, bytes[0].field) then Some(bytes[0].field) else None
  }

  lemma BytesReinterpreted(S: Sizes, f: Field)
    requires S.Real()
    ensures Reinterpret(S, Bytes(S, f)) == Some(f)
  {
    assert Bytes(S, f)[0] == Part(f, 0);
  }

  function LinkBytes(S: Sizes, links: seq<Link>): seq<Byte> {
    if links == [] then [] else Bytes(S, Child(links[0])) + LinkBytes(S, links[1..])
  }

  lemma {:induction false} LinkBytesLength(S: Sizes, links: seq<Link>)
    ensures |LinkBytes(S, links)| == |links| * S.pair
  {
    if links != [] {
      LinkBytesLength(S, links[1..]);
      assert |links| * S.pair == S.pair + (|links| - 1) * S.pair;
    }
  }

  /** Takes bytes for an array of child links. */
  function ReinterpretLinks(S: Sizes, bytes: seq<Byte>, n: nat): Option<seq<Link>> {
    if n == 0 then Some([])
    else if |bytes| < S.pair then None
    else
      var first, rest := Reinterpret(S, bytes[..S.pair]), ReinterpretLinks(S, bytes[S.pair..], n - 1);
      if first.Some? && first.value.Child? && rest.Some? then Some([first.value.link] + rest.value) else None
  }

  lemma {:induction false} LinksReinterpreted(S: Sizes, links: seq<Link>)
    requires S.Real()
    ensures ReinterpretLinks(S, LinkBytes(S, links), |links|) == Some(links)
  {
    if links != [] {
      LinksReinterpreted(S, links[1..]);
      BytesReinterpreted(S, Child(links[0]));
      var bytes := LinkBytes(S, links);
      assert bytes[..S.pair] == Bytes(S, Child(links[0]));
      assert bytes[S.pair..] == LinkBytes(S, links[1..]);
      assert [links[0]] + links[1..] == links;
    }
  }

  /** What is written for one node: its address, its record, the bytes of its value. */
  datatype Entry = Entry(address: int, record: Record, data: seq<Byte>)

  function NodeField(r: Record): Field {
    Node(r.output, |r.links|, r.eow, r.fail)
  }

  function EntryBytes(S: Sizes, e: Entry): seq<Byte> {
    Bytes(S, Address(e.address)) + (Bytes(S, NodeField(e.record)) + (LinkBytes(S, e.record.links) + e.data))
  }

  /** Where the parts of an entry lie: the address, the node, its links one behind the other, the bytes of its value. */
  lemma EntryLaidOut(S: Sizes, e: Entry)
    ensures var bytes, links := EntryBytes(S, e), S.pointer + S.node;
            && |bytes| == links + |e.record.links| * S.pair + |e.data|
            && bytes[..S.pointer] == Bytes(S, Address(e.address))
            && bytes[S.pointer..links] == Bytes(S, Node(e.record.output, |e.record.links|, e.record.eow, e.record.fail))
            && bytes[links + |e.record.links| * S.pair..] == e.data
    ensures LinksAt(S, EntryBytes(S, e), S.pointer + S.node, e.record.links)
  {
    var bytes, from, n := EntryBytes(S, e), S.pointer + S.node, |e.record.links|;
    var address, node := Bytes(S, Address(e.address)), Bytes(S, NodeField(e.record));
    var links := LinkBytes(S, e.record.links);
    LinkBytesLength(S, e.record.links);
    assert bytes == address + node + links + e.data;
    assert bytes[..S.pointer] == address && bytes[S.pointer..from] == node;
    assert bytes[from + n * S.pair..] == e.data;
    forall j | 0 <= j < n ensures LinkAt(S, bytes, from, e.record.links, j) {
      LinkLaidOut(S, address + node, e.record.links, e.data, j);
    }
  }

  /** The j-th link lies behind `j` others. */
  ghost predicate LinkAt(S: Sizes, bytes: seq<Byte>, from: nat, links: seq<Link>, j: nat)
    requires j < |links|
  {
    from + j * S.pair + S.pair <= |bytes| && bytes[from + j * S.pair..][..S.pair] == Bytes(S, Child(links[j]))
  }

  ghost predicate LinksAt(S: Sizes, bytes: seq<Byte>, from: nat, links: seq<Link>) {
    forall j :: 0 <= j < |links| ==> LinkAt(S, bytes, from, links, j)
  }

  lemma {:induction false} LinkLaidOut(S: Sizes, before: seq<Byte>, links: seq<Link>, after: seq<Byte>, j: nat)
    requires j < |links|
    ensures LinkAt(S, before + LinkBytes(S, links) + after, |before|, links, j)
    decreases j
  {
    var first, rest := Bytes(S, Child(links[0])), LinkBytes(S, links[1..]);
    var bytes := before + LinkBytes(S, links) + after;
    assert bytes == before + (first + rest) + after;
    if j == 0 {
      assert bytes[|before|..][..S.pair] == first;
    } else {
      LinkLaidOut(S, before + first, links[1..], after, j - 1);
      assert bytes == before + first + rest + after;
      assert j * S.pair == S.pair + (j - 1) * S.pair;
    }
  }

  function EntriesBytes(S: Sizes, es: seq<Entry>): seq<Byte> {
    if es == [] then [] else EntryBytes(S, es[0]) + EntriesBytes(S, es[1..])
  }

  lemma {:induction false} EntriesBytesSnoc(S: Sizes, es: seq<Entry>, e: Entry)
    ensures EntriesBytes(S, es + [e]) == EntriesBytes(S, es) + EntryBytes(S, e)
  {
    if es != [] {
      assert (es + [e])[1..] == es[1..] + [e];
      EntriesBytesSnoc(S, es[1..], e);
    } else {
      assert es + [e] == [e];
    }
  }

  function FileBytes(S: Sizes, header: Field, es: seq<Entry>): seq<Byte> {
    Bytes(S, header) + (EntriesBytes(S, es) + Bytes(S, Footer(|es|)))
  }
}
