/** Loading what save wrote. */
module SaveLoad {
  import opened Options
  import opened Words
  import opened TrieNodes
  import opened Automata
  import opened Traversal
  import opened Copies
  import opened Dictionary
  import opened Replicas
  import opened Upkeep
  import opened Files
  import Saves
  import opened Loads

  type Addressing = TrieNode -> int

  /** No two nodes have the same address, and none the null address. */
  ghost predicate Addressed(nodes: map<Word, TrieNode>, address: Addressing) {
    && (forall w, u :: w in nodes && u in nodes && address(nodes[w]) == address(nodes[u]) ==> w == u)
    && forall w :: w in nodes ==> address(nodes[w]) != 0
  }

  ghost function Ids(nodes: map<Word, TrieNode>, address: Addressing): map<Word, int> {
    map w | w in nodes :: address(nodes[w])
  }

  /** The entry stands for the node of the picture. */
  lemma SavedStands(e: Entry, address: Addressing, serialize: Output -> seq<Byte>, deserialize: seq<Byte> -> Output,
                    store: Store, nodes: map<Word, TrieNode>, P: Picture, w: Word, fails: bool)
    requires w in nodes && Saves.Saved(e, address, serialize, store, nodes[w])
    requires Similar(nodes, P) && (fails ==> FailsShow(nodes, P)) && TreeTable(LettersOf(P))
    requires store == Any && nodes[w].eow ==> deserialize(serialize(nodes[w].output)) == nodes[w].output
    ensures Stands(Restored(store, deserialize, e), P[w], w, Ids(nodes, address), fails)
    ensures e.record.eow ==> Restored(store, deserialize, e).output == P[w].value.value
    ensures e.record.eow == P[w].value.Some? && WellFormed(store, e)
    ensures Unreadable(store, e) <==> store == Any && nodes[w].eow && serialize(nodes[w].output) == []
  {
    assert Shows(nodes, nodes[w], w, P[w]);
    var r := Restored(store, deserialize, e);
    forall j | 0 <= j < |r.links|
      ensures w + [P[w].letters[j]] in nodes
      ensures r.links[j] == Link(P[w].letters[j], address(nodes[w + [P[w].letters[j]]])) {
      ChildInPicture(P, w, j);
    }
  }

  /** What save wrote for the nodes `ws`. */
  ghost predicate Written(es: seq<Entry>, address: Addressing, nodes: map<Word, TrieNode>, ws: seq<Word>) {
    && |es| == |ws| && (forall w :: w in ws <==> w in nodes) && Distinct(ws)
    && forall k :: 0 <= k < |ws| ==> ws[k] in nodes && es[k].address == address(nodes[ws[k]])
  }

  lemma AddressSaved(es: seq<Entry>, address: Addressing, nodes: map<Word, TrieNode>, ws: seq<Word>, w: Word)
    requires Written(es, address, nodes, ws) && w in nodes
    ensures Saved(es, address(nodes[w]))
  {
    var k :| 0 <= k < |ws| && ws[k] == w;
    assert es[k].address == address(nodes[w]);
  }

  lemma EntryKnown(es: seq<Entry>, address: Addressing, nodes: map<Word, TrieNode>, ws: seq<Word>, r: Record,
                   c: Content,
                   w: Word, fails: bool)
    requires Written(es, address, nodes, ws) && Stands(r, c, w, Ids(nodes, address), fails)
    ensures Known(es, r, fails)
  {
    hide Saved, Written;
    forall j | 0 <= j < |r.links| ensures Saved(es, r.links[j].id) {
      AddressSaved(es, address, nodes, ws, w + [c.letters[j]]);
    }
    if fails && r.fail != 0 {
      AddressSaved(es, address, nodes, ws, c.fail.value);
    }
  }

  lemma AddressesApart(es: seq<Entry>, address: Addressing, nodes: map<Word, TrieNode>, ws: seq<Word>)
    requires Written(es, address, nodes, ws) && Addressed(nodes, address)
    ensures forall i, j :: 0 <= i < j < |es| ==> es[i].address != es[j].address
    ensures forall k :: 0 <= k < |es| ==> es[k].address != 0
  {
  }

  /** The original automaton, what save wrote of it, and the serialiser pair. */
  ghost predicate Given(nodes: map<Word, TrieNode>, P: Picture, fails: bool, store: Store, es: seq<Entry>,
                        ws: seq<Word>,
                        address: Addressing, serialize: Output -> seq<Byte>, deserialize: seq<Byte> -> Output)
    reads nodes.Values
  {
    && Similar(nodes, P) && (fails ==> FailsShow(nodes, P)) && TreeTable(LettersOf(P))
    && Addressed(nodes, address) && Distinct(ws) && (forall w :: w in ws <==> w in nodes)
    && Saves.SavedAll(es, address, serialize, store, nodes, ws)
    && forall w :: w in nodes && store == Any && nodes[w].eow ==>
         deserialize(serialize(nodes[w].output)) == nodes[w].output
  }

  lemma GivenEntry(nodes: map<Word, TrieNode>, P: Picture, fails: bool, store: Store, es: seq<Entry>, ws: seq<Word>,
                   address: Addressing, serialize: Output -> seq<Byte>, deserialize: seq<Byte> -> Output, k: nat)
    requires Given(nodes, P, fails, store, es, ws, address, serialize, deserialize) && k < |es|
    ensures |es| == |ws| && ws[k] in nodes && ws[k] in P && es[k].address == address(nodes[ws[k]])
    ensures Stands(Restored(store, deserialize, es[k]), P[ws[k]], ws[k], Ids(nodes, address), fails)
    ensures es[k].record.eow ==> Restored(store, deserialize, es[k]).output == P[ws[k]].value.value
    ensures es[k].record.eow == P[ws[k]].value.Some? && WellFormed(store, es[k])
    ensures Unreadable(store, es[k]) <==> store == Any && nodes[ws[k]].eow && serialize(nodes[ws[k]].output) == []
  {
    hide Similar, FailsShow, TreeTable, Stands, LettersOf;
    SimilarKeys(nodes, P);
    SavedStands(es[k], address, serialize, deserialize, store, nodes, P, ws[k], fails);
  }

  lemma GivenWritten(nodes: map<Word, TrieNode>, P: Picture, fails: bool, store: Store, es: seq<Entry>, ws: seq<Word>,
                     address: Addressing, serialize: Output -> seq<Byte>, deserialize: seq<Byte> -> Output)
    requires Given(nodes, P, fails, store, es, ws, address, serialize, deserialize)
    ensures Written(es, address, nodes, ws) && Addressed(nodes, address) && nodes.Keys == P.Keys
  {
  }

  /** What save writes is what load expects. */
  lemma SavedSuits(nodes: map<Word, TrieNode>, P: Picture, fails: bool, store: Store, es: seq<Entry>, ws: seq<Word>,
                   address: Addressing, serialize: Output -> seq<Byte>, deserialize: seq<Byte> -> Output)
    requires Given(nodes, P, fails, store, es, ws, address, serialize, deserialize)
    ensures Closed(es, fails) && forall k :: 0 <= k < |es| ==> WellFormed(store, es[k])
  {
    hide Given, Written, Addressed, Known, Stands, Saved, WellFormed, Restored, Unreadable;
    GivenWritten(nodes, P, fails, store, es, ws, address, serialize, deserialize);
    AddressesApart(es, address, nodes, ws);
    forall k | 0 <= k < |es| ensures Known(es, es[k].record, fails) && WellFormed(store, es[k]) {
      GivenEntry(nodes, P, fails, store, es, ws, address, serialize, deserialize, k);
      EntryKnown(es, address, nodes, ws, Restored(store, deserialize, es[k]), P[ws[k]], ws[k], fails);
      SameKnown(es, store, deserialize, es[k], fails);
    }
  }

  lemma SameKnown(es: seq<Entry>, store: Store, deserialize: seq<Byte> -> Output, e: Entry, fails: bool)
    ensures Known(es, Restored(store, deserialize, e), fails) ==> Known(es, e.record, fails)
  {
    RestoredLinks(store, deserialize, e);
  }

  lemma NodesIndexedByAddress(made: seq<TrieNode>, es: seq<Entry>, ws: seq<Word>, nodes: map<Word, TrieNode>,
                              address: Addressing,
                              M: map<int, TrieNode>)
    requires Written(es, address, nodes, ws) && |made| == |ws| && 0 !in M
    requires forall k :: 0 <= k < |es| ==> es[k].address in M && M[es[k].address] == made[k]
    ensures NodesOf(made, ws).Keys == nodes.Keys && Finds(M, Ids(nodes, address), NodesOf(made, ws))
    ensures forall k :: 0 <= k < |ws| ==> ws[k] in NodesOf(made, ws) && NodesOf(made, ws)[ws[k]] == made[k]
  {
    forall w | w in nodes
      ensures address(nodes[w]) in M && M[address(nodes[w])] == NodesOf(made, ws)[w] {
      var k :| 0 <= k < |ws| && ws[k] == w;
      assert es[k].address == address(nodes[w]);
    }
  }

  lemma RebuiltParts(made: seq<TrieNode>, es: seq<Entry>, M: map<int, TrieNode>, fails: bool, store: Store,
                     deserialize: seq<Byte> -> Output)
    requires Rebuilt(made, es, M, fails, store, deserialize)
    ensures |made| == |es| && 0 !in M
    ensures forall k :: 0 <= k < |es| ==> es[k].address in M && M[es[k].address] == made[k]
    ensures forall k :: 0 <= k < |es| ==> Relinked(made[k], Restored(store, deserialize, es[k]), M, fails)
  {
    forall k | 0 <= k < |es| ensures es[k].address in M {
      assert made[k] in made;
    }
  }

  lemma FailKept(n: TrieNode, store: Store, deserialize: seq<Byte> -> Output, e: Entry, M: map<int, TrieNode>)
    requires Relinked(n, Restored(store, deserialize, e), M, false)
    ensures n.fail == Cast(e.record.fail)
  {
    RestoredLinks(store, deserialize, e);
  }

  lemma GivenFails(nodes: map<Word, TrieNode>, P: Picture, fails: bool, store: Store, es: seq<Entry>, ws: seq<Word>,
                   address: Addressing, serialize: Output -> seq<Byte>, deserialize: seq<Byte> -> Output, k: nat)
    requires Given(nodes, P, fails, store, es, ws, address, serialize, deserialize) && k < |es|
    ensures |es| == |ws| && ws[k] in nodes && es[k].record.fail == Saves.Bits(address, nodes[ws[k]].fail)
    ensures fails && ws[k] in P && P[ws[k]].fail.Some? ==> P[ws[k]].fail.value in nodes
  {
  }

  /** The loaded nodes are a copy. In a plain trie their fail links keep the old addresses. */
  lemma LoadedIsCopy(made: seq<TrieNode>, M: map<int, TrieNode>, nodes: map<Word, TrieNode>, P: Picture, fails: bool,
                     store: Store,
                     es: seq<Entry>, ws: seq<Word>, address: Addressing, serialize: Output -> seq<Byte>,
                     deserialize: seq<Byte> -> Output)
    requires Given(nodes, P, fails, store, es, ws, address, serialize, deserialize) && Distinct(ws) && |made| == |ws|
    requires Rebuilt(made, es, M, fails, store, deserialize) && forall k :: 0 <= k < |ws| ==> made[k].word == ws[k]
    ensures Depicts(NodesOf(made, ws), P, fails)
    ensures !fails ==> forall w :: w in NodesOf(made, ws) ==>
              w in nodes && NodesOf(made, ws)[w].fail == Cast(Saves.Bits(address, nodes[w].fail))
  {
    hide Given, Rebuilt, Relinked, Stands, Restored, Shows, Written, NodesOf, Ids, Finds, Addressed, WellFormed;
    hide Unreadable;
    var copy := NodesOf(made, ws);
    RebuiltParts(made, es, M, fails, store, deserialize);
    GivenWritten(nodes, P, fails, store, es, ws, address, serialize, deserialize);
    WrittenWords(es, address, nodes, ws);
    NodesIndexedByAddress(made, es, ws, nodes, address, M);
    forall w | w in P
      ensures copy[w].word == w && Shows(copy, copy[w], w, P[w])
      ensures fails ==> copy[w].fail == LinkTo(copy, P[w].fail) && (P[w].fail.Some? ==> P[w].fail.value in P)
      ensures !fails ==> copy[w].fail == Cast(Saves.Bits(address, nodes[w].fail))
    {
      var k :| 0 <= k < |ws| && ws[k] == w;
      GivenEntry(nodes, P, fails, store, es, ws, address, serialize, deserialize, k);
      GivenFails(nodes, P, fails, store, es, ws, address, serialize, deserialize, k);
      RestoredKey(store, deserialize, es[k]);
      IdsOfNodes(nodes, address);
      RelinkedShows(copy, w, Restored(store, deserialize, es[k]), P[w], M, Ids(nodes, address), fails);
      if !fails {
        FailKept(made[k], store, deserialize, es[k], M);
      }
    }
  }

  lemma WrittenWords(es: seq<Entry>, address: Addressing, nodes: map<Word, TrieNode>, ws: seq<Word>)
    requires Written(es, address, nodes, ws)
    ensures |es| == |ws| && forall w :: w in ws <==> w in nodes
  {
  }

  lemma IdsOfNodes(nodes: map<Word, TrieNode>, address: Addressing)
    ensures Ids(nodes, address).Keys == nodes.Keys
  {
  }

  lemma RestoredKey(store: Store, deserialize: seq<Byte> -> Output, e: Entry)
    ensures Restored(store, deserialize, e).eow == e.record.eow
  {
  }

  // ---------------------------------------------------------------- the round trip

  /** The serialisers are inverse on the stored values. */
  ghost predicate Inverse(keys: map<Word, Output>, serialize: Output -> seq<Byte>, deserialize: seq<Byte> -> Output) {
    forall k :: k in keys ==> deserialize(serialize(keys[k])) == keys[k]
  }

  /** Every stored value has bytes. */
  ghost predicate AllHaveBytes(keys: map<Word, Output>, serialize: Output -> seq<Byte>) {
    forall k :: k in keys ==> serialize(keys[k]) != []
  }

  lemma ValidIsGiven(a: Automaton, es: seq<Entry>, ws: seq<Word>, address: Addressing, serialize: Output -> seq<Byte>,
                     deserialize: seq<Byte> -> Output)
    requires Valid(a) && a.kind != Empty && Addressed(a.nodes, address) && Distinct(ws)
    requires (forall w :: w in ws <==> w in a.nodes)
    requires Saves.SavedAll(es, address, serialize, a.store, a.nodes, ws)
    requires a.store == Any ==> Inverse(a.Keys(), serialize, deserialize)
    ensures Given(a.nodes, PictureOf(a.nodes), a.kind == AhoCorasick, a.store, es, ws, address, serialize, deserialize)
  {
    hide Addressed, Saves.SavedAll, FailsShow, Linked, Similar, Tree, TrieOf;
    PictureOfValid(a);
    if a.kind == AhoCorasick {
      PictureShowsFails(a.nodes);
    }
    forall w | w in a.nodes && a.store == Any && a.nodes[w].eow
      ensures deserialize(serialize(a.nodes[w].output)) == a.nodes[w].output {
      assert w in a.Keys();
    }
  }

  lemma ReadableExactly(a: Automaton, P: Picture, es: seq<Entry>, ws: seq<Word>, address: Addressing,
                        serialize: Output -> seq<Byte>, deserialize: seq<Byte> -> Output)
    requires Given(a.nodes, P, a.kind == AhoCorasick, a.store, es, ws, address, serialize, deserialize)
    ensures (forall k :: 0 <= k < |es| ==> !Unreadable(a.store, es[k])) <==>
              (a.store == Any ==> AllHaveBytes(a.Keys(), serialize))
  {
    hide Given, Stands, Unreadable, WellFormed, Restored;
    GivenWritten(a.nodes, P, a.kind == AhoCorasick, a.store, es, ws, address, serialize, deserialize);
    forall k | 0 <= k < |es|
      ensures Unreadable(a.store, es[k]) <==> a.store == Any && ws[k] in a.Keys() && serialize(a.Keys()[ws[k]]) == [] {
      GivenEntry(a.nodes, P, a.kind == AhoCorasick, a.store, es, ws, address, serialize, deserialize, k);
    }
    if a.store == Any && !AllHaveBytes(a.Keys(), serialize) {
      var w :| w in a.Keys() && serialize(a.Keys()[w]) == [];
      assert w in ws;
      var k :| 0 <= k < |ws| && ws[k] == w;
      assert Unreadable(a.store, es[k]);
    }
  }

  lemma ValidParts(a: Automaton)
    requires Valid(a)
    ensures a.Shape() && a.longestWord >= 0 && Bounded(a.nodes.Keys, a.longestWord)
  {
  }

  lemma SuitsHeader(a: Automaton, es: seq<Entry>, ws: seq<Word>, address: Addressing, serialize: Output -> seq<Byte>,
                    deserialize: seq<Byte> -> Output)
    requires Valid(a) && Addressed(a.nodes, address) && Saves.ListsAll(ws, a.nodes)
    requires Saves.SavedAll(es, address, serialize, a.store, a.nodes, ws)
    requires a.store == Any ==> Inverse(a.Keys(), serialize, deserialize)
    ensures Distinct(ws) && Suits(Saves.HeaderOf(a), es, ws)
    ensures (forall k :: 0 <= k < |es| ==> !Unreadable(a.store, es[k])) <==>
              (a.store == Any ==> AllHaveBytes(a.Keys(), serialize))
    ensures a.kind != Empty ==>
              Given(a.nodes, PictureOf(a.nodes), a.kind == AhoCorasick, a.store, es, ws,
                    address, serialize, deserialize)
  {
    hide Addressed, Given, Closed, WellFormed, Unreadable, Inverse, PictureOf;
    hide Tree, TrieOf, Linked, Books.Fit, Saves.Saved;
    ListedWords(ws, a.nodes);
    RootOrEmpty(a);
    if a.kind == Empty {
      assert es == [];
      NothingSuits();
      return;
    }
    ValidIsGiven(a, es, ws, address, serialize, deserialize);
    ReadableExactly(a, PictureOf(a.nodes), es, ws, address, serialize, deserialize);
    SavedSuits(a.nodes, PictureOf(a.nodes), a.kind == AhoCorasick, a.store, es, ws, address, serialize, deserialize);
  }

  lemma LoadedParts(a: Automaton, b: Automaton, made: seq<TrieNode>, M: map<int, TrieNode>, es: seq<Entry>,
                    ws: seq<Word>,
                    deserialize: seq<Byte> -> Output)
    requires Distinct(ws) && Loaded(b, Saves.HeaderOf(a), es, ws, made, M, deserialize)
    ensures |made| == |ws| && b.nodes == NodesOf(made, ws) && b.root == (if made == [] then Null else To(made[0]))
    ensures (forall k :: 0 <= k < |ws| ==> made[k].word == ws[k]) && forall n :: n in b.nodes.Values ==> n in made
    ensures made != [] ==> Rebuilt(made, es, M, a.kind == AhoCorasick, a.store, deserialize)
  {
    FreshNodes(made, ws);
  }

  /** Nothing was saved of an empty automaton, and nothing is loaded. */
  lemma EmptyReplica(a: Automaton, b: Automaton)
    requires Valid(a) && a.kind == Empty == b.kind && b.nodes == map[] && b.root == Null && b.stats.version < b.version
    requires b.store == a.store && b.count == a.count && b.longestWord == a.longestWord && b.lost == a.lost
    requires b.held == a.held && !b.unseen
    ensures Valid(b) && b.Keys() == a.Keys()
  {
    FitsFresh(BooksOf(a), BooksOf(b), a.nodes.Keys, a.Keys());
  }

  /** The copy of a valid automaton is valid. */
  lemma CopyIsReplica(a: Automaton, b: Automaton, P: Picture, address: Addressing)
    requires Valid(a) && a.kind != Empty && P == PictureOf(a.nodes)
    requires Depicts(b.nodes, P, a.kind == AhoCorasick) && b.root == Target(b.nodes, []) && b.stats.version < b.version
    requires a.kind != AhoCorasick ==> forall w :: w in b.nodes ==>
               w in a.nodes && b.nodes[w].fail == Cast(Saves.Bits(address, a.nodes[w].fail))
    requires b.kind == a.kind && b.store == a.store && b.count == a.count && b.longestWord == a.longestWord
    requires b.lost == a.lost && b.held == a.held && !b.unseen
    ensures Valid(b) && b.Keys() == a.Keys() && (a.kind == AhoCorasick ==> PictureOf(b.nodes) == P)
  {
    hide Similar, FailsShow, PictureFits, PictureOf, Linked, Automaton.Shape, Books.Fit, Automaton.Keys;
    PictureOfValid(a);
    FittingPicture(a, P);
    if a.kind == AhoCorasick {
      FaithfulReplica(a, b, P);
    }
    ReplicaIsValid(a, b, P);
  }

  lemma RootMade(made: seq<TrieNode>, ws: seq<Word>)
    requires Distinct(ws) && |made| == |ws| > 0 && ws[0] == []
    ensures To(made[0]) == Target(NodesOf(made, ws), [])
  {
  }

  lemma ListedWords(ws: seq<Word>, nodes: map<Word, TrieNode>)
    requires Saves.ListsAll(ws, nodes)
    ensures Distinct(ws) && (forall w :: w in ws <==> w in nodes) && (nodes != map[] ==> ws != [] && ws[0] == [])
    ensures nodes == map[] ==> ws == []
  {
    if ws != [] {
      assert ws[0] in ws;
    }
  }

  lemma NoReferences(a: Automaton, b: Automaton)
    requires Valid(a) && a.kind == Empty && b.nodes == map[] && b.count == a.count && b.held == multiset{}
    requires b.count >= |b.Keys()| ==> b.count == |b.Keys()| + b.lost
    ensures b.lost == a.lost && b.held == a.held
  {
    if a.store == Any {
      HoldsNothing(a.held);
    }
  }

  /** Each entry gives a reference for the value of its word. */
  ghost predicate Valued(es: seq<Entry>, P: Picture, ws: seq<Word>, deserialize: seq<Byte> -> Output) {
    && |es| == |ws| && (forall w :: w in ws ==> w in P)
    && forall k :: 0 <= k < |es| ==>
         Taken(Any, deserialize, es[k]) == if P[ws[k]].value.Some? then multiset{P[ws[k]].value.value} else multiset{}
  }

  lemma GivenValued(nodes: map<Word, TrieNode>, P: Picture, fails: bool, es: seq<Entry>, ws: seq<Word>,
                    address: Addressing,
                    serialize: Output -> seq<Byte>, deserialize: seq<Byte> -> Output)
    requires Given(nodes, P, fails, Any, es, ws, address, serialize, deserialize)
    ensures Valued(es, P, ws, deserialize)
  {
    hide Given, Stands, Unreadable, WellFormed, Addressed;
    GivenWritten(nodes, P, fails, Any, es, ws, address, serialize, deserialize);
    forall k | 0 <= k < |es|
      ensures Taken(Any, deserialize, es[k]) ==
                if P[ws[k]].value.Some? then multiset{P[ws[k]].value.value} else multiset{} {
      GivenEntry(nodes, P, fails, Any, es, ws, address, serialize, deserialize, k);
    }
  }

  /** The references taken along the entries are the values along the words. */
  lemma {:induction false} TakenAlong(es: seq<Entry>, P: Picture, ws: seq<Word>, deserialize: seq<Byte> -> Output,
                                      k: nat)
    requires Valued(es, P, ws, deserialize) && k <= |es|
    ensures TakenAll(Any, deserialize, es[..k]) == multiset(ValuesAlong(P, ws[..k]))
  {
    hide Taken, TakenAll, ValuesAlong;
    NothingAlong(P, deserialize);
    if k > 0 {
      var i := k - 1;
      TakenAlong(es, P, ws, deserialize, i);
      assert es[..k] == es[..i] + [es[i]] && ws[..k] == ws[..i] + [ws[i]];
      OneMoreAlong(es[..i], es[i], P, ws[..i], ws[i], deserialize);
    }
  }

  lemma NothingAlong(P: Picture, deserialize: seq<Byte> -> Output)
    ensures TakenAll(Any, deserialize, []) == multiset{} && ValuesAlong(P, []) == []
  {
  }

  lemma OneMoreAlong(es: seq<Entry>, e: Entry, P: Picture, ws: seq<Word>, w: Word, deserialize: seq<Byte> -> Output)
    requires w in P && forall u :: u in ws ==> u in P
    ensures TakenAll(Any, deserialize, es + [e]) == TakenAll(Any, deserialize, es) + Taken(Any, deserialize, e)
    ensures multiset(ValuesAlong(P, ws + [w])) ==
              multiset(ValuesAlong(P, ws)) + if P[w].value.Some? then multiset{P[w].value.value} else multiset{}
  {
    hide Taken, TakenAll;
    TakenNext(Any, deserialize, es, e);
    assert (ws + [w])[..|ws|] == ws;
  }

  /** The loaded automaton holds the references that the original holds. */
  lemma SameReferences(a: Automaton, b: Automaton, P: Picture, es: seq<Entry>, ws: seq<Word>, address: Addressing,
                       serialize: Output -> seq<Byte>, deserialize: seq<Byte> -> Output)
    requires Valid(a) && a.kind != Empty && P == PictureOf(a.nodes) && Distinct(ws)
    requires Given(a.nodes, P, a.kind == AhoCorasick, a.store, es, ws, address, serialize, deserialize)
    requires Depicts(b.nodes, P, a.kind == AhoCorasick)
    requires b.count == a.count && b.held == TakenAll(a.store, deserialize, es)
    requires b.count >= |b.Keys()| ==> b.count == |b.Keys()| + b.lost
    ensures b.lost == a.lost && b.held == a.held
  {
    hide Valid, Given, Depicts, PictureOf, KeysIn, HoldsValues, PictureFits, KeysOf, Valued;
    PictureOfValid(a);
    FittingPicture(a, P);
    DepictedKeys(b.nodes, P, a.kind == AhoCorasick);
    CountByKeys(a);
    HeldAre(a);
    if a.store == Any {
      GivenValued(a.nodes, P, a.kind == AhoCorasick, es, ws, address, serialize, deserialize);
      GivenWritten(a.nodes, P, a.kind == AhoCorasick, a.store, es, ws, address, serialize, deserialize);
      AllTaken(a, b, P, es, ws, deserialize);
    } else {
      NothingTaken(a.store, deserialize, es);
    }
  }

  lemma DepictedKeys(nodes: map<Word, TrieNode>, P: Picture, fails: bool)
    requires Depicts(nodes, P, fails)
    ensures KeysIn(nodes) == KeysOf(P)
  {
    KeysByPicture(nodes, P);
  }

  lemma AllTaken(a: Automaton, b: Automaton, P: Picture, es: seq<Entry>, ws: seq<Word>,
                 deserialize: seq<Byte> -> Output)
    requires Valued(es, P, ws, deserialize) && Distinct(ws) && forall w :: w in P ==> w in ws
    requires HoldsValues(a.held, a.Keys()) && KeysOf(P) == a.Keys() && b.held == TakenAll(Any, deserialize, es)
    ensures b.held == a.held
  {
    hide HoldsValues, KeysOf, Automaton.Keys, ValuesAlong, TakenAll;
    TakenAlong(es, P, ws, deserialize, |es|);
    assert es[..|es|] == es && ws[..|ws|] == ws;
    ValuesAreHeld(P, ws);
    AllKeysAmong(P, ws);
    SameHolding(a.held, b.held, a.Keys());
  }

  lemma CountByKeys(a: Automaton)
    requires Valid(a)
    ensures a.count == |a.Keys()| + a.lost
  {
  }

  lemma AllKeysAmong(P: Picture, ws: seq<Word>)
    requires forall w :: w in P ==> w in ws
    ensures KeysAmong(P, ws) == KeysOf(P)
  {
  }

  lemma {:induction false} NothingTaken(store: Store, deserialize: seq<Byte> -> Output, es: seq<Entry>)
    requires store != Any
    ensures TakenAll(store, deserialize, es) == multiset{}
  {
    if es != [] {
      NothingTaken(store, deserialize, es[..|es| - 1]);
    }
  }

  lemma SavedCount(es: seq<Entry>, address: Addressing, serialize: Output -> seq<Byte>, store: Store,
                   nodes: map<Word, TrieNode>, ws: seq<Word>)
    requires Saves.SavedAll(es, address, serialize, store, nodes, ws)
    ensures |es| == |ws|
  {
  }

  lemma LoadedIsReplica(a: Automaton, b: Automaton, made: seq<TrieNode>, M: map<int, TrieNode>, es: seq<Entry>,
                        ws: seq<Word>,
                        address: Addressing, serialize: Output -> seq<Byte>, deserialize: seq<Byte> -> Output)
    requires Valid(a) && Saves.ListsAll(ws, a.nodes) && Distinct(ws) && b.stats.version < b.version
    requires Saves.SavedAll(es, address, serialize, a.store, a.nodes, ws)
    requires Loaded(b, Saves.HeaderOf(a), es, ws, made, M, deserialize)
    requires a.kind != Empty ==>
               Given(a.nodes, PictureOf(a.nodes), a.kind == AhoCorasick, a.store, es, ws,
                    address, serialize, deserialize)
    requires b.kind == a.kind && b.store == a.store && b.count == a.count && b.longestWord == a.longestWord && !b.unseen
    requires b.held == TakenAll(a.store, deserialize, es)
    requires b.count >= |b.Keys()| ==> b.count == |b.Keys()| + b.lost
    ensures Valid(b) && b.Keys() == a.Keys() && forall n :: n in b.nodes.Values ==> n in made
    ensures a.kind != Empty ==> Depicts(b.nodes, PictureOf(a.nodes), a.kind == AhoCorasick)
    ensures a.kind == AhoCorasick ==> PictureOf(b.nodes) == PictureOf(a.nodes)
    ensures a.kind == Trie ==> forall w :: w in a.nodes ==>
              w in b.nodes && b.nodes[w].fail == Cast(Saves.Bits(address, a.nodes[w].fail))
  {
    hide Valid, Given, Saves.ListsAll, Loaded, Rebuilt, Depicts, PictureOf, Automaton.Keys, NodesOf, PictureFits;
    hide Similar;
    LoadedParts(a, b, made, M, es, ws, deserialize);
    ListedWords(ws, a.nodes);
    RootOrEmpty(a);
    if a.kind == Empty {
      SavedCount(es, address, serialize, a.store, a.nodes, ws);
      NoReferences(a, b);
      EmptyReplica(a, b);
    } else {
      LoadedIsCopy(made, M, a.nodes, PictureOf(a.nodes), a.kind == AhoCorasick, a.store, es, ws,
                   address, serialize, deserialize);
      GivenWritten(a.nodes, PictureOf(a.nodes), a.kind == AhoCorasick, a.store, es, ws,
                   address, serialize, deserialize);
      DepictedWords(b.nodes, PictureOf(a.nodes), a.kind == AhoCorasick);
      RootMade(made, ws);
      SameReferences(a, b, PictureOf(a.nodes), es, ws, address, serialize, deserialize);
      CopyIsReplica(a, b, PictureOf(a.nodes), address);
    }
  }

  lemma NothingSuits()
    ensures Closed([], false)
  {
  }

  lemma DepictedWords(nodes: map<Word, TrieNode>, P: Picture, fails: bool)
    requires Depicts(nodes, P, fails)
    ensures nodes.Keys == P.Keys
  {
  }

  lemma RootOrEmpty(a: Automaton)
    requires Valid(a)
    ensures a.kind == Empty <==> a.nodes == map[]
  {
  }

  /** Loading what save wrote gives the automaton back, unless the value of some key was written as no bytes at all.
      Fail links are linked again only in an Aho-Corasick automaton; in a plain trie they keep the old addresses. */
  method CopyBySave(a: Automaton, S: Sizes, capacity: nat, junk: int, address: Addressing,
                    serialize: Output -> seq<Byte>,
                    deserialize: seq<Byte> -> Output) returns (r: Outcome<Automaton>)
    requires Valid(a) && S.Real() && S.pointer <= capacity && S.node <= capacity && Addressed(a.nodes, address)
    requires a.store == Any ==> Inverse(a.Keys(), serialize, deserialize)
    ensures r.Ok? <==> (a.store == Any ==> AllHaveBytes(a.Keys(), serialize))
    ensures r.Raised? ==> r.error == ValueError
    ensures r.Ok? ==> fresh(r.value) && (forall n :: n in r.value.nodes.Values ==> fresh(n)) && Valid(r.value)
    ensures r.Ok? ==> r.value.kind == a.kind && r.value.store == a.store && r.value.keyType == a.keyType
                      && r.value.count == a.count && r.value.longestWord == a.longestWord && r.value.Keys() == a.Keys()
    ensures r.Ok? && a.kind != Empty ==> Depicts(r.value.nodes, PictureOf(a.nodes), a.kind == AhoCorasick)
    ensures r.Ok? && a.kind == AhoCorasick ==> PictureOf(r.value.nodes) == PictureOf(a.nodes)
    ensures r.Ok? && a.kind == Trie ==> forall w :: w in a.nodes ==>
              w in r.value.nodes && r.value.nodes[w].fail == Cast(Saves.Bits(address, a.nodes[w].fail))
  {
    hide Valid, Given, Saves.SavedAll, Saves.ListsAll, Suits, Loaded, Addressed, Inverse, AllHaveBytes, FileBytes;
    hide Unreadable;
    hide PictureOf, Automaton.Keys, Depicts;
    ValidParts(a);
    var file := Saves.Save(a, S, capacity, junk, address, serialize);
    ghost var es, ws :| Saves.Describes(a, file, S, address, serialize, es, ws);
    ghost var made, M;
    SuitsHeader(a, es, ws, address, serialize, deserialize);
    r, made, M := Load(file, S, deserialize, Saves.HeaderOf(a), es, ws);
    if r.Ok? {
      LoadedIsReplica(a, r.value, made, M, es, ws, address, serialize, deserialize);
    }
  }
}
