/** An automaton whose nodes are a copy of a valid automaton's nodes. */
module Replicas {
  import opened Options
  import opened Words
  import opened TrieNodes
  import opened Automata
  import opened Traversal
  import opened Copies
  import opened Dictionary

  /** The picture of a valid automaton. */
  ghost predicate PictureFits(a: Automaton, P: Picture)
    reads a, a.nodes.Values
  {
    && P.Keys == a.nodes.Keys && KeysOf(P) == a.Keys() && TreeTable(LettersOf(P))
    && (a.kind == AhoCorasick ==> LinkedPicture(P))
  }

  lemma PictureOfValid(a: Automaton)
    requires Valid(a) && a.kind != Empty
    ensures PictureFits(a, PictureOf(a.nodes)) && Similar(a.nodes, PictureOf(a.nodes))
    ensures [] in a.nodes && PictureOf(a.nodes)[[]].fail == None && (a.kind == AhoCorasick ==> Live(a.nodes))
  {
    hide Linked, LinkedPicture, TrieOf, Tree;
    var P := PictureOf(a.nodes);
    PictureIsSimilar(a.nodes);
    KeysByPicture(a.nodes, P);
    TreeWords(a.nodes);
    NoFailWord(a.nodes);
    if a.kind == AhoCorasick {
      LinkedIsLive(a.nodes);
      PictureShowsFails(a.nodes);
      CopyHasPicture(a.nodes, P);
    }
  }

  lemma FittingPicture(a: Automaton, P: Picture)
    requires PictureFits(a, P)
    ensures P.Keys == a.nodes.Keys && KeysOf(P) == a.Keys()
  {
  }

  lemma SimilarHasShape(b: Automaton, P: Picture)
    requires b.kind != Empty && Similar(b.nodes, P) && b.root == Target(b.nodes, [])
    requires TreeTable(LettersOf(P)) && TrieOf(P.Keys, KeysOf(P).Keys)
    ensures b.Shape() && b.Keys() == KeysOf(P) && b.nodes.Keys == P.Keys && [] in b.nodes
  {
    hide TrieOf, Similar, LettersOf, TreeTable, Tree;
    SimilarKeys(b.nodes, P);
    CopyIsTree(b.nodes, P);
    TreeWords(b.nodes);
    KeysByPicture(b.nodes, P);
  }

  lemma FitsFresh(s: Books, t: Books, N: set<Word>, keys: map<Word, Output>)
    requires s.Fit(N, keys) && t == s.(version := t.version, stats := t.stats, unseen := t.unseen)
    requires t.stats.version < t.version && !t.unseen
    ensures t.Fit(N, keys)
  {
  }

  /** Similar nodes under the fields of `a` make a valid automaton with the same keys. */
  lemma ReplicaIsValid(a: Automaton, b: Automaton, P: Picture)
    requires Valid(a) && a.kind != Empty && PictureFits(a, P)
    requires Similar(b.nodes, P) && b.root == Target(b.nodes, []) && b.stats.version < b.version
    requires b.RootIsTop() && (a.kind == AhoCorasick ==> Linked(b.nodes))
    requires b.kind == a.kind && b.store == a.store && b.count == a.count && b.longestWord == a.longestWord
    requires b.lost == a.lost && b.held == a.held && !b.unseen
    ensures Valid(b) && b.Keys() == a.Keys()
  {
    hide TrieOf, Fitting, Similar, LettersOf, TreeTable, LinkedPicture, Linked, Automaton.Keys, Books.Fit, Tree, KeysOf;
    SimilarHasShape(b, P);
    FitsFresh(BooksOf(a), BooksOf(b), a.nodes.Keys, a.Keys());
  }

  /** A faithful copy is linked as the original is. */
  lemma FaithfulReplica(a: Automaton, b: Automaton, P: Picture)
    requires PictureFits(a, P) && Depicts(b.nodes, P, true) && [] in P && P[[]].fail == None
    ensures PictureOf(b.nodes) == P && b.RootIsTop() && (a.kind == AhoCorasick ==> Linked(b.nodes))
  {
    hide LinkedPicture, Linked, Similar;
    SimilarKeys(b.nodes, P);
    CopyHasPicture(b.nodes, P);
    ShownFails(b.nodes, P);
  }

  lemma FaithfulReplicaIsValid(a: Automaton, b: Automaton, P: Picture)
    requires Valid(a) && a.kind != Empty && PictureFits(a, P) && [] in P && P[[]].fail == None
    requires Depicts(b.nodes, P, true) && b.root == Target(b.nodes, []) && b.stats.version < b.version
    requires b.kind == a.kind && b.store == a.store && b.count == a.count && b.longestWord == a.longestWord
    requires b.lost == a.lost && b.held == a.held && !b.unseen
    ensures Valid(b) && b.Keys() == a.Keys() && PictureOf(b.nodes) == P
  {
    hide PictureFits, Valid, PictureOf, Linked, Automaton.RootIsTop;
    FaithfulReplica(a, b, P);
    ReplicaIsValid(a, b, P);
  }

  // ---------------------------------------------------------------- references

  /** The values of the keys among `ws`, in this order. */
  ghost function ValuesAlong(P: Picture, ws: seq<Word>): seq<Output>
    requires forall w :: w in ws ==> w in P
  {
    if ws == [] then [] else
      var c := P[ws[|ws| - 1]];
      ValuesAlong(P, ws[..|ws| - 1]) + if c.value.Some? then [c.value.value] else []
  }

  ghost function KeysAmong(P: Picture, ws: seq<Word>): map<Word, Output> {
    map w | w in ws && w in P && P[w].value.Some? :: P[w].value.value
  }

  /** The value list holds each stored object as often as it is stored. */
  lemma {:induction false} ValuesAreHeld(P: Picture, ws: seq<Word>)
    requires Distinct(ws) && forall w :: w in ws ==> w in P
    ensures HoldsValues(multiset(ValuesAlong(P, ws)), KeysAmong(P, ws))
  {
    if ws == [] {
      assert forall v :: Storing(KeysAmong(P, []), v) == {};
    } else {
      var w, rest := ws[|ws| - 1], ws[..|ws| - 1];
      assert ws == rest + [w];
      assert w !in rest;
      ValuesAreHeld(P, rest);
      if P[w].value.Some? {
        HoldsWith(multiset(ValuesAlong(P, rest)), KeysAmong(P, rest), w, P[w].value.value);
        assert KeysAmong(P, rest)[w := P[w].value.value] == KeysAmong(P, ws);
      } else {
        assert KeysAmong(P, rest) == KeysAmong(P, ws);
      }
    }
  }

  lemma HeldAre(a: Automaton)
    requires Valid(a)
    ensures if a.store == Any then HoldsValues(a.held, a.Keys()) else a.held == multiset{}
  {
  }

  lemma SameHolding(h: multiset<Output>, g: multiset<Output>, keys: map<Word, Output>)
    requires HoldsValues(h, keys) && HoldsValues(g, keys)
    ensures h == g
  {
    forall v ensures h[v] == g[v] {
      assert h[v] == |Storing(keys, v)|;
    }
  }
}
