/** The automaton as a dictionary: what every operation does to the map of keys, and what they all keep. */
module Dictionary {
  import opened Options
  import opened Words
  import opened TrieNodes
  import opened Automata
  import opened Tries
  import opened Traversal

  datatype PyError = ValueError | TypeError | KeyError | IndexError

  datatype Outcome<+T> = Ok(value: T) | Raised(error: PyError)

  // A reference to an object is never null.
  type Reference = r: int | r != 0 witness 1

  /** A Python object: its reference and, if it is one, the number it stands for. */
  datatype PyObject = PyObject(ref: Reference, number: Option<int>)

  /** What a call hands out: the object at an address, or a number made into a new object. */
  datatype PyValue = Object(address: int) | Integer(number: int)

  /** What a stored value is handed out as: as an object only if objects are stored. */
  function Shown(store: Store, v: Output): PyValue {
    if store == Any then Object(v) else Integer(v)
  }

  // ---------------------------------------------------------------- the multiset of stored values

  function Storing(keys: map<Word, Output>, v: Output): set<Word> {
    set k | k in keys && keys[k] == v
  }

  /** `held` has each value as often as it is stored. */
  ghost predicate HoldsValues(held: multiset<Output>, keys: map<Word, Output>) {
    forall v {:trigger held[v]} {:trigger Storing(keys, v)} :: held[v] == |Storing(keys, v)|
  }

  lemma StoringWith(keys: map<Word, Output>, k: Word, v: Output, x: Output)
    requires k !in keys
    ensures |Storing(keys[k := v], x)| == |Storing(keys, x)| + if x == v then 1 else 0
  {
    assert Storing(keys[k := v], x) == Storing(keys, x) + if x == v then {k} else {};
  }

  lemma StoringWithout(keys: map<Word, Output>, k: Word, x: Output)
    requires k in keys
    ensures |Storing(keys - {k}, x)| == |Storing(keys, x)| - if x == keys[k] then 1 else 0
  {
    assert Storing(keys - {k}, x) == Storing(keys, x) - if x == keys[k] then {k} else {};
  }

  lemma HoldsWith(held: multiset<Output>, keys: map<Word, Output>, k: Word, v: Output)
    requires HoldsValues(held, keys) && k !in keys
    ensures HoldsValues(held + multiset{v}, keys[k := v])
  {
    forall x ensures (held + multiset{v})[x] == |Storing(keys[k := v], x)| {
      StoringWith(keys, k, v, x);
      assert held[x] == |Storing(keys, x)|;
    }
  }

  lemma HoldsWithout(held: multiset<Output>, keys: map<Word, Output>, k: Word)
    requires HoldsValues(held, keys) && k in keys
    ensures HoldsValues(held - multiset{keys[k]}, keys - {k})
  {
    forall x ensures (held - multiset{keys[k]})[x] == |Storing(keys - {k}, x)| {
      StoringWithout(keys, k, x);
      assert held[x] == |Storing(keys, x)|;
    }
  }

  // ---------------------------------------------------------------- what every operation keeps

  ghost predicate StatsFit(s: Stats, N: set<Word>, K: set<Word>) {
    s.nodesCount == |N| && s.wordsCount == |K| && s.linksCount == (if N == {} then 0 else |N| - 1) &&
    (forall w :: w in N ==> |w| <= s.longestWord) &&
    (if N == {} then s.longestWord == 0 else exists w :: w in N && |w| == s.longestWord)
  }

  ghost predicate Fitting(store: Store, keys: map<Word, Output>, held: multiset<Output>, lost: nat) {
    match store
    case Any => HoldsValues(held, keys) && lost == 0 && forall k :: k in keys ==> keys[k] != 0
    case Length => held == multiset{} && lost == 0 && forall k :: k in keys ==> keys[k] == |k|
    case Ints => held == multiset{}
  }

  /** The bookkeeping of the automaton: counters, references and cached statistics. */
  datatype Books = Books(store: Store, count: int, longestWord: int, version: int, stats: Stats,
                         held: multiset<Output>, lost: nat, unseen: bool)
  {
    ghost predicate Fit(N: set<Word>, keys: map<Word, Output>) {
      && longestWord >= 0 && Bounded(N, longestWord)
      && count == |keys| + lost
      && Fitting(store, keys, held, lost)
      && (unseen ==> lost > 0) && (N == {} ==> lost == 0)
      && stats.version <= version
      && (stats.version == version ==> if unseen then stats.wordsCount > |keys| else StatsFit(stats, N, keys.Keys))
    }
  }

  ghost function BooksOf(a: Automaton): Books
    reads a`store, a`count, a`longestWord, a`version, a`stats, a`held, a`lost, a`unseen
  {
    Books(a.store, a.count, a.longestWord, a.version, a.stats, a.held, a.lost, a.unseen)
  }

  /** The linked nodes of the automaton are in order. */
  ghost predicate Sturdy(a: Automaton)
    reads a`kind, a`root, a`nodes
    reads a.nodes.Values`word, a.nodes.Values`next, a.nodes.Values`eow, a.nodes.Values`output, a.nodes.Values`fail
  {
    a.Shape() && a.RootIsTop() && (a.kind == AhoCorasick ==> Linked(a.nodes))
  }

  ghost predicate Valid(a: Automaton)
    reads a, a.nodes.Values
  {
    Sturdy(a) && BooksOf(a).Fit(a.nodes.Keys, a.Keys())
  }

  lemma NewIsValid(a: Automaton)
    requires a.kind == Empty && a.count == 0 && a.longestWord == 0 && a.version == 0 && a.stats.version == -1
    requires a.root == Null && a.nodes == map[] && a.held == multiset{} && a.lost == 0 && !a.unseen
    ensures Valid(a) && a.Keys() == map[]
  {
  }

  // ---------------------------------------------------------------- add_word

  /** The value that add_word stores, or the error it raises. */
  function StoredValue(store: Store, word: Word, arg: Option<PyObject>, count: int): Outcome<Output> {
    match store
    case Any => if arg.Some? then Ok(arg.value.ref) else Raised(ValueError)
    case Ints =>
      if arg.None? then Ok(count + 1)
      else if arg.value.number.Some? then Ok(arg.value.number.value)
      else Raised(TypeError)
    case Length => Ok(|word|)
  }

  /** The references after `word` was stored: the new value's taken, a replaced value's given back. */
  ghost function Counted(store: Store, keys: map<Word, Output>, held: multiset<Output>, word: Word, v: Output)
      : multiset<Output>
  {
    if store != Any then held
    else (if word in keys then held - multiset{keys[word]} else held) + multiset{v}
  }

  lemma FitsWith(store: Store, keys: map<Word, Output>, held: multiset<Output>, lost: nat, word: Word, v: Output)
    requires Fitting(store, keys, held, lost)
    requires store == Any ==> v != 0
    requires store == Length ==> v == |word|
    ensures Fitting(store, keys[word := v], Counted(store, keys, held, word, v), lost)
  {
    if store == Any {
      if word in keys {
        HoldsWithout(held, keys, word);
        HoldsWith(held - multiset{keys[word]}, keys - {word}, word, v);
        assert (keys - {word})[word := v] == keys[word := v];
      } else {
        HoldsWith(held, keys, word, v);
      }
    }
  }

  method Store(a: Automaton, node: TrieNode, value: Output)
    requires a.Shape() && IsNode(a.nodes, node) && node.eow && a.kind != Empty
    modifies node`output
    ensures a.Shape() && a.Keys() == old(a.Keys())[node.word := value]
  {
    hide TrieOf, Tidy, PrefixClosed;
    node.output := value;
    assert a.Keys().Keys == old(a.Keys().Keys);
  }

  /** The part of add_word behind the checks: the word enters the trie, the value its node. */
  method Enter(a: Automaton, word: Word, value: Output) returns (newWord: bool)
    requires Sturdy(a) && word != []
    modifies a`kind, a`count, a`root, a`nodes, a`held, a.nodes.Values`next, a.nodes.Values`eow, a.nodes.Values`output
    ensures Sturdy(a) && a.kind == Trie && SameNodes(a)
    ensures forall w :: w in a.nodes <==> w in old(a.nodes) || IsPrefix(w, word)
    ensures newWord == (word !in old(a.Keys())) && a.Keys() == old(a.Keys())[word := value]
    ensures a.count == old(a.count) + if newWord then 1 else 0
    ensures a.held == Counted(a.store, old(a.Keys()), old(a.held), word, value)
    ensures !newWord ==> TablesOf(a.nodes) == old(TablesOf(a.nodes))
  {
    hide Automaton.Shape, Automaton.Keys, IsPrefix, PrefixClosed, TablesOf;
    KeyHasNode(a, word);
    var node;
    node, newWord := TrieAddWord(a, word);
    if a.store == Any {
      if !newWord && node.eow {
        a.held := a.held - multiset{node.output};
      }
      a.held := a.held + multiset{value};
    }
    Overwritten(old(a.Keys()), word, node.output, value);
    Store(a, node, value);
  }

  lemma KeyHasNode(a: Automaton, word: Word)
    ensures word in a.Keys() ==> word in a.nodes
  {
  }

  lemma Overwritten(m: map<Word, Output>, k: Word, x: Output, v: Output)
    ensures m[k := x][k := v] == m[k := v]
  {
  }

  lemma BoundedWith(N0: set<Word>, N: set<Word>, bound: nat, word: Word)
    requires Bounded(N0, bound) && forall w :: w in N <==> w in N0 || IsPrefix(w, word)
    ensures Bounded(N, if |word| > bound then |word| else bound)
  {
  }

  /** Storing a new value for an old key leaves the nodes as they are. */
  lemma SameNodesFor(N0: set<Word>, N: set<Word>, word: Word)
    requires PrefixClosed(N0) && word in N0 && forall w :: w in N <==> w in N0 || IsPrefix(w, word)
    ensures N == N0
  {
    forall w | IsPrefix(w, word) ensures w in N0 {
      PrefixesAreNodes(N0, word, |w|);
      assert word[..|w|] == w;
    }
  }

  lemma OldKeyOldNodes(N0: set<Word>, K0: set<Word>, N: set<Word>, word: Word)
    requires (N0 == {} == K0) || TrieOf(N0, K0)
    requires forall w :: w in N <==> w in N0 || IsPrefix(w, word)
    ensures word in K0 ==> N == N0
  {
    if word in K0 {
      SameNodesFor(N0, N, word);
    }
  }

  lemma CountWith(keys: map<Word, Output>, word: Word, v: Output)
    ensures |keys[word := v]| == |keys| + if word in keys then 0 else 1
  {
    assert keys[word := v].Keys == keys.Keys + {word};
  }

  lemma SturdyIsTrie(a: Automaton)
    requires Sturdy(a)
    ensures (a.nodes.Keys == {} == a.Keys().Keys) || TrieOf(a.nodes.Keys, a.Keys().Keys)
  {
  }

  /** The books after add_word stored a value. */
  ghost function BooksWith(b: Books, keys: map<Word, Output>, word: Word, value: Output): Books {
    var held := Counted(b.store, keys, b.held, word, value);
    if word in keys then b.(held := held)
    else b.(count := b.count + 1, version := b.version + 1, unseen := false, held := held,
            longestWord := if |word| > b.longestWord then |word| else b.longestWord)
  }

  lemma BooksFitWith(b: Books, N0: set<Word>, N: set<Word>, keys: map<Word, Output>, word: Word, value: Output)
    requires b.Fit(N0, keys) && forall w :: w in N <==> w in N0 || IsPrefix(w, word)
    requires (b.store == Any ==> value != 0) && (b.store == Length ==> value == |word|)
    requires word in keys ==> N == N0
    ensures BooksWith(b, keys, word, value).Fit(N, keys[word := value])
  {
    hide Fitting, Counted, StatsFit;
    FitsWith(b.store, keys, b.held, b.lost, word, value);
    CountWith(keys, word, value);
    BoundedWith(N0, N, b.longestWord, word);
    assert word in keys ==> keys[word := value].Keys == keys.Keys;
  }

  /** The effect of add_word on the automaton, for a stored value. */
  method Add(a: Automaton, word: Word, value: Output) returns (newWord: bool)
    requires Valid(a) && word != []
    requires (a.store == Any ==> value != 0) && (a.store == Length ==> value == |word|)
    modifies a`kind, a`count, a`root, a`nodes, a`held, a`version, a`unseen, a`longestWord
    modifies a.nodes.Values`next, a.nodes.Values`eow, a.nodes.Values`output
    ensures Valid(a) && SameNodes(a) && a.kind == Trie
    ensures newWord == (word !in old(a.Keys())) && a.Keys() == old(a.Keys())[word := value]
    ensures a.version == old(a.version) + if newWord then 1 else 0
    ensures a.longestWord == if newWord && |word| > old(a.longestWord) then |word| else old(a.longestWord)
    ensures !newWord ==> a.nodes.Keys == old(a.nodes.Keys) && TablesOf(a.nodes) == old(TablesOf(a.nodes))
    ensures !newWord ==> a.unseen == old(a.unseen)
  {
    hide Valid, Sturdy, Automaton.Keys, IsPrefix, Books.Fit, Counted, SameNodes, TrieOf, TablesOf;
    ghost var keys, N, books := a.Keys(), a.nodes.Keys, BooksOf(a);
    ValidParts(a, books, N, keys);
    SturdyIsTrie(a);
    newWord := Enter(a, word, value);
    if newWord {
      Notice(a, |word|);
    }
    AddedBooks(a, books, N, keys, word, value, newWord);
  }

  /** The counters after a new word. */
  method Notice(a: Automaton, length: int)
    modifies a`version, a`unseen, a`longestWord
    ensures a.version == old(a.version) + 1 && !a.unseen
    ensures a.longestWord == if length > old(a.longestWord) then length else old(a.longestWord)
  {
    a.version := a.version + 1;
    a.unseen := false;
    if length > a.longestWord {
      a.longestWord := length;
    }
  }

  /** The automaton is valid with the books that fit the added word. */
  lemma AddedBooks(a: Automaton, b: Books, N0: set<Word>, keys: map<Word, Output>, word: Word, value: Output,
                   newWord: bool)
    requires Sturdy(a) && b.Fit(N0, keys) && (N0 == {} == keys.Keys || TrieOf(N0, keys.Keys))
    requires (forall w :: w in a.nodes <==> w in N0 || IsPrefix(w, word)) && a.Keys() == keys[word := value]
    requires (b.store == Any ==> value != 0) && (b.store == Length ==> value == |word|)
    requires newWord == (word !in keys) && a.held == Counted(b.store, keys, b.held, word, value)
    requires BooksOf(a) == if !newWord then b.(held := a.held) else
               b.(count := b.count + 1, version := b.version + 1, unseen := false, held := a.held,
                  longestWord := if |word| > b.longestWord then |word| else b.longestWord)
    ensures Valid(a) && (word in keys ==> a.nodes.Keys == N0)
  {
    hide Sturdy, Automaton.Keys, IsPrefix, Books.Fit, Counted, TrieOf;
    OldKeyOldNodes(N0, keys.Keys, a.nodes.Keys, word);
    BooksFitWith(b, N0, a.nodes.Keys, keys, word, value);
  }

  /** add_word: on success the dictionary maps `word` to the stored value; an error changes nothing. The version
      only stays when the nodes and their fail links do. */
  method AddWord(a: Automaton, word: Word, arg: Option<PyObject>) returns (r: Outcome<bool>)
    requires Valid(a)
    modifies a`kind, a`count, a`root, a`nodes, a`held, a`version, a`unseen, a`longestWord
    modifies a.nodes.Values`next, a.nodes.Values`eow, a.nodes.Values`output
    ensures Valid(a) && SameNodes(a)
    ensures match StoredValue(a.store, word, arg, old(a.count))
            case Raised(e) =>
              r == Raised(e) && a.Keys() == old(a.Keys()) && a.version == old(a.version) && a.kind == old(a.kind)
            case Ok(value) =>
              if word == [] then
                r == Ok(false) && a.Keys() == old(a.Keys()) && a.version == old(a.version) && a.kind == old(a.kind)
              else r == Ok(word !in old(a.Keys())) && a.Keys() == old(a.Keys())[word := value] && a.kind == Trie
                   && a.version == old(a.version) + if word in old(a.Keys()) then 0 else 1
    ensures r.Raised? <==> if a.store == Any then arg.None? else a.store == Ints && arg.Some? && arg.value.number.None?
    ensures r.Raised? ==> r.error == if a.store == Any then ValueError else TypeError
    ensures r.Ok? && word != [] ==> word in a.Keys()
    ensures r.Ok? && word != [] && a.store == Any ==> a.Keys()[word] == arg.value.ref
    ensures r.Ok? && word != [] && a.store == Length ==> a.Keys()[word] == |word|
    ensures r.Ok? && word != [] && a.store == Ints ==>
              a.Keys()[word] == if arg.Some? then arg.value.number.value else old(a.count) + 1
    ensures a.longestWord ==
              if a.version > old(a.version) && |word| > old(a.longestWord) then |word| else old(a.longestWord)
    ensures a.version == old(a.version) ==> a.nodes == old(a.nodes) && TablesOf(a.nodes) == old(TablesOf(a.nodes))
    ensures a.version == old(a.version) ==> a.unseen == old(a.unseen)
  {
    hide Valid, Automaton.Keys, TablesOf;
    var stored := StoredValue(a.store, word, arg, a.count);
    if stored.Raised? {
      r := Raised(stored.error);
    } else if word == [] {
      r := Ok(false);
    } else {
      var newWord := Add(a, word, stored.value);
      r := Ok(newWord);
    }
  }

  // ---------------------------------------------------------------- remove_word and pop

  /** The books after `word` went. A word whose stored value is null (a zero in an automaton of integers) goes
      unnoticed: neither the count nor the version changes. */
  ghost function BooksWithout(b: Books, keys: map<Word, Output>, word: Word): Books {
    if word !in keys then b
    else if keys[word] == 0 then b.(lost := b.lost + 1, unseen := true)
    else b.(count := b.count - 1, version := b.version + 1, unseen := false,
            held := if b.store == Any then b.held - multiset{keys[word]} else b.held)
  }

  lemma BooksFitWithout(b: Books, b': Books, N0: set<Word>, N: set<Word>, keys: map<Word, Output>,
                        keys': map<Word, Output>,
                        word: Word)
    requires b.Fit(N0, keys) && N <= N0 && (if word in keys then N != {} else N == N0) && word != []
    requires b' == BooksWithout(b, keys, word) && keys' == keys - {word}
    ensures b'.Fit(N, keys')
  {
    if word !in keys {
      assert keys' == keys;
      return;
    }
    assert keys'.Keys == keys.Keys - {word};
    if b.store == Any {
      HoldsWithout(b.held, keys, word);
    }
  }

  /** What a removal of `word` does to the keys and the books, and what it reports. */
  ghost predicate Removed(keys: map<Word, Output>, keys': map<Word, Output>, b: Books, b': Books, word: Word,
                          found: bool, value: Output)
  {
    keys' == keys - {word} && b' == BooksWithout(b, keys, word) &&
    (found <==> word in keys && keys[word] != 0) && (found ==> value == keys[word])
  }

  /** automaton_remove_word_aux and the bookkeeping of its two callers: the word and exactly its dead nodes go.
      Whether it is reported depends on the stored value. */
  method Remove(a: Automaton, word: Word) returns (found: bool, value: Output, ghost freed: seq<TrieNode>)
    requires Valid(a)
    modifies a`kind, a`count, a`nodes, a`held, a`version, a`unseen, a`lost, a.nodes.Values`next, a.nodes.Values`eow
    ensures Valid(a)
    ensures Removed(old(a.Keys()), a.Keys(), old(BooksOf(a)), BooksOf(a), word, found, value)
    ensures if word in old(a.Keys()) then a.kind == Trie else a.nodes == old(a.nodes) && a.kind == old(a.kind)
    ensures Shrunk(old(a.nodes), a.nodes, freed) && OnceEach(freed)
    ensures a.nodes.Keys == old(a.nodes.Keys) ==> TablesOf(a.nodes) == old(TablesOf(a.nodes))
  {
    hide Valid, Automaton.Keys, Removed, BooksOf, TablesOf;
    if word == [] {
      EmptyWordIsNoKey(a);
      KeepsAll(a, a.Keys(), BooksOf(a));
      return false, 0, [];
    }
    found, value, freed := RemoveSome(a, word);
  }

  method RemoveSome(a: Automaton, word: Word) returns (found: bool, value: Output, ghost freed: seq<TrieNode>)
    requires Valid(a) && word != []
    modifies a`kind, a`count, a`nodes, a`held, a`version, a`unseen, a`lost, a.nodes.Values`next, a.nodes.Values`eow
    ensures Valid(a)
    ensures Removed(old(a.Keys()), a.Keys(), old(BooksOf(a)), BooksOf(a), word, found, value)
    ensures if word in old(a.Keys()) then a.kind == Trie else a.nodes == old(a.nodes) && a.kind == old(a.kind)
    ensures Shrunk(old(a.nodes), a.nodes, freed) && OnceEach(freed)
    ensures a.nodes.Keys == old(a.nodes.Keys) ==> TablesOf(a.nodes) == old(TablesOf(a.nodes))
  {
    hide Valid, Sturdy, Automaton.Keys, BooksWithout, BooksOf, Removed, Shrunk, Books.Fit, OnceEach, TablesOf;
    ghost var keys, N, books := a.Keys(), a.nodes.Keys, BooksOf(a);
    ValidParts(a, books, N, keys);
    value, freed := TakeOut(a, word);
    found := Settle(a, value, books, N, keys, word);
  }

  lemma KindHasNodes(a: Automaton)
    requires a.Shape() && a.kind == Trie
    ensures a.nodes != map[]
  {
    assert [] in a.nodes;
  }

  /** The books after the word was taken out. */
  method Settle(a: Automaton, value: Output, ghost books: Books, ghost N: set<Word>, ghost keys: map<Word, Output>,
                ghost word: Word) returns (found: bool)
    requires Sturdy(a) && BooksOf(a) == books && books.Fit(N, keys) && word != [] && a.Keys() == keys - {word}
    requires a.nodes.Keys <= N && (if word in keys then a.nodes != map[] else a.nodes.Keys == N)
    requires value == if word in keys then keys[word] else 0
    modifies a`count, a`held, a`version, a`unseen, a`lost
    ensures Valid(a) && Removed(keys, a.Keys(), books, BooksOf(a), word, found, value)
  {
    hide Valid, Sturdy, Automaton.Keys, BooksWithout, BooksOf, Removed, Books.Fit;
    found := Account(a, value, keys, word);
    ValidWithout(a, books, N, keys, word, found, value);
  }

  lemma ValidParts(a: Automaton, b: Books, N: set<Word>, keys: map<Word, Output>)
    requires Valid(a) && b == BooksOf(a) && N == a.nodes.Keys && keys == a.Keys()
    ensures Sturdy(a) && b.Fit(N, keys)
  {
  }

  lemma ValidWithout(a: Automaton, b: Books, N0: set<Word>, keys: map<Word, Output>, word: Word, found: bool,
                     value: Output)
    requires Sturdy(a) && b.Fit(N0, keys) && a.nodes.Keys <= N0 && word != []
    requires if word in keys then a.nodes != map[] else a.nodes.Keys == N0
    requires BooksOf(a) == BooksWithout(b, keys, word) && a.Keys() == keys - {word}
    requires (found <==> word in keys && keys[word] != 0) && value == if word in keys then keys[word] else 0
    ensures Valid(a) && Removed(keys, a.Keys(), b, BooksOf(a), word, found, value)
  {
    hide Sturdy, Automaton.Keys, BooksWithout, BooksOf, Books.Fit;
    BooksFitWithout(b, BooksOf(a), N0, a.nodes.Keys, keys, a.Keys(), word);
  }

  method TakeOut(a: Automaton, word: Word) returns (value: Output, ghost freed: seq<TrieNode>)
    requires Sturdy(a) && word != []
    modifies a`kind, a`nodes, a.nodes.Values`next, a.nodes.Values`eow
    ensures Sturdy(a) && value == if word in old(a.Keys()) then old(a.Keys())[word] else 0
    ensures if word in old(a.Keys()) then a.kind == Trie else a.nodes == old(a.nodes) && a.kind == old(a.kind)
    ensures a.Keys() == old(a.Keys()) - {word} && Shrunk(old(a.nodes), a.nodes, freed) && OnceEach(freed)
    ensures a.nodes.Keys <= old(a.nodes.Keys) && (a.kind == Trie ==> a.nodes != map[])
    ensures a.nodes.Keys == old(a.nodes.Keys) ==> TablesOf(a.nodes) == old(TablesOf(a.nodes))
  {
    hide Automaton.Shape, Automaton.Keys, Automaton.RootIsTop, Linked, TablesOf;
    value, freed := TrieRemoveWord(a, word);
    if a.kind == Trie {
      KindHasNodes(a);
    }
  }

  lemma KeepsAll(a: Automaton, keys: map<Word, Output>, books: Books)
    requires [] !in keys
    ensures Removed(keys, keys, books, books, [], false, 0)
  {
    assert keys - {[]} == keys;
  }

  method Account(a: Automaton, value: Output, ghost keys: map<Word, Output>, ghost word: Word) returns (found: bool)
    requires value == if word in keys then keys[word] else 0
    modifies a`count, a`held, a`version, a`unseen, a`lost
    ensures found <==> word in keys && keys[word] != 0
    ensures BooksOf(a) == BooksWithout(old(BooksOf(a)), keys, word)
  {
    found := value != 0;
    if found {
      if a.store == Any {
        a.held := a.held - multiset{value};
      }
      a.version := a.version + 1;
      a.unseen := false;
      a.count := a.count - 1;
    } else if word in keys {
      a.lost, a.unseen := a.lost + 1, true;
    }
  }

  lemma EmptyWordIsNoKey(a: Automaton)
    requires Valid(a)
    ensures [] !in a.Keys()
  {
  }

  /** remove_word reports a removal exactly when the stored value was not null. */
  method RemoveWord(a: Automaton, word: Word) returns (r: bool)
    requires Valid(a)
    modifies a`kind, a`count, a`nodes, a`held, a`version, a`unseen, a`lost, a.nodes.Values`next, a.nodes.Values`eow
    ensures Valid(a) && a.Keys() == old(a.Keys()) - {word}
    ensures r <==> word in old(a.Keys()) && old(a.Keys())[word] != 0
    ensures a.version == old(a.version) + if r then 1 else 0
    ensures a.lost == old(a.lost) + if word in old(a.Keys()) && !r then 1 else 0
    ensures if word in old(a.Keys()) then a.kind == Trie else a.nodes == old(a.nodes) && a.kind == old(a.kind)
    ensures a.nodes.Keys <= old(a.nodes.Keys) && forall w :: w in a.nodes ==> a.nodes[w] == old(a.nodes)[w]
    ensures a.nodes.Keys == old(a.nodes.Keys) ==> TablesOf(a.nodes) == old(TablesOf(a.nodes))
  {
    hide Valid, Automaton.Keys, TablesOf;
    var value;
    ghost var freed;
    r, value, freed := Remove(a, word);
  }

  /** pop hands out what is stored as an object, whatever the store, and raises KeyError when remove_word would return
      False. */
  method Pop(a: Automaton, word: Word) returns (r: Outcome<PyValue>)
    requires Valid(a)
    modifies a`kind, a`count, a`nodes, a`held, a`version, a`unseen, a`lost, a.nodes.Values`next, a.nodes.Values`eow
    ensures Valid(a) && a.Keys() == old(a.Keys()) - {word}
    ensures r == if word in old(a.Keys()) && old(a.Keys())[word] != 0 then Ok(Object(old(a.Keys())[word]))
                 else Raised(KeyError)
    ensures a.version == old(a.version) + if r.Ok? then 1 else 0
    ensures a.lost == old(a.lost) + if word in old(a.Keys()) && !r.Ok? then 1 else 0
    ensures if word in old(a.Keys()) then a.kind == Trie else a.nodes == old(a.nodes) && a.kind == old(a.kind)
    ensures a.nodes.Keys <= old(a.nodes.Keys) && forall w :: w in a.nodes ==> a.nodes[w] == old(a.nodes)[w]
    ensures a.nodes.Keys == old(a.nodes.Keys) ==> TablesOf(a.nodes) == old(TablesOf(a.nodes))
  {
    hide Valid, Automaton.Keys, TablesOf;
    var found, value;
    ghost var freed;
    found, value, freed := Remove(a, word);
    r := if found then Ok(Object(value)) else Raised(KeyError);
  }

  // ---------------------------------------------------------------- reading

  /** get: the value of a key, an object or a number as the store says; the default for any other word, KeyError
      without one. */
  method Get(a: Automaton, word: Word, default: Option<Reference>) returns (r: Outcome<PyValue>)
    requires Valid(a)
    ensures r == if word in a.Keys() then Ok(Shown(a.store, a.Keys()[word]))
                 else if default.Some? then Ok(Object(default.value)) else Raised(KeyError)
    ensures word in a.Keys() && a.store == Any ==> r == Ok(Object(a.Keys()[word]))
    ensures word in a.Keys() && a.store == Ints ==> r == Ok(Integer(a.Keys()[word]))
    ensures word in a.Keys() && a.store == Length ==> r == Ok(Integer(|word|))
  {
    var node := TrieFind(a.root, word, a.nodes);
    if node != Null && node.node.eow {
      match a.store {
        case Any => r := Ok(Object(node.node.output));
        case Ints => r := Ok(Integer(node.node.output));
        case Length => r := Ok(Integer(node.node.output));
      }
    } else if default.Some? {
      r := Ok(Object(default.value));
    } else {
      r := Raised(KeyError);
    }
  }

  /** `word in automaton`, for keys; `match`, for prefixes of keys. */
  method Contains(a: Automaton, word: Word) returns (isKey: bool, isPrefix: bool)
    requires Valid(a)
    ensures isKey <==> word in a.Keys()
    ensures isPrefix <==> a.kind != Empty && (word == [] || Reaches(a.Keys().Keys, word))
  {
    var node := TrieFind(a.root, word, a.nodes);
    isPrefix := node != Null;
    isKey := isPrefix && node.node.eow;
    if a.kind != Empty && word != [] {
      ReachedAreNodes(a.nodes.Keys, a.Keys().Keys, word);
    }
  }

  lemma ReachedAreNodes(N: set<Word>, K: set<Word>, word: Word)
    requires TrieOf(N, K) && word != []
    ensures word in N <==> Reaches(K, word)
  {
    if Reaches(K, word) {
      var k :| k in K && IsPrefix(word, k);
      PrefixesAreNodes(N, k, |word|);
      assert k[..|word|] == word;
    }
  }
}
