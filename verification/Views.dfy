/** Iterators as values: what is still to come from each of them, and how it follows the dictionary. */
module Views {
  import opened Options
  import opened Words
  import opened TrieNodes
  import opened Matches
  import opened Longest
  import opened Traversal
  import opened Patterns
  import opened Automata
  import opened Dicts
  import SearchIters
  import ItemsIters

  // ---------------------------------------------------------------- when keys go

  function KeptWords(ws: seq<Word>, K: set<Word>): seq<Word> {
    if ws == [] then [] else (if ws[0] in K then [ws[0]] else []) + KeptWords(ws[1..], K)
  }

  function KeptHits(hits: seq<Hit>, K: set<Word>): seq<Hit> {
    if hits == [] then [] else (if hits[0].key in K then [hits[0]] else []) + KeptHits(hits[1..], K)
  }

  lemma KeptFirst(w: Word, ws: seq<Word>, K: set<Word>)
    ensures KeptWords([w] + ws, K) == (if w in K then [w] else []) + KeptWords(ws, K)
  {
    assert ([w] + ws)[1..] == ws;
  }

  lemma KeptFirstHit(h: Hit, hits: seq<Hit>, K: set<Word>)
    ensures KeptHits([h] + hits, K) == (if h.key in K then [h] else []) + KeptHits(hits, K)
  {
    assert ([h] + hits)[1..] == hits;
  }

  lemma {:induction false} KeptWordsConcat(f: seq<Word>, g: seq<Word>, K: set<Word>)
    ensures KeptWords(f + g, K) == KeptWords(f, K) + KeptWords(g, K)
  {
    if f == [] {
      assert f + g == g;
    } else {
      KeptWordsConcat(f[1..], g, K);
      KeptFirst(f[0], f[1..] + g, K);
      assert f + g == [f[0]] + (f[1..] + g);
    }
  }

  lemma {:induction false} KeptHitsConcat(f: seq<Hit>, g: seq<Hit>, K: set<Word>)
    ensures KeptHits(f + g, K) == KeptHits(f, K) + KeptHits(g, K)
  {
    if f == [] {
      assert f + g == g;
    } else {
      KeptHitsConcat(f[1..], g, K);
      KeptFirstHit(f[0], f[1..] + g, K);
      assert f + g == [f[0]] + (f[1..] + g);
    }
  }

  lemma {:induction false} KeptAt(i: int, ks: seq<Word>, K: set<Word>)
    ensures KeptHits(At(i, ks), K) == At(i, KeptWords(ks, K))
  {
    if ks != [] {
      KeptAt(i, ks[1..], K);
      KeptFirstHit(Hit(i, ks[0]), At(i, ks[1..]), K);
      var rest := KeptWords(ks[1..], K);
      AtFirst(i, ks[0], rest);
      assert KeptWords(ks, K) == if ks[0] in K then [ks[0]] + rest else rest;
      assert KeptHits(At(i, ks), K) == if ks[0] in K then [Hit(i, ks[0])] + At(i, rest) else At(i, rest);
    }
  }

  lemma AtFirst(i: int, k: Word, ks: seq<Word>)
    ensures At(i, [k] + ks) == [Hit(i, k)] + At(i, ks)
  {
    assert ([k] + ks)[1..] == ks;
  }

  lemma {:induction false} KeptChain(N: set<Word>, K: set<Word>, K': set<Word>, s: Word)
    requires [] in N && K' <= K
    ensures KeptWords(FailChain(N, K, s), K') == FailChain(N, K', s)
    decreases |s|
  {
    if s != [] {
      KeptChain(N, K, K', Fail(N, s));
      KeptFirst(s, FailChain(N, K, Fail(N, s)), K');
    }
  }

  lemma {:induction false} KeptSuffixes(K: set<Word>, K': set<Word>, t: Word)
    requires K' <= K
    ensures KeptWords(SuffixKeys(K, t), K') == SuffixKeys(K', t)
  {
    if t != [] {
      KeptSuffixes(K, K', t[1..]);
      KeptFirst(t, SuffixKeys(K, t[1..]), K');
    }
  }

  /** Fewer keys, read over the same letters, leave just their own hits. */
  lemma {:induction false} KeptRun(K: set<Word>, K': set<Word>, history: Word, feed: seq<Cell>)
    requires K' <= K
    ensures KeptHits(Run(K, history, feed), K') == Run(K', history, feed)
    decreases |feed|
  {
    if feed != [] {
      var h := history + [feed[0].letter];
      KeptRun(K, K', h, feed[1..]);
      KeptSuffixes(K, K', h);
      KeptAt(feed[0].at, SuffixKeys(K, h), K');
      KeptHitsConcat(At(feed[0].at, SuffixKeys(K, h)), Run(K, h, feed[1..]), K');
    }
  }

  lemma {:induction false} KeptWalk(T: Table, K: set<Word>, K': set<Word>, p: Pattern, w: Word, bound: nat)
    requires TreeTable(T) && Bounded(T.Keys, bound) && w in T && K' <= K
    ensures KeptWords(Walk(T, K, p, w, bound), K') == Walk(T, K', p, w, bound)
    decreases bound - |w|, |T[w]| + 2
  {
    if !p.Drops(|w|) {
      ChosenLetters(T, p, w);
      var letters := p.Chosen(T[w], |w|);
      KeptChildren(T, K, K', p, w, letters, bound);
      var own := if p.LengthFits(|w|) && w in K then [w] else [];
      KeptWordsConcat(own, WalkChildren(T, K, p, w, letters, bound), K');
    }
  }

  lemma {:induction false} KeptChildren(T: Table, K: set<Word>, K': set<Word>, p: Pattern, w: Word,
                                        letters: seq<Letter>,
                                        bound: nat)
    requires TreeTable(T) && Bounded(T.Keys, bound) && w in T && K' <= K
    requires |letters| <= |T[w]| + 1 && forall c :: c in letters ==> w + [c] in T
    ensures KeptWords(WalkChildren(T, K, p, w, letters, bound), K') == WalkChildren(T, K', p, w, letters, bound)
    decreases bound - |w|, |letters|
  {
    if letters != [] {
      var last, rest := letters[|letters| - 1], letters[..|letters| - 1];
      assert last in letters;
      KeptWalk(T, K, K', p, w + [last], bound);
      KeptChildren(T, K, K', p, w, rest, bound);
      KeptWordsConcat(Walk(T, K, p, w + [last], bound), WalkChildren(T, K, p, w, rest, bound), K');
    }
  }

  lemma {:induction false} KeptStack(T: Table, K: set<Word>, K': set<Word>, p: Pattern, ws: seq<Word>, bound: nat)
    requires TreeTable(T) && Bounded(T.Keys, bound) && (forall w :: w in ws ==> w in T) && K' <= K
    ensures KeptWords(WalkStack(T, K, p, ws, bound), K') == WalkStack(T, K', p, ws, bound)
  {
    if ws != [] {
      KeptWalk(T, K, K', p, ws[0], bound);
      KeptStack(T, K, K', p, ws[1..], bound);
      KeptWordsConcat(Walk(T, K, p, ws[0], bound), WalkStack(T, K, p, ws[1..], bound), K');
    }
  }

  // ---------------------------------------------------------------- views

  /** What an iterator has left: the hits or keys to come, or the slice a longest-match search still has to scan. */
  datatype Left =
    | Hits(hits: seq<Hit>)
    | Scan(text: Word, from: int, end: int)
    | Listing(kind: ItemsIters.ItemsType, keys: seq<Word>)

  /** An iterator made at a version of the automaton. */
  datatype View = View(version: int, left: Left)

  datatype Answer =
    | Replied(reply: Reply)
    | Opened
    | Refused
    | Changed
    | Stop
    | Match(report: SearchIters.Report)
    | Listed(item: ItemsIters.Item)

  function ValueOf(keys: map<Word, Output>, k: Word): Output {
    if k in keys then keys[k] else 0
  }

  ghost predicate Scannable(N: set<Word>, text: Word, from: int, end: int) {
    [] in N && 0 <= from && end <= |text|
  }

  /** The next longest match, if there is one. */
  ghost function NextSpan(d: Dict, text: Word, from: int, end: int): Option<Hit> {
    if !Scannable(d.links.Keys, text, from, end) then None
    else Long(d.links.Keys, d.keys.Keys, text, [], from, end, None)
  }

  /** What the iterator answers while the dictionary is `d`: an error exactly if the version has changed. */
  ghost function AnswerOf(v: View, d: Dict): Answer {
    if v.version != d.version then Changed
    else
      match v.left
      case Hits(hits) =>
        if hits == [] then Stop else Match(SearchIters.Report(hits[0].end, ValueOf(d.keys, hits[0].key)))
      case Scan(text, from, end) =>
        var h := NextSpan(d, text, from, end);
        if h.None? then Stop else Match(SearchIters.Report(h.value.end, ValueOf(d.keys, h.value.key)))
      case Listing(kind, keys) =>
        if keys == [] then Stop else Listed(ItemsIters.ItemFor(kind, keys[0], ValueOf(d.keys, keys[0])))
  }

  /** What is left after that. */
  ghost function Stepped(v: View, d: Dict): View {
    if v.version != d.version then v
    else
      match v.left
      case Hits(hits) => v.(left := Hits(if hits == [] then [] else hits[1..]))
      case Scan(text, from, end) =>
        var h := NextSpan(d, text, from, end);
        v.(left := Scan(text, if h.Some? then h.value.end + 1 else if from < end then end else from, end))
      case Listing(kind, keys) => v.(left := Listing(kind, if keys == [] then [] else keys[1..]))
  }

  /** What is left when only the keys K remain. */
  ghost function Keep(v: View, K: set<Word>): View {
    match v.left
    case Hits(hits) => v.(left := Hits(KeptHits(hits, K)))
    case Scan(_, _, _) => v
    case Listing(kind, keys) => v.(left := Listing(kind, KeptWords(keys, K)))
  }

  ghost function KeepViews(views: seq<View>, K: set<Word>): (r: seq<View>)
    ensures |r| == |views| && forall i :: 0 <= i < |r| ==> r[i] == Keep(views[i], K)
  {
    seq(|views|, i requires 0 <= i < |views| => Keep(views[i], K))
  }

  // ---------------------------------------------------------------- runs with iterators

  /** A call of `iter`, of `iter_long`, or of `keys`, `values` or `items`. */
  datatype Request =
    | Find(text: Word, start: int, end: int, isSpace: Letter -> bool, ignoreWhiteSpace: bool)
    | FindLong(text: Word, start: int, end: int)
    | List(pattern: Pattern, kind: ItemsIters.ItemsType, junk: Letter)
  {
    predicate InBounds() {
      !List? ==> 0 <= start && end <= |text|
    }
  }

  datatype Action = Update(op: Op) | Step(i: nat) | Open(request: Request)

  ghost function Updates(actions: seq<Action>): seq<Op> {
    if actions == [] then []
    else (if actions[0].Update? then [actions[0].op] else []) + Updates(actions[1..])
  }

  /** A search needs fail links. */
  ghost predicate Refuses(d: Dict, request: Request) {
    !request.List? && d.kind != AhoCorasick
  }

  /** What a new iterator has before it: every occurrence, the whole slice, or the matching keys in some order. */
  ghost predicate Suits(d: Dict, request: Request, v: View)
    requires request.InBounds()
  {
    && v.version == d.version
    && match request
       case Find(text, start, end, isSpace, ignoreWhiteSpace) =>
         v.left == Hits(Run(d.keys.Keys, [], Feed(if ignoreWhiteSpace then isSpace else KeepAll, text, start, end, 0)))
       case FindLong(text, start, end) => v.left == Scan(text, start, end)
       case List(pattern, kind, _) =>
         && v.left.Listing? && v.left.kind == kind && Distinct(v.left.keys)
         && forall k :: k in v.left.keys <==>
              && k in d.keys
              && (match pattern.how
                  case ExactLength => |k| == |pattern.letters|
                  case AtMostPrefix => |k| <= |pattern.letters|
                  case AtLeastPrefix => |k| >= |pattern.letters|)
              && forall j :: 0 <= j < |k| && j < |pattern.letters| ==>
                   pattern.wildcard == Some(pattern.letters[j]) || k[j] == pattern.letters[j]
  }

  ghost predicate AllInBounds(actions: seq<Action>) {
    forall j :: 0 <= j < |actions| && actions[j].Open? ==> actions[j].request.InBounds()
  }

  /** The views `begun` suit the iterators that the run makes. */
  ghost predicate AllSuit(d: Dict, actions: seq<Action>, begun: seq<View>)
    requires AllInBounds(actions)
    decreases |actions|
  {
    if actions == [] then begun == []
    else
      match actions[0]
      case Update(op) => AllSuit(d.After(op), actions[1..], begun)
      case Step(_) => AllSuit(d, actions[1..], begun)
      case Open(request) =>
        if Refuses(d, request) then AllSuit(d, actions[1..], begun)
        else begun != [] && Suits(d, request, begun[0]) && AllSuit(d, actions[1..], begun[1..])
  }

  /** All answers of a run: those of the operations and those of the iterators. The iterators it makes start with the
      views `begun`. */
  ghost function Trace(d: Dict, views: seq<View>, actions: seq<Action>, begun: seq<View>): seq<Answer>
    decreases |actions|
  {
    if actions == [] then []
    else
      match actions[0]
      case Update(op) =>
        [Replied(d.Answer(op))] + Trace(d.After(op), KeepViews(views, d.After(op).keys.Keys), actions[1..], begun)
      case Step(i) =>
        if i >= |views| then Trace(d, views, actions[1..], begun)
        else [AnswerOf(views[i], d)] + Trace(d, views[i := Stepped(views[i], d)], actions[1..], begun)
      case Open(request) =>
        if Refuses(d, request) || begun == [] then [Refused] + Trace(d, views, actions[1..], begun)
        else [Opened] + Trace(d, views + [begun[0]], actions[1..], begun[1..])
  }

  /** Lists can be opened at any time, searches exactly with fail links. */
  lemma OpenAnswer(d: Dict, views: seq<View>, request: Request, v: View)
    ensures Trace(d, views, [Open(request)], [v]) ==
              [if request.List? || d.kind == AhoCorasick then Opened else Refused]
  {
    assert [Open(request)][1..] == [] && [v][1..] == [];
  }

  /** An iterator can be used after an operation: nodes were not freed since it began without changing the version. */
  ghost function SoundAfter(d: Dict, sound: seq<bool>, op: Op): (r: seq<bool>)
    ensures |r| == |sound|
    ensures forall i :: 0 <= i < |sound| ==> r[i] == (d.Bumps(op) || (sound[i] && !d.Frees(op)))
  {
    seq(|sound|, i requires 0 <= i < |sound| => d.Bumps(op) || (sound[i] && !d.Frees(op)))
  }

  ghost function SoundAtEnd(d: Dict, sound: seq<bool>, actions: seq<Action>): seq<bool>
    decreases |actions|
  {
    if actions == [] then sound
    else
      match actions[0]
      case Update(op) => SoundAtEnd(d.After(op), SoundAfter(d, sound, op), actions[1..])
      case Step(_) => SoundAtEnd(d, sound, actions[1..])
      case Open(request) => SoundAtEnd(d, if Refuses(d, request) then sound else sound + [true], actions[1..])
  }

  /** No iterator of the current version is stepped after nodes were freed under that version since it began. */
  ghost predicate Safe(d: Dict, sound: seq<bool>, versions: seq<int>, actions: seq<Action>)
    requires |sound| == |versions|
    decreases |actions|
  {
    actions == [] ||
    match actions[0]
    case Update(op) => Safe(d.After(op), SoundAfter(d, sound, op), versions, actions[1..])
    case Step(i) => i < |versions| && (sound[i] || versions[i] != d.version) && Safe(d, sound, versions, actions[1..])
    case Open(request) =>
      if Refuses(d, request) then Safe(d, sound, versions, actions[1..])
      else Safe(d, sound + [true], versions + [d.version], actions[1..])
  }

  /** Every step is one of an iterator that is there. */
  ghost predicate Aimed(d: Dict, count: nat, actions: seq<Action>)
    decreases |actions|
  {
    actions == [] ||
    match actions[0]
    case Update(op) => Aimed(d.After(op), count, actions[1..])
    case Step(i) => i < count && Aimed(d, count, actions[1..])
    case Open(request) => Aimed(d, if Refuses(d, request) then count else count + 1, actions[1..])
  }

  /** While no zero is stored, every interleaving is safe. */
  lemma {:induction false} SafeWithoutZeros(d: Dict, sound: seq<bool>, versions: seq<int>, actions: seq<Action>)
    requires |sound| == |versions| && (forall i :: 0 <= i < |sound| ==> sound[i])
    requires (forall k :: k in d.keys ==> d.keys[k] != 0) && Aimed(d, |versions|, actions)
    requires forall j :: 0 <= j < |actions| && actions[j].Update? ==> StoresNonzero(actions[j].op)
    ensures Safe(d, sound, versions, actions)
    ensures forall i :: 0 <= i < |SoundAtEnd(d, sound, actions)| ==> SoundAtEnd(d, sound, actions)[i]
    decreases |actions|
  {
    if actions != [] {
      match actions[0]
      case Update(op) =>
        NonzeroAfter(d, op);
        SafeWithoutZeros(d.After(op), SoundAfter(d, sound, op), versions, actions[1..]);
      case Step(i) =>
        SafeWithoutZeros(d, sound, versions, actions[1..]);
      case Open(request) =>
        if Refuses(d, request) {
          SafeWithoutZeros(d, sound, versions, actions[1..]);
        } else {
          SafeWithoutZeros(d, sound + [true], versions + [d.version], actions[1..]);
        }
    }
  }

  lemma NonzeroAfter(d: Dict, op: Op)
    requires StoresNonzero(op) && forall k :: k in d.keys ==> d.keys[k] != 0
    ensures (forall k :: k in d.After(op).keys ==> d.After(op).keys[k] != 0) && (d.Bumps(op) || !d.Frees(op))
  {
    hide Among, Extended, Dict.Needed, LinksFor;
  }
}
