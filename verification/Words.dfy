/** Words over an alphabet, and the longest-suffix theory behind the fail links. */
module Words {

  // A letter is only ever compared for equality (TRIE_LETTER_TYPE in the sources).
  type Letter(==, !new)
  type Word = seq<Letter>

  predicate IsSuffix(s: Word, t: Word) {
    |s| <= |t| && s == t[|t| - |s|..]
  }

  function Parent(w: Word): Word
    requires w != []
  {
    w[..|w| - 1]
  }

  /** The words spelled by the nodes of a trie: the empty word and, with each word, its prefixes. */
  ghost predicate PrefixClosed(N: set<Word>) {
    [] in N && forall w {:trigger Parent(w)} :: w in N && w != [] ==> Parent(w) in N
  }

  lemma {:induction false} PrefixesAreNodes(N: set<Word>, w: Word, k: nat)
    requires PrefixClosed(N) && w in N && k <= |w|
    ensures w[..k] in N
    decreases |w|
  {
    if k < |w| {
      assert Parent(w)[..k] == w[..k];
      PrefixesAreNodes(N, Parent(w), k);
    } else {
      assert w[..k] == w;
    }
  }

  lemma ShorterPrefix(N: set<Word>, w: Word, i: nat, k: nat)
    requires PrefixClosed(N) && i <= k <= |w|
    ensures w[..k] in N ==> w[..i] in N
  {
    if w[..k] in N {
      PrefixesAreNodes(N, w[..k], i);
      assert w[..k][..i] == w[..i];
    }
  }

  /** The longest suffix of `t` that is a node. */
  function LongestSuffix(N: set<Word>, t: Word): (s: Word)
    requires [] in N
    ensures s in N && |s| <= |t|
  {
    if t in N then t else LongestSuffix(N, t[1..])
  }

  lemma {:induction false} LongestSuffixIsSuffix(N: set<Word>, t: Word)
    requires [] in N
    ensures IsSuffix(LongestSuffix(N, t), t)
  {
    if t !in N {
      LongestSuffixIsSuffix(N, t[1..]);
    }
  }

  lemma {:induction false} LongestSuffixIsLongest(N: set<Word>, t: Word, u: Word)
    requires [] in N && u in N && IsSuffix(u, t)
    ensures |u| <= |LongestSuffix(N, t)|
  {
    if t !in N {
      assert IsSuffix(u, t[1..]);
      LongestSuffixIsLongest(N, t[1..], u);
    }
  }

  /** The longest proper suffix of `w` that is a node: where the fail link of `w` should point. */
  function Fail(N: set<Word>, w: Word): (s: Word)
    requires [] in N && w != []
    ensures s in N && |s| < |w|
  {
    LongestSuffix(N, w[1..])
  }

  lemma FailIsSuffix(N: set<Word>, w: Word)
    requires [] in N && w != []
    ensures IsSuffix(Fail(N, w), w)
  {
    LongestSuffixIsSuffix(N, w[1..]);
  }

  lemma FailIsLongest(N: set<Word>, w: Word, u: Word)
    requires [] in N && w != [] && u in N && IsSuffix(u, w) && |u| < |w|
    ensures |u| <= |Fail(N, w)|
  {
    assert IsSuffix(u, w[1..]);
    LongestSuffixIsLongest(N, w[1..], u);
  }

  lemma NodeIsItsSuffix(N: set<Word>, n: Word)
    requires [] in N && n in N
    ensures LongestSuffix(N, n) == n
  {
  }

  lemma MissAtRoot(N: set<Word>, c: Letter)
    requires [] in N && [] + [c] !in N
    ensures LongestSuffix(N, [] + [c]) == []
  {
    assert ([] + [c])[1..] == [];
  }

  /** Reading a letter needs only the longest suffix read so far, not the whole text. */
  lemma {:induction false} Advance(N: set<Word>, t: Word, c: Letter)
    requires PrefixClosed(N)
    ensures LongestSuffix(N, t + [c]) == LongestSuffix(N, LongestSuffix(N, t) + [c])
  {
    if t !in N {
      assert Parent(t + [c]) == t;
      assert (t + [c])[1..] == t[1..] + [c];
      Advance(N, t[1..], c);
    }
  }

  /** Following one fail link does not lose the longest suffix that can read `c`. */
  lemma FailStep(N: set<Word>, s: Word, c: Letter)
    requires PrefixClosed(N) && s != [] && s + [c] !in N
    ensures LongestSuffix(N, s + [c]) == LongestSuffix(N, Fail(N, s) + [c])
  {
    assert (s + [c])[1..] == s[1..] + [c];
    Advance(N, s[1..], c);
  }

  /** The fail link of a child is found from the fail link of its parent. */
  lemma FailOfChild(N: set<Word>, w: Word, c: Letter)
    requires PrefixClosed(N) && w != []
    ensures Fail(N, w + [c]) == LongestSuffix(N, Fail(N, w) + [c])
  {
    assert (w + [c])[1..] == w[1..] + [c];
    Advance(N, w[1..], c);
  }

  lemma SuffixesNest(r: Word, s: Word, t: Word)
    requires IsSuffix(r, t) && IsSuffix(s, t) && |r| <= |s|
    ensures IsSuffix(r, s)
  {
  }

  /** N spells the nodes of the trie that holds the keys K. */
  ghost predicate TrieOf(N: set<Word>, K: set<Word>) {
    PrefixClosed(N) && K <= N && [] !in K &&
    forall w {:trigger Reaches(K, w)} :: w in N && w != [] ==> Reaches(K, w)
  }

  ghost predicate Reaches(K: set<Word>, w: Word) {
    exists k :: k in K && IsPrefix(w, k)
  }

  predicate IsPrefix(u: Word, w: Word) {
    u <= w
  }

  lemma PrefixesOfSnoc(w: Word, c: Letter)
    ensures forall u :: IsPrefix(u, w + [c]) <==> IsPrefix(u, w) || u == w + [c]
  {
    forall u ensures IsPrefix(u, w + [c]) <==> IsPrefix(u, w) || u == w + [c] {
      if u <= w + [c] && |u| <= |w| {
        assert u == (w + [c])[..|u|] == w[..|u|];
      }
    }
  }
}
