/** Trie nodes and their child tables. */
module TrieNodes {
  import opened Words

  // The bits of the `output` union: an object reference or an integer. Zero is the null reference.
  type Output = int

  /** What a node pointer may hold. Both serialisers overlay other data on pointer fields: `Raw` is a number
      that stands for a node not linked yet, `Tag` the number given to a node while it is dumped, together
      with the pointer it displaced. */
  datatype Ptr = Null | To(node: TrieNode) | Raw(bits: int) | Tag(id: nat, saved: Ptr)

  datatype Pair = Pair(letter: Letter, child: Ptr)

  class TrieNode {
    var output: Output
    var fail: Ptr
    var eow: bool
    var next: seq<Pair>
    ghost var word: Word  // the letters on the path from the root

    constructor (eow: bool)
      ensures output == 0 && fail == Null && this.eow == eow && next == []
    {
      output, fail, next := 0, Null, [];
      this.eow := eow;
    }

    method GetNext(letter: Letter) returns (child: Ptr)
      ensures child == Lookup(next, letter)
    {
      var i := 0;
      while i < |next|
        invariant 0 <= i <= |next|
        invariant Lookup(next, letter) == Lookup(next[i..], letter)
      {
        if next[i].letter == letter {
          return next[i].child;
        }
        i := i + 1;
      }
      child := Null;
    }

    method SetNext(letter: Letter, child: TrieNode)
      requires Lookup(next, letter) == Null
      modifies this`next
      ensures next == old(next) + [Pair(letter, To(child))]
    {
      next := next + [Pair(letter, To(child))];
    }

    /** Removes the first link to `child` and closes the gap. */
    method UnsetNextPointer(child: TrieNode) returns (found: bool, ghost index: nat)
      modifies this`next
      ensures found <==> exists i :: 0 <= i < |old(next)| && old(next)[i].child == To(child)
      ensures !found ==> next == old(next)
      ensures found ==> index < |old(next)| && old(next)[index].child == To(child)
                        && (forall i :: 0 <= i < index ==> old(next)[i].child != To(child))
                        && next == old(next)[..index] + old(next)[index + 1..]
    {
      var at := 0;
      index := 0;
      while at < |next| && next[at].child != To(child)
        invariant 0 <= at <= |next|
        invariant forall i :: 0 <= i < at ==> next[i].child != To(child)
      {
        at := at + 1;
      }
      if at == |next| {
        return false, index;
      }
      found, index := true, at;
      if |next| == 1 {
        next := [];
        return;
      }
      var table: seq<Pair> := [];
      var i := 0;
      while i < at
        invariant 0 <= i <= at && table == next[..i]
      {
        table := table + [next[i]];
        i := i + 1;
      }
      i := at + 1;
      while i < |next|
        invariant at < i <= |next| && table == next[..at] + next[at + 1..i]
      {
        table := table + [next[i]];
        i := i + 1;
      }
      next := table;
    }
  }

  function Lookup(next: seq<Pair>, letter: Letter): Ptr {
    if next == [] then Null
    else if next[0].letter == letter then next[0].child
    else Lookup(next[1..], letter)
  }

  /** A child table without duplicate letters whose links all lead to nodes. */
  ghost predicate Tidy(next: seq<Pair>) {
    (forall i :: 0 <= i < |next| ==> next[i].child.To?) &&
    forall i, j :: 0 <= i < j < |next| ==> next[i].letter != next[j].letter
  }

  lemma {:induction false} LookupFinds(next: seq<Pair>, i: nat)
    requires Tidy(next) && i < |next|
    ensures Lookup(next, next[i].letter) == next[i].child
    decreases i
  {
    if i > 0 {
      assert next[0].letter != next[i].letter;
      LookupFinds(next[1..], i - 1);
    }
  }

  lemma {:induction false} LookupMisses(next: seq<Pair>, letter: Letter)
    requires Tidy(next)
    ensures Lookup(next, letter) == Null <==> forall i :: 0 <= i < |next| ==> next[i].letter != letter
    ensures Lookup(next, letter) != Null ==>
              exists i :: 0 <= i < |next| && next[i] == Pair(letter, Lookup(next, letter))
  {
    if next != [] && next[0].letter != letter {
      LookupMisses(next[1..], letter);
      if Lookup(next, letter) != Null {
        var i :| 0 <= i < |next[1..]| && next[1..][i] == Pair(letter, Lookup(next, letter));
        assert next[i + 1] == Pair(letter, Lookup(next, letter));
      } else {
        forall i | 0 <= i < |next| ensures next[i].letter != letter {
          assert i > 0 ==> next[i] == next[1..][i - 1];
        }
      }
    }
  }

  /** Appending a link under a new letter adds that link and no other. */
  lemma {:induction false} LookupAppended(next: seq<Pair>, pair: Pair, c: Letter)
    requires Lookup(next, pair.letter) == Null && Tidy(next)
    ensures Lookup(next + [pair], c) == if c == pair.letter then pair.child else Lookup(next, c)
  {
    if next != [] {
      assert (next + [pair])[1..] == next[1..] + [pair];
      LookupAppended(next[1..], pair, c);
    }
  }

  /** Removing one link leaves the others. */
  lemma {:induction false} LookupRemoved(next: seq<Pair>, i: nat, c: Letter)
    requires Tidy(next) && i < |next|
    ensures Tidy(next[..i] + next[i + 1..])
    ensures Lookup(next[..i] + next[i + 1..], c) == if c == next[i].letter then Null else Lookup(next, c)
    decreases i
  {
    var rest := next[..i] + next[i + 1..];
    if i == 0 {
      assert rest == next[1..];
      LookupMisses(next[1..], c);
    } else {
      assert rest[1..] == next[1..][..i - 1] + next[1..][i..];
      LookupRemoved(next[1..], i - 1, c);
    }
  }
}
