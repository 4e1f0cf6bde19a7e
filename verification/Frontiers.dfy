/** The words side of the breadth-first construction: which nodes are linked already, and why the order is safe. */
module Frontiers {
  import opened Words
  import opened Costs

  /** The child of `p` under `c` has been reached: `w` is being expanded and is through with the letters in
      `part`, the nodes in the queue `q` wait, all other reached nodes are through with their children. */
  ghost predicate Expanded(done: set<Word>, q: seq<Word>, w: Word, part: set<Letter>, p: Word, c: Letter) {
    if p == w then c in part else p !in q && (p == [] || p in done)
  }

  /** The reached nodes `done` are the children reached so far; the queue holds different nodes by depth and
      spans at most the level of `w` and the next. */
  ghost predicate Frontier(N: set<Word>, done: set<Word>, q: seq<Word>, w: Word, part: set<Letter>) {
    && PrefixClosed(N) && done <= N && [] !in done && (w == [] || w in done)
    && (forall i :: 0 <= i < |q| ==> q[i] in done && q[i] != w && |w| <= |q[i]| <= |w| + 1)
    && (forall i, j :: 0 <= i < j < |q| ==> q[i] != q[j] && |q[i]| <= |q[j]|)
    && (forall u {:trigger Parent(u)} :: u in N && u != [] ==>
          (u in done <==> Expanded(done, q, w, part, Parent(u), u[|u| - 1])))
  }

  lemma Begin(N: set<Word>)
    requires PrefixClosed(N)
    ensures Frontier(N, {}, [], [], {})
  {
  }

  /** Reaching one more child of `w`. */
  lemma Reach(N: set<Word>, done: set<Word>, q: seq<Word>, w: Word, part: set<Letter>, c: Letter)
    requires Frontier(N, done, q, w, part) && w + [c] in N && c !in part
    ensures w + [c] !in done
    ensures Frontier(N, done + {w + [c]}, q + [w + [c]], w, part + {c})
  {
    var u := w + [c];
    assert Parent(u) == w && u[|u| - 1] == c;
    assert u !in done;
    var done', q', part' := done + {u}, q + [u], part + {c};
    forall x {:trigger Parent(x)} | x in N && x != []
      ensures x in done' <==> Expanded(done', q', w, part', Parent(x), x[|x| - 1])
    {
      if Parent(x) == w {
        assert x == w + [x[|x| - 1]];
      }
      assert x == u ==> Parent(x) == w;
    }
  }

  /** Taking the next node off the queue once `w` is through with its children. */
  lemma Turn(N: set<Word>, done: set<Word>, q: seq<Word>, w: Word, part: set<Letter>)
    requires Frontier(N, done, q, w, part) && q != []
    requires forall c :: w + [c] in N ==> c in part
    ensures Frontier(N, done, q[1..], q[0], {})
  {
    var v, rest := q[0], q[1..];
    forall x {:trigger Parent(x)} | x in N && x != []
      ensures x in done <==> Expanded(done, rest, v, {}, Parent(x), x[|x| - 1])
    {
      assert x == Parent(x) + [x[|x| - 1]];
      assert forall p :: p in q <==> p == v || p in rest;
    }
  }

  /** While `w` is expanded, every node up to its depth is reached. */
  lemma {:induction false} LevelDone(N: set<Word>, done: set<Word>, q: seq<Word>, w: Word, part: set<Letter>, u: Word)
    requires Frontier(N, done, q, w, part)
    requires u in N && u != [] && |u| <= |w|
    ensures u in done
    decreases |u|
  {
    if |u| > 1 {
      LevelDone(N, done, q, w, part, Parent(u));
    }
    assert Parent(u) !in q;
  }

  /** With the queue empty, every node is reached. */
  lemma {:induction false} AllDone(N: set<Word>, done: set<Word>, w: Word, part: set<Letter>, u: Word)
    requires Frontier(N, done, [], w, part) && forall c :: w + [c] in N ==> c in part
    requires u in N && u != []
    ensures u in done
    decreases |u|
  {
    assert u == Parent(u) + [u[|u| - 1]];
    if Parent(u) != [] {
      AllDone(N, done, w, part, Parent(u));
    }
  }

  // ---------------------------------------------------------------- the cost of the construction

  ghost function Sum(S: set<Word>, cost: map<Word, nat>): nat
    requires S <= cost.Keys
  {
    if S == {} then 0 else
      var u :| u in S;
      cost[u] + Sum(S - {u}, cost)
  }

  lemma {:induction false} SumOne(S: set<Word>, cost: map<Word, nat>, u: Word)
    requires S <= cost.Keys && u in S
    ensures Sum(S, cost) == cost[u] + Sum(S - {u}, cost)
    decreases |S|
  {
    var v :| v in S && Sum(S, cost) == cost[v] + Sum(S - {v}, cost);
    if u != v {
      SumOne(S - {v}, cost, u);
      SumOne(S - {u}, cost, v);
      assert S - {v} - {u} == S - {u} - {v};
    }
  }

  lemma {:induction false} SumSame(S: set<Word>, cost: map<Word, nat>, cost': map<Word, nat>)
    requires S <= cost.Keys && S <= cost'.Keys && forall u :: u in S ==> cost[u] == cost'[u]
    ensures Sum(S, cost) == Sum(S, cost')
    decreases |S|
  {
    if S != {} {
      var u :| u in S;
      SumOne(S, cost, u);
      SumOne(S, cost', u);
      SumSame(S - {u}, cost, cost');
    }
  }

  /** Sums over overlapping sets count at least everything once. */
  lemma {:induction false} SumUnion(A: set<Word>, B: set<Word>, C: set<Word>, cost: map<Word, nat>)
    requires C <= A + B <= cost.Keys
    ensures Sum(C, cost) <= Sum(A, cost) + Sum(B, cost)
    decreases |C|
  {
    if C != {} {
      var u :| u in C;
      SumOne(C, cost, u);
      if u in A {
        SumOne(A, cost, u);
        SumUnion(A - {u}, B, C - {u}, cost);
      } else {
        SumOne(B, cost, u);
        SumUnion(A, B - {u}, C - {u}, cost);
      }
    }
  }

  ghost function TotalLength(K: set<Word>): nat {
    if K == {} then 0 else
      var k :| k in K;
      |k| + TotalLength(K - {k})
  }

  lemma {:induction false} TotalLengthOne(K: set<Word>, k: Word)
    requires k in K
    ensures TotalLength(K) == |k| + TotalLength(K - {k})
    decreases |K|
  {
    var v :| v in K && TotalLength(K) == |v| + TotalLength(K - {v});
    if k != v {
      TotalLengthOne(K - {v}, k);
      TotalLengthOne(K - {k}, v);
      assert K - {v} - {k} == K - {k} - {v};
    }
  }

  /** The steps spent on a node are paid by the difference in depth of the fail links above and at it. */
  ghost predicate Paid(N: set<Word>, cost: map<Word, nat>)
    requires [] in N
  {
    cost.Keys <= N - {[]} && forall u :: u in cost ==>
      cost[u] + |Fail(N, u)| <= if |u| == 1 then 0 else |Fail(N, Parent(u))| + 1
  }

  ghost function PathTo(k: Word): set<Word> {
    set i | 1 <= i <= |k| :: k[..i]
  }

  lemma PathToParent(k: Word)
    requires k != []
    ensures PathTo(k) == PathTo(Parent(k)) + {k} && k !in PathTo(Parent(k))
  {
    var p := Parent(k);
    forall u ensures u in PathTo(k) <==> u in PathTo(p) || u == k {
      if u in PathTo(k) && u != k {
        var i :| 1 <= i <= |k| && k[..i] == u;
        assert i < |k| && p[..i] == u;
      }
      if u in PathTo(p) {
        var i :| 1 <= i <= |p| && p[..i] == u;
        assert k[..i] == u;
      }
      assert k[..|k|] == k;
    }
  }

  /** Along the path of one key the steps telescope to at most its length. */
  lemma {:induction false} PathCost(N: set<Word>, cost: map<Word, nat>, k: Word)
    requires PrefixClosed(N) && Paid(N, cost) && PathTo(k) <= cost.Keys
    ensures Sum(PathTo(k), cost) + (if k == [] then 0 else |Fail(N, k)|) <= |k|
    decreases |k|
  {
    if k != [] {
      var p := Parent(k);
      PathToParent(k);
      PathCost(N, cost, p);
      SumOne(PathTo(k), cost, k);
      assert PathTo(k) - {k} == PathTo(p);
    }
  }

  /** All nodes lie on paths of keys, so all steps together are bounded by the total key length. */
  lemma {:induction false} CostIsLinear(N: set<Word>, K: set<Word>, S: set<Word>, cost: map<Word, nat>)
    requires PrefixClosed(N) && Paid(N, cost) && N - {[]} <= cost.Keys && K <= N
    requires S <= cost.Keys && forall u :: u in S ==> Reaches(K, u)
    ensures Sum(S, cost) <= TotalLength(K)
    decreases |K|
  {
    if K == {} {
      assert S == {};
    } else {
      var k :| k in K;
      var path := PathTo(k);
      forall u | u in path ensures u in cost {
        PathIsNodes(N, k, u);
      }
      TotalLengthOne(K, k);
      var rest := set u | u in S && Reaches(K - {k}, u);
      CostIsLinear(N, K - {k}, rest, cost);
      PathCost(N, cost, k);
      forall u | u in S ensures u in path + rest {
        assert Reaches(K, u);
        var k' :| k' in K && IsPrefix(u, k');
        if k' == k {
          assert u == k[..|u|] && u != [];
        } else {
          assert k' in K - {k};
        }
      }
      SumUnion(path, rest, S, cost);
    }
  }

  lemma PathIsNodes(N: set<Word>, k: Word, u: Word)
    requires PrefixClosed(N) && k in N && u in PathTo(k)
    ensures u in N && u != []
  {
    var i :| 1 <= i <= |k| && k[..i] == u;
    PrefixesAreNodes(N, k, i);
  }

  /** What make_automaton spends on each node. */
  ghost function StepsAt(N: set<Word>): map<Word, nat>
    requires [] in N
  {
    map u | u in N && u != [] :: LinkSteps(N, u)
  }

  /** All fail links that make_automaton follows. */
  ghost function BuildSteps(N: set<Word>): nat
    requires [] in N
  {
    Sum(N - {[]}, StepsAt(N))
  }

  lemma StepsArePaid(N: set<Word>)
    requires PrefixClosed(N)
    ensures Paid(N, StepsAt(N))
  {
    forall u | u in N && u != []
      ensures LinkSteps(N, u) + |Fail(N, u)| <= if |u| == 1 then 0 else |Fail(N, Parent(u))| + 1 {
      var p, c := Parent(u), u[|u| - 1];
      assert u == p + [c];
      if |u| > 1 {
        FailOfChild(N, p, c);
        FailStepsBounded(N, Fail(N, p), c);
      }
    }
  }

  /** The nodes with the nodes whose fail links are followed for them. */
  ghost function AllFollowed(N: set<Word>, S: set<Word>): set<(Word, Word)>
    requires [] in N && [] !in S
  {
    set w, u | w in S && u in Followed(N, w) :: (w, u)
  }

  lemma {:induction false} SumFollowed(N: set<Word>, S: set<Word>)
    requires PrefixClosed(N) && S <= N && [] !in S
    ensures Sum(S, StepsAt(N)) == |AllFollowed(N, S)|
    decreases |S|
  {
    hide Followed, LinkSteps;
    if S == {} {
      assert AllFollowed(N, S) == {};
    } else {
      var w :| w in S;
      SumOne(S, StepsAt(N), w);
      SumFollowed(N, S - {w});
      LinkStepsAre(N, w);
      PairsCount(w, Followed(N, w));
      assert AllFollowed(N, S) == AllFollowed(N, S - {w}) + Paired(w, Followed(N, w));
      assert AllFollowed(N, S - {w}) !! Paired(w, Followed(N, w));
    }
  }

  /** The fail links followed by the construction, one pair for each: a node, and a proper suffix of its parent no
      shorter than its fail target. */
  lemma BuildStepsAre(N: set<Word>)
    requires PrefixClosed(N)
    ensures BuildSteps(N) == |AllFollowed(N, N - {[]})|
  {
    SumFollowed(N, N - {[]});
  }

  /** The construction follows at most as many fail links as the keys have letters. */
  lemma BuildIsLinear(N: set<Word>, K: set<Word>)
    requires TrieOf(N, K)
    ensures BuildSteps(N) <= TotalLength(K)
  {
    StepsArePaid(N);
    CostIsLinear(N, K, N - {[]}, StepsAt(N));
  }
}
