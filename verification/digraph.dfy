/** Graph theory over a set of directed connections between integer node ids:
    neighbourhoods, walks, cycles, reachability, and an executable acyclicity test
    (repeatedly removing the nodes that have no predecessor left) proved equivalent
    to the absence of a closed walk. */
module Digraph {
  import opened Components

  /** Ids with a connection into `n`. */
  function Preds(edges: set<Connection>, n: int): set<int>
  {
    set e | e in edges && e.end == n :: e.start
  }

  /** Ids with a connection out of `n`. */
  function Succs(edges: set<Connection>, n: int): set<int>
  {
    set e | e in edges && e.start == n :: e.end
  }

  lemma NeighbourMember(edges: set<Connection>, n: int, m: int)
    ensures m in Succs(edges, n) <==> Connection(n, m) in edges
    ensures m in Preds(edges, n) <==> Connection(m, n) in edges
  {
    if Connection(n, m) in edges {
      assert Connection(n, m).end == m;
    }
    if Connection(m, n) in edges {
      assert Connection(m, n).start == m;
    }
  }

  /** Every node of `p` is followed by one of its successors. */
  ghost predicate IsWalk(edges: set<Connection>, p: seq<int>)
  {
    forall i :: 0 <= i < |p| - 1 ==> Connection(p[i], p[i + 1]) in edges
  }

  /** `p` is a walk from `a` to `b` (a single node is a walk from itself to itself). */
  ghost predicate WalkBetween(edges: set<Connection>, p: seq<int>, a: int, b: int)
  {
    |p| >= 1 && p[0] == a && p[|p| - 1] == b && IsWalk(edges, p)
  }

  ghost predicate Reachable(edges: set<Connection>, a: int, b: int)
  {
    exists p :: WalkBetween(edges, p, a, b)
  }

  /** A closed walk of at least one connection (a self-loop is a cycle). */
  ghost predicate IsCycle(edges: set<Connection>, p: seq<int>)
  {
    |p| >= 2 && p[0] == p[|p| - 1] && IsWalk(edges, p)
  }

  /** The declarative notion: no closed walk at all. */
  ghost predicate Acyclic(edges: set<Connection>)
  {
    forall p :: !IsCycle(edges, p)
  }

  /** Every connection joins two of the given nodes. */
  ghost predicate EdgesWithin(edges: set<Connection>, nodes: set<int>)
  {
    forall e :: e in edges ==> e.start in nodes && e.end in nodes
  }

  /** The nodes of `rem` that have no predecessor inside `rem`. */
  function Sources(edges: set<Connection>, rem: set<int>): set<int>
  {
    set x | x in rem && Preds(edges, x) !! rem
  }

  /** Removes sources round by round; what is left when no source remains. */
  function Peel(edges: set<Connection>, rem: set<int>): (stuck: set<int>)
    ensures stuck <= rem
    ensures Sources(edges, stuck) == {}
    decreases |rem|
  {
    var s := Sources(edges, rem);
    if s == {} then rem
    else
      var x :| x in s;
      assert x !in rem - s;
      Peel(edges, rem - s)
  }

  /** Executable acyclicity test over a node set: everything can be peeled away. */
  function IsDag(nodes: set<int>, edges: set<Connection>): bool
  {
    Peel(edges, nodes) == {}
  }

  /** Every node of a cycle has a predecessor on the cycle. */
  lemma CycleNodeHasPred(edges: set<Connection>, p: seq<int>, i: int)
    requires IsCycle(edges, p)
    requires 0 <= i < |p|
    ensures exists j :: 0 <= j < |p| && p[j] in Preds(edges, p[i])
  {
    var j := if i == 0 then |p| - 2 else i - 1;
    assert Connection(p[j], p[j + 1]) in edges;
    assert p[j + 1] == p[i];
  }

  /** Peeling never removes a node that lies on a cycle inside the remaining set. */
  lemma {:induction false} CycleSurvivesPeel(edges: set<Connection>, rem: set<int>, p: seq<int>)
    requires IsCycle(edges, p)
    requires forall i :: 0 <= i < |p| ==> p[i] in rem
    ensures forall i :: 0 <= i < |p| ==> p[i] in Peel(edges, rem)
    decreases |rem|
  {
    var s := Sources(edges, rem);
    if s != {} {
      forall i | 0 <= i < |p|
        ensures p[i] !in s
      {
        CycleNodeHasPred(edges, p, i);
        var j :| 0 <= j < |p| && p[j] in Preds(edges, p[i]);
        assert p[j] in rem;
      }
      var x :| x in s;
      assert x !in rem - s;
      CycleSurvivesPeel(edges, rem - s, p);
    }
  }

  /** A sequence longer than the set its elements come from repeats an element. */
  lemma {:induction false} Pigeonhole(w: seq<int>, s: set<int>)
    requires forall i :: 0 <= i < |w| ==> w[i] in s
    requires |w| > |s|
    ensures exists i, j :: 0 <= i < j < |w| && w[i] == w[j]
    decreases |s|
  {
    assert w[0] in s;
    if k :| 1 <= k < |w| && w[k] == w[0] {
      assert 0 < k && w[0] == w[k];
    } else {
      var t := w[1..];
      forall i | 0 <= i < |t|
        ensures t[i] in s - {w[0]}
      {
        assert t[i] == w[i + 1];
      }
      Pigeonhole(t, s - {w[0]});
      var i, j :| 0 <= i < j < |t| && t[i] == t[j];
      assert w[i + 1] == w[j + 1];
    }
  }

  /** In a node set where every node has a predecessor inside the set, one can walk
      backwards for as long as one likes without leaving it. */
  lemma {:induction false} BackwardWalk(edges: set<Connection>, r: set<int>, x: int, n: nat)
      returns (w: seq<int>)
    requires x in r
    requires forall x :: x in r ==> !(Preds(edges, x) !! r)
    ensures |w| == n + 1
    ensures IsWalk(edges, w)
    ensures forall i :: 0 <= i < |w| ==> w[i] in r
  {
    if n == 0 {
      w := [x];
    } else {
      var v := BackwardWalk(edges, r, x, n - 1);
      assert !(Preds(edges, v[0]) !! r);
      var y :| y in Preds(edges, v[0]) && y in r;
      var e :| e in edges && e.end == v[0] && e.start == y;
      assert e == Connection(y, v[0]);
      w := [y] + v;
      forall i | 0 <= i < |w| - 1
        ensures Connection(w[i], w[i + 1]) in edges
      {
        if i > 0 {
          assert w[i] == v[i - 1] && w[i + 1] == v[i];
        }
      }
    }
  }

  /** A non-empty node set without sources contains a cycle. */
  lemma SourcelessHasCycle(edges: set<Connection>, r: set<int>) returns (c: seq<int>)
    requires r != {}
    requires Sources(edges, r) == {}
    ensures IsCycle(edges, c)
  {
    forall x | x in r
      ensures !(Preds(edges, x) !! r)
    {
      assert x !in Sources(edges, r);
    }
    var x :| x in r;
    var w := BackwardWalk(edges, r, x, |r|);
    Pigeonhole(w, r);
    var i, j :| 0 <= i < j < |w| && w[i] == w[j];
    c := w[i..j + 1];
    forall k | 0 <= k < |c| - 1
      ensures Connection(c[k], c[k + 1]) in edges
    {
      assert c[k] == w[i + k] && c[k + 1] == w[i + k + 1];
    }
  }

  /** The executable test agrees with the declarative definition, in both directions. */
  lemma IsDagCorrect(nodes: set<int>, edges: set<Connection>)
    requires EdgesWithin(edges, nodes)
    ensures IsDag(nodes, edges) <==> Acyclic(edges)
  {
    if IsDag(nodes, edges) {
      forall p | IsCycle(edges, p)
        ensures false
      {
        forall i | 0 <= i < |p|
          ensures p[i] in nodes
        {
          if i < |p| - 1 {
            assert Connection(p[i], p[i + 1]) in edges;
          } else {
            assert Connection(p[i - 1], p[i]) in edges;
          }
        }
        CycleSurvivesPeel(edges, nodes, p);
      }
    } else {
      var c := SourcelessHasCycle(edges, Peel(edges, nodes));
      assert IsCycle(edges, c);
    }
  }

  /** A connection followed by a walk is a walk. */
  lemma ReachableStep(edges: set<Connection>, a: int, b: int, c: int)
    requires Connection(a, b) in edges
    requires Reachable(edges, b, c)
    ensures Reachable(edges, a, c)
  {
    var p :| WalkBetween(edges, p, b, c);
    var q := [a] + p;
    forall i | 0 <= i < |q| - 1
      ensures Connection(q[i], q[i + 1]) in edges
    {
      if i > 0 {
        assert q[i] == p[i - 1] && q[i + 1] == p[i];
      }
    }
    assert WalkBetween(edges, q, a, c);
  }

  /** Every node reaches itself. */
  lemma ReachableSelf(edges: set<Connection>, a: int)
    ensures Reachable(edges, a, a)
  {
    assert WalkBetween(edges, [a], a, a);
  }
}
