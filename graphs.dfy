/** The contact graph shared by the contagion engine and the vaccination
    selectors. Nodes are the integers 0..N-1 (the graph is relabelled to a
    dense range before it reaches this code), each adjacency list keeps the
    order in which the graph yields a node's neighbours, and the per-node
    state labels live in an array that the operations update in place. */
module Graphs {

  /** A node's state label. `Garbled` is the (node, label) pair that the fast
      estimator stores into a node by mistake; it is never `S`, `I` or `V`. */
  datatype State = S | I | V | Garbled(node: nat, tag: State)

  datatype Option<T> = None | Some(value: T)

  type Adjacency = seq<seq<nat>>

  /** Per-contact infection probability beta and recovery probability gamma. */
  datatype Rates = Rates(beta: real, gamma: real)

  /** The uniform generator, seen as an infinite stream of draws: the draw
      at position p is the value of the p-th call. */
  type Draws = nat -> real

  /** Every draw lies in [0, 1), as for a uniform generator. */
  ghost predicate UnitDraws(rng: Draws) {
    forall p: nat :: 0.0 <= rng(p) < 1.0
  }

  /** The stream whose every draw is 0.0, for worked examples. */
  function ZeroDraws(): Draws {
    _ => 0.0
  }

  /** Every neighbour is an existing node other than the node itself. */
  ghost predicate InRange(adj: Adjacency) {
    forall u, i :: 0 <= u < |adj| && 0 <= i < |adj[u]| ==> adj[u][i] < |adj| && adj[u][i] != u
  }

  /** The graph is undirected. */
  ghost predicate Symmetric(adj: Adjacency) {
    forall u, v :: 0 <= u < |adj| && 0 <= v < |adj| && v in adj[u] ==> u in adj[v]
  }

  /** No neighbour is listed twice (no multi-edges). */
  ghost predicate NoDuplicates(adj: Adjacency) {
    forall u, i, j :: 0 <= u < |adj| && 0 <= i < j < |adj[u]| ==> adj[u][i] != adj[u][j]
  }

  /** A simple undirected graph without self-loops. */
  ghost predicate WellFormed(adj: Adjacency) {
    InRange(adj) && Symmetric(adj) && NoDuplicates(adj)
  }

  /** Each node's degree, as the score the degree rankings sort by. */
  function Degrees(adj: Adjacency): (d: seq<real>)
    ensures |d| == |adj|
  {
    seq(|adj|, u requires 0 <= u < |adj| => |adj[u]| as real)
  }

  /** Every listed node exists. */
  ghost predicate NodesIn(nodes: seq<nat>, n: nat) {
    forall i :: 0 <= i < |nodes| ==> nodes[i] < n
  }

  ghost predicate Distinct(xs: seq<nat>) {
    forall i, j :: 0 <= i < j < |xs| ==> xs[i] != xs[j]
  }

  /** The states after every listed node has been set to `V`, whatever its
      previous state. */
  function Marked(s: seq<State>, nodes: seq<nat>): seq<State> {
    seq(|s|, u requires 0 <= u < |s| => if u in nodes then V else s[u])
  }

  /** Number of nodes whose state is not `V`. */
  function CountNonV(s: seq<State>): (r: nat)
    ensures r <= |s|
  {
    if s == [] then 0 else CountNonV(s[..|s| - 1]) + (if s[|s| - 1] != V then 1 else 0)
  }

  /** Setting one non-`V` node to `V` lowers the count by exactly one. */
  lemma {:induction false} CountNonVMark(s: seq<State>, u: nat)
    requires u < |s| && s[u] != V
    ensures CountNonV(s[u := V]) == CountNonV(s) - 1
  {
    var n := |s| - 1;
    var t := s[u := V];
    assert t[..n] == if u < n then s[..n][u := V] else s[..n];
    if u < n {
      CountNonVMark(s[..n], u);
    }
  }

  /** The count is zero exactly when every node is `V`. */
  lemma {:induction false} CountNonVZero(s: seq<State>)
    ensures CountNonV(s) == 0 <==> forall u :: 0 <= u < |s| ==> s[u] == V
  {
    if s != [] {
      var n := |s| - 1;
      CountNonVZero(s[..n]);
      assert forall u :: 0 <= u < n ==> s[..n][u] == s[u];
    }
  }

  /** `list.remove`: drops the first occurrence of x. */
  function RemoveFirst(xs: seq<nat>, x: nat): (r: seq<nat>)
    ensures forall i :: 0 <= i < |r| ==> r[i] in xs
  {
    if xs == [] then []
    else if xs[0] == x then xs[1..]
    else [xs[0]] + RemoveFirst(xs[1..], x)
  }

  /** In a list without repeats, removing a present x leaves exactly the
      other entries, still without repeats, one fewer. */
  lemma {:induction false} RemoveFirstDistinct(xs: seq<nat>, x: nat)
    requires Distinct(xs) && x in xs
    ensures var r := RemoveFirst(xs, x);
      && |r| == |xs| - 1 && Distinct(r)
      && forall y :: y in r <==> y in xs && y != x
  {
    if xs[0] != x {
      RemoveFirstDistinct(xs[1..], x);
      var r := RemoveFirst(xs, x);
      var t := RemoveFirst(xs[1..], x);
      assert r == [xs[0]] + t;
      assert xs[0] !in t;
    } else {
      assert x !in xs[1..];
    }
  }

  /** Listing distinct existing nodes and setting them to `V` leaves at
      most N minus their number of nodes that are not `V`. */
  lemma {:induction false} CountNonVMarked(s: seq<State>, xs: seq<nat>)
    requires Distinct(xs) && NodesIn(xs, |s|)
    ensures CountNonV(Marked(s, xs)) + |xs| <= |s|
  {
    if xs != [] {
      assert xs[0] < |s|;
      var n := |s| - 1;
      var t := Marked(s, xs);
      if n in xs {
        var ys := RemoveFirst(xs, n);
        RemoveFirstDistinct(xs, n);
        assert NodesIn(ys, n) by {
          forall i | 0 <= i < |ys| ensures ys[i] < n {
            assert ys[i] in xs && ys[i] != n;
          }
        }
        CountNonVMarked(s[..n], ys);
        assert t[..n] == Marked(s[..n], ys);
        assert t[n] == V;
        assert CountNonV(t) == CountNonV(t[..n]);
        assert |ys| + 1 == |xs|;
      } else {
        assert NodesIn(xs, n) by {
          forall i | 0 <= i < |xs| ensures xs[i] < n {
            assert xs[i] in xs;
          }
        }
        CountNonVMarked(s[..n], xs);
        assert t[..n] == Marked(s[..n], xs);
        assert CountNonV(t) <= CountNonV(t[..n]) + 1;
      }
    }
  }

  /** The value copy made by `G.copy()`: a fresh state array, same labels. */
  method CopyStates(st: array<State>) returns (c: array<State>)
    ensures fresh(c) && c[..] == st[..]
  {
    c := new State[st.Length];
    forall i | 0 <= i < st.Length {
      c[i] := st[i];
    }
  }

  /** Sets every listed node to `V`, in list order, and nothing else. */
  method MarkVaccinated(st: array<State>, nodes: seq<nat>)
    requires NodesIn(nodes, st.Length)
    modifies st
    ensures st[..] == Marked(old(st[..]), nodes)
  {
    for k := 0 to |nodes|
      invariant st[..] == Marked(old(st[..]), nodes[..k])
    {
      assert nodes[..k + 1] == nodes[..k] + [nodes[k]];
      st[nodes[k]] := V;
    }
    assert nodes[..|nodes|] == nodes;
  }
}
