/** The greedy vaccination toolkit (src/greedy.py): the candidate filter,
    edge removal around a node list, the two-round fast estimator and the
    greedy selector built on it. */
module Greedy {
  import opened Graphs

  // ---------------------------------------------------------------------
  // get_not_infected_nodes

  /** The nodes whose state is not `I`, in node order. */
  function NotInfected(s: seq<State>): (r: seq<nat>)
    ensures NodesIn(r, |s|)
  {
    if s == [] then []
    else NotInfected(s[..|s| - 1]) + if s[|s| - 1] != I then [|s| - 1] else []
  }

  /** Exactly the non-infected nodes (so `V` nodes are included), each
      once, in increasing node order. */
  lemma {:induction false} NotInfectedMembers(s: seq<State>)
    ensures var r := NotInfected(s);
      && (forall i :: 0 <= i < |r| ==> r[i] < |s| && s[r[i]] != I)
      && (forall u :: 0 <= u < |s| && s[u] != I ==> u in r)
      && (forall i, j :: 0 <= i < j < |r| ==> r[i] < r[j])
  {
    if s != [] {
      var n := |s| - 1;
      var rp := NotInfected(s[..n]);
      var tail: seq<nat> := if s[n] != I then [n] else [];
      NotInfectedMembers(s[..n]);
      assert NotInfected(s) == rp + tail;
      forall i | 0 <= i < |rp|
        ensures rp[i] < n && s[rp[i]] != I
      {
        assert s[..n][rp[i]] == s[rp[i]];
      }
      forall u | 0 <= u < n && s[u] != I
        ensures u in rp
      {
        assert s[..n][u] == s[u];
      }
    }
  }

  /** `get_not_infected_nodes`: appends, in node order, every node that is
      not `I`; the states are only read. */
  method GetNotInfectedNodes(st: array<State>) returns (r: seq<nat>)
    ensures r == NotInfected(st[..])
  {
    r := [];
    for node := 0 to st.Length
      invariant r == NotInfected(st[..node])
    {
      assert st[..node + 1][..node] == st[..node];
      if st[node] != I {
        r := r + [node];
      }
    }
    assert st[..st.Length] == st[..];
  }

  // ---------------------------------------------------------------------
  // remove_edge_from_nodes

  /** An edge as the source stores it: larger endpoint first. */
  function Norm(u: nat, v: nat): (nat, nat) {
    if u > v then (u, v) else (v, u)
  }

  /** e is an edge of the graph, written larger endpoint first, with an
      endpoint among `nodes`. */
  ghost predicate Incident(adj: Adjacency, nodes: seq<nat>, e: (nat, nat)) {
    e.1 < e.0 < |adj| && e.1 in adj[e.0] && (e.0 in nodes || e.1 in nodes)
  }

  /** The entries of `xs` other than v. */
  function Without(xs: seq<nat>, v: nat): seq<nat> {
    if xs == [] then [] else (if xs[0] == v then [] else [xs[0]]) + Without(xs[1..], v)
  }

  /** The neighbours x of w (in order) whose edge with w is not in `gone`. */
  function KeepEdges(xs: seq<nat>, w: nat, gone: set<(nat, nat)>): seq<nat> {
    if xs == [] then [] else (if Norm(w, xs[0]) in gone then [] else [xs[0]]) + KeepEdges(xs[1..], w, gone)
  }

  /** The neighbours in `xs` that are not listed in `nodes`. */
  function Outside(xs: seq<nat>, nodes: seq<nat>): seq<nat> {
    if xs == [] then [] else (if xs[0] in nodes then [] else [xs[0]]) + Outside(xs[1..], nodes)
  }

  /** The adjacency left once every edge touching a listed node is gone:
      listed nodes lose all neighbours, the others lose the listed ones, and
      the remaining neighbours keep their order. */
  function Stripped(adj: Adjacency, nodes: seq<nat>): (r: Adjacency)
    ensures |r| == |adj|
  {
    seq(|adj|, w requires 0 <= w < |adj| => if w in nodes then [] else Outside(adj[w], nodes))
  }

  /** `GS.remove_edge(u, v)`. */
  function RemoveEdge(g: Adjacency, u: nat, v: nat): (r: Adjacency)
    requires u < |g| && v < |g|
    ensures |r| == |g|
  {
    g[u := Without(g[u], v)][v := Without(g[v], u)]
  }

  lemma {:induction false} KeepEdgesAdd(xs: seq<nat>, w: nat, gone: set<(nat, nat)>, v: nat)
    ensures Without(KeepEdges(xs, w, gone), v) == KeepEdges(xs, w, gone + {Norm(w, v)})
  {
    if xs != [] {
      KeepEdgesAdd(xs[1..], w, gone, v);
      var tl := KeepEdges(xs[1..], w, gone);
      var x := xs[0];
      if Norm(w, x) !in gone {
        assert KeepEdges(xs, w, gone) == [x] + tl;
        assert ([x] + tl)[1..] == tl;
        var g2 := gone + {Norm(w, v)};
        assert KeepEdges(xs, w, g2) == (if Norm(w, x) in g2 then [] else [x]) + KeepEdges(xs[1..], w, g2);
        if x == v {
          assert Without([x] + tl, v) == Without(tl, v);
          assert KeepEdges(xs, w, g2) == KeepEdges(xs[1..], w, g2);
        } else {
          assert Norm(w, x) != Norm(w, v);
          assert Without([x] + tl, v) == [x] + Without(tl, v);
          assert KeepEdges(xs, w, g2) == [x] + KeepEdges(xs[1..], w, g2);
        }
      } else {
        var g2 := gone + {Norm(w, v)};
        assert KeepEdges(xs, w, gone) == tl;
        assert KeepEdges(xs, w, g2) == KeepEdges(xs[1..], w, g2);
      }
    }
  }

  lemma {:induction false} KeepEdgesNone(xs: seq<nat>, w: nat)
    ensures KeepEdges(xs, w, {}) == xs
  {
    if xs != [] {
      KeepEdgesNone(xs[1..], w);
    }
  }

  lemma {:induction false} KeepEdgesOther(xs: seq<nat>, w: nat, gone: set<(nat, nat)>, e: (nat, nat))
    requires e.0 != w && e.1 != w
    ensures KeepEdges(xs, w, gone + {e}) == KeepEdges(xs, w, gone)
  {
    if xs != [] {
      KeepEdgesOther(xs[1..], w, gone, e);
    }
  }

  /** Dropping the edges incident to `nodes` from a neighbour list of w
      leaves exactly what `Stripped` says. */
  lemma {:induction false} KeepEdgesIncident(adj: Adjacency, nodes: seq<nat>, w: nat, xs: seq<nat>, gone: set<(nat, nat)>)
    requires WellFormed(adj) && w < |adj|
    requires forall i :: 0 <= i < |xs| ==> xs[i] in adj[w]
    requires forall e :: e in gone <==> Incident(adj, nodes, e)
    ensures KeepEdges(xs, w, gone) == if w in nodes then [] else Outside(xs, nodes)
  {
    if xs != [] {
      KeepEdgesIncident(adj, nodes, w, xs[1..], gone);
      var x := xs[0];
      assert x in adj[w];
      assert w in adj[x];
      assert x < |adj| && x != w;
      assert Norm(w, x) in gone <==> w in nodes || x in nodes;
    }
  }

  lemma {:induction false} InPrefixSnoc(xs: seq<nat>, i: nat)
    requires i < |xs|
    ensures forall y :: y in xs[..i + 1] <==> y in xs[..i] || y == xs[i]
  {
    assert xs[..i + 1] == xs[..i] + [xs[i]];
  }

  /** The edge set gathered by scanning node u's neighbours up to j. */
  ghost predicate ScannedEdge(u: nat, ys: seq<nat>, e: (nat, nat)) {
    e.1 < e.0 && ((e.0 == u && e.1 in ys) || (e.1 == u && e.0 in ys))
  }

  /** Every edge incident to a listed node, larger endpoint first, gathered
      by scanning each listed node's neighbours. */
  method IncidentEdges(adj: Adjacency, nodes: seq<nat>) returns (E: set<(nat, nat)>)
    requires WellFormed(adj) && NodesIn(nodes, |adj|)
    ensures forall e :: e in E <==> Incident(adj, nodes, e)
  {
    E := {};
    for i := 0 to |nodes|
      invariant forall e :: e in E <==> Incident(adj, nodes[..i], e)
    {
      var u := nodes[i];
      var nbrs := adj[u];
      for j := 0 to |nbrs|
        invariant forall e :: e in E <==> Incident(adj, nodes[..i], e) || ScannedEdge(u, nbrs[..j], e)
      {
        var v := nbrs[j];
        InPrefixSnoc(nbrs, j);
        if u > v {
          E := E + {(u, v)};
        } else {
          E := E + {(v, u)};
        }
      }
      IncidentSnoc(adj, nodes, i);
    }
    assert nodes[..|nodes|] == nodes;
  }

  lemma IncidentSnoc(adj: Adjacency, nodes: seq<nat>, i: nat)
    requires WellFormed(adj) && NodesIn(nodes, |adj|) && i < |nodes|
    ensures forall e: (nat, nat) :: Incident(adj, nodes[..i + 1], e) <==> Incident(adj, nodes[..i], e) || ScannedEdge(nodes[i], adj[nodes[i]][..|adj[nodes[i]]|], e)
  {
    var u := nodes[i];
    var nbrs := adj[u];
    InPrefixSnoc(nodes, i);
    assert nbrs[..|nbrs|] == nbrs;
    forall e: (nat, nat) ensures Incident(adj, nodes[..i + 1], e) <==> Incident(adj, nodes[..i], e) || ScannedEdge(u, nbrs, e) {
      if ScannedEdge(u, nbrs, e) {
        if e.1 == u {
          assert u in adj[e.0];
        }
      }
      if e.1 < e.0 < |adj| && e.1 in adj[e.0] && e.0 == u {
        assert ScannedEdge(u, nbrs, e);
      }
      if e.1 < e.0 < |adj| && e.1 in adj[e.0] && e.1 == u {
        assert e.0 in adj[e.1];
      }
    }
  }

  /** `remove_edge_from_nodes`: works on a copy of the graph; gathers every
      edge incident to a listed node, larger endpoint first, then removes
      each of them from the copy. The input graph is left as it was. */
  method RemoveEdgeFromNodes(adj: Adjacency, st: array<State>, nodes: seq<nat>)
    returns (gsAdj: Adjacency, gsStates: array<State>, E: set<(nat, nat)>)
    requires WellFormed(adj) && st.Length == |adj| && NodesIn(nodes, |adj|)
    ensures fresh(gsStates) && gsStates[..] == st[..]
    ensures forall e :: e in E <==> Incident(adj, nodes, e)
    ensures gsAdj == Stripped(adj, nodes)
  {
    E := IncidentEdges(adj, nodes);
    gsAdj := RemoveEdges(adj, E);
    forall w | 0 <= w < |adj| ensures gsAdj[w] == Stripped(adj, nodes)[w] {
      KeepEdgesIncident(adj, nodes, w, adj[w], E);
    }
    gsStates := CopyStates(st);
  }

  /** Removes each edge of E (in any order) from a copy of the adjacency. */
  method RemoveEdges(adj: Adjacency, E: set<(nat, nat)>) returns (g: Adjacency)
    requires forall e :: e in E ==> e.1 < e.0 < |adj|
    ensures |g| == |adj|
    ensures forall w :: 0 <= w < |adj| ==> g[w] == KeepEdges(adj[w], w, E)
  {
    g := adj;
    forall w | 0 <= w < |adj| ensures adj[w] == KeepEdges(adj[w], w, {}) {
      KeepEdgesNone(adj[w], w);
    }
    var rest := E;
    ghost var gone: set<(nat, nat)> := {};
    while rest != {}
      invariant rest + gone == E && rest !! gone
      invariant |g| == |adj|
      invariant forall w :: 0 <= w < |adj| ==> g[w] == KeepEdges(adj[w], w, gone)
      decreases |rest|
    {
      var e :| e in rest;
      RemoveEdgeStep(adj, g, gone, e);
      g := RemoveEdge(g, e.0, e.1);
      rest := rest - {e};
      gone := gone + {e};
    }
    assert gone == E;
  }

  lemma RemoveEdgeStep(adj: Adjacency, g: Adjacency, gone: set<(nat, nat)>, e: (nat, nat))
    requires |g| == |adj| && e.1 < e.0 < |adj|
    requires forall w :: 0 <= w < |adj| ==> g[w] == KeepEdges(adj[w], w, gone)
    ensures forall w :: 0 <= w < |adj| ==> RemoveEdge(g, e.0, e.1)[w] == KeepEdges(adj[w], w, gone + {e})
  {
    forall w | 0 <= w < |adj|
      ensures RemoveEdge(g, e.0, e.1)[w] == KeepEdges(adj[w], w, gone + {e})
    {
      if w == e.0 {
        KeepEdgesAdd(adj[w], w, gone, e.1);
      } else if w == e.1 {
        KeepEdgesAdd(adj[w], w, gone, e.0);
      } else {
        KeepEdgesOther(adj[w], w, gone, e);
      }
    }
  }

  lemma {:induction false} OutsideMembers(xs: seq<nat>, nodes: seq<nat>)
    ensures forall y :: y in Outside(xs, nodes) <==> y in xs && y !in nodes
  {
    if xs != [] {
      OutsideMembers(xs[1..], nodes);
      assert xs == [xs[0]] + xs[1..];
    }
  }

  lemma {:induction false} OutsideDistinct(xs: seq<nat>, nodes: seq<nat>)
    requires Distinct(xs)
    ensures Distinct(Outside(xs, nodes))
  {
    if xs != [] {
      OutsideDistinct(xs[1..], nodes);
      OutsideMembers(xs[1..], nodes);
      assert xs[0] !in xs[1..];
    }
  }

  lemma {:induction false} OutsideTwice(xs: seq<nat>, nodes: seq<nat>)
    ensures Outside(Outside(xs, nodes), nodes) == Outside(xs, nodes)
  {
    if xs != [] {
      OutsideTwice(xs[1..], nodes);
      var o := Outside(xs, nodes);
      if xs[0] !in nodes {
        assert o == [xs[0]] + Outside(xs[1..], nodes);
        assert o[0] == xs[0] && o[1..] == Outside(xs[1..], nodes);
        assert Outside(o, nodes) == [xs[0]] + Outside(o[1..], nodes);
      } else {
        assert o == Outside(xs[1..], nodes);
      }
    }
  }

  /** The stripped graph is still simple and undirected; it keeps exactly
      the edges with no listed endpoint, so a second
      `remove_edge_from_nodes` on the same nodes finds no edge. */
  lemma StrippedEdges(adj: Adjacency, nodes: seq<nat>)
    requires WellFormed(adj)
    ensures var r := Stripped(adj, nodes);
      && WellFormed(r)
      && (forall u, v :: 0 <= u < |adj| && 0 <= v < |adj| ==> (v in r[u] <==> v in adj[u] && u !in nodes && v !in nodes))
      && (forall e :: !Incident(r, nodes, e))
  {
    var r := Stripped(adj, nodes);
    forall u | 0 <= u < |adj|
      ensures forall v :: v in r[u] <==> v in adj[u] && u !in nodes && v !in nodes
      ensures Distinct(r[u])
    {
      OutsideMembers(adj[u], nodes);
      assert Distinct(adj[u]);
      OutsideDistinct(adj[u], nodes);
    }
    forall u, i | 0 <= u < |adj| && 0 <= i < |r[u]|
      ensures r[u][i] < |r| && r[u][i] != u
    {
      assert r[u][i] in adj[u];
    }
  }

  /** Stripping the same nodes twice changes nothing more. */
  lemma StrippedIdempotent(adj: Adjacency, nodes: seq<nat>)
    ensures Stripped(Stripped(adj, nodes), nodes) == Stripped(adj, nodes)
  {
    var r := Stripped(adj, nodes);
    forall w | 0 <= w < |adj| ensures Stripped(r, nodes)[w] == r[w] {
      OutsideTwice(adj[w], nodes);
    }
  }

  // ---------------------------------------------------------------------
  // run_fast_sis

  /** One entry of a round's change list: a node and the label meant for it. */
  datatype Change = Change(node: nat, tag: State)

  /** What a round accumulates: its change list, the running total `inf`
      (carried over from the previous round) and the draw cursor. */
  datatype Ledger = Ledger(changes: seq<Change>, inf: int, pos: nat)

  /** +1 per infection entry, -1 per recovery entry. */
  function Net(cs: seq<Change>): int {
    if cs == [] then 0
    else Net(cs[..|cs| - 1]) + (if cs[|cs| - 1].tag == I then 1 else if cs[|cs| - 1].tag == S then -1 else 0)
  }

  /** Sum of the degrees of the listed nodes (a node listed twice counts twice). */
  function SumDeg(adj: Adjacency, nodes: seq<nat>): nat
    requires NodesIn(nodes, |adj|)
  {
    if nodes == [] then 0 else SumDeg(adj, nodes[..|nodes| - 1]) + |adj[nodes[|nodes| - 1]]|
  }

  /** Number of entries of `nbrs` whose state is `S`. */
  function SCount(nbrs: seq<nat>, s: seq<State>): nat
    requires forall i :: 0 <= i < |nbrs| ==> nbrs[i] < |s|
  {
    if nbrs == [] then 0 else SCount(nbrs[..|nbrs| - 1], s) + (if s[nbrs[|nbrs| - 1]] == S then 1 else 0)
  }

  /** Number of draws at positions lo..hi-1 that are below `bound`. */
  function Successes(rng: Draws, bound: real, lo: nat, hi: nat): nat
    decreases hi
  {
    if hi <= lo then 0 else Successes(rng, bound, lo, hi - 1) + (if rng(hi - 1) < bound then 1 else 0)
  }

  /** A seed's contacts: every neighbour whose round-start state is `S`
      consumes one draw and is appended as infected on a success; there is
      no early exit, so the scan always visits every neighbour. */
  function Contacts(s: seq<State>, nbrs: seq<nat>, beta: real, rng: Draws, a: Ledger): (r: Ledger)
    requires forall i :: 0 <= i < |nbrs| ==> nbrs[i] < |s|
    ensures |a.changes| <= |r.changes| && r.changes[..|a.changes|] == a.changes
    ensures forall i :: |a.changes| <= i < |r.changes| ==>
      r.changes[i].tag == I && r.changes[i].node < |s| && s[r.changes[i].node] == S
    ensures r.inf - a.inf == |r.changes| - |a.changes| <= r.pos - a.pos <= |nbrs|
    ensures r.pos >= a.pos
  {
    if nbrs == [] then a
    else
      var b := Contacts(s, nbrs[..|nbrs| - 1], beta, rng, a);
      var ne := nbrs[|nbrs| - 1];
      if s[ne] != S then b
      else if rng(b.pos) < beta then Ledger(b.changes + [Change(ne, I)], b.inf + 1, b.pos + 1)
      else Ledger(b.changes, b.inf, b.pos + 1)
  }

  /** The contacts consume exactly one draw per `S` neighbour and append
      one entry per draw below beta. */
  lemma {:induction false} ContactsCounts(s: seq<State>, nbrs: seq<nat>, beta: real, rng: Draws, a: Ledger)
    requires forall i :: 0 <= i < |nbrs| ==> nbrs[i] < |s|
    ensures var r := Contacts(s, nbrs, beta, rng, a);
      r.pos == a.pos + SCount(nbrs, s) && |r.changes| - |a.changes| == Successes(rng, beta, a.pos, r.pos)
  {
    if nbrs != [] {
      ContactsCounts(s, nbrs[..|nbrs| - 1], beta, rng, a);
    }
  }

  /** Which entries the contacts append, in order: the k-th neighbour, if
      `S`, takes the draw after those of the `S` neighbours before it, and
      on a success it is appended right after the earlier successes. */
  lemma ContactsEntry(s: seq<State>, nbrs: seq<nat>, beta: real, rng: Draws, a: Ledger, k: nat)
    requires forall i :: 0 <= i < |nbrs| ==> nbrs[i] < |s|
    requires k < |nbrs| && s[nbrs[k]] == S && rng(a.pos + SCount(nbrs[..k], s)) < beta
    ensures var r := Contacts(s, nbrs, beta, rng, a);
      var i := |a.changes| + Successes(rng, beta, a.pos, a.pos + SCount(nbrs[..k], s));
      i < |r.changes| && r.changes[i] == Change(nbrs[k], I)
  {
    ContactsEntryLast(s, nbrs, beta, rng, a, k);
    ContactsPrefix(s, nbrs, beta, rng, a, k + 1);
    var b := Contacts(s, nbrs[..k + 1], beta, rng, a).changes;
    var r := Contacts(s, nbrs, beta, rng, a).changes;
    var i := |a.changes| + Successes(rng, beta, a.pos, a.pos + SCount(nbrs[..k], s));
    PrefixAt(r, b, i);
  }

  /** An index inside a prefix reads the same entry in the longer list. */
  lemma PrefixAt<T>(r: seq<T>, b: seq<T>, i: nat)
    requires |b| <= |r| && r[..|b|] == b && i < |b|
    ensures r[i] == b[i]
  {
    assert r[..|b|][i] == r[i];
  }

  /** The contacts of a prefix of the neighbours are a prefix of the
      contacts of all of them. */
  lemma {:induction false} ContactsPrefix(s: seq<State>, nbrs: seq<nat>, beta: real, rng: Draws, a: Ledger, m: nat)
    requires forall i :: 0 <= i < |nbrs| ==> nbrs[i] < |s|
    requires m <= |nbrs|
    ensures var b := Contacts(s, nbrs[..m], beta, rng, a);
      var r := Contacts(s, nbrs, beta, rng, a);
      |b.changes| <= |r.changes| && r.changes[..|b.changes|] == b.changes
  {
    if m < |nbrs| {
      var n := |nbrs| - 1;
      assert nbrs[..n][..m] == nbrs[..m];
      ContactsPrefix(s, nbrs[..n], beta, rng, a, m);
      ContactsStep(s, nbrs, beta, rng, a);
      var b := Contacts(s, nbrs[..m], beta, rng, a).changes;
      var c := Contacts(s, nbrs[..n], beta, rng, a).changes;
      var r := Contacts(s, nbrs, beta, rng, a).changes;
      assert r[..|b|] == c[..|b|];
    } else {
      assert nbrs[..m] == nbrs;
    }
  }

  /** One more neighbour only appends to the contacts' entries. */
  lemma ContactsStep(s: seq<State>, nbrs: seq<nat>, beta: real, rng: Draws, a: Ledger)
    requires forall i :: 0 <= i < |nbrs| ==> nbrs[i] < |s|
    requires nbrs != []
    ensures var c := Contacts(s, nbrs[..|nbrs| - 1], beta, rng, a).changes;
      var r := Contacts(s, nbrs, beta, rng, a).changes;
      |c| <= |r| && r[..|c|] == c
  {
  }

  /** The k-th neighbour's entry in the contacts of the first k + 1
      neighbours, when it is appended. */
  lemma ContactsEntryLast(s: seq<State>, nbrs: seq<nat>, beta: real, rng: Draws, a: Ledger, k: nat)
    requires forall i :: 0 <= i < |nbrs| ==> nbrs[i] < |s|
    requires k < |nbrs| && s[nbrs[k]] == S && rng(a.pos + SCount(nbrs[..k], s)) < beta
    ensures var b := Contacts(s, nbrs[..k + 1], beta, rng, a);
      var i := |a.changes| + Successes(rng, beta, a.pos, a.pos + SCount(nbrs[..k], s));
      i < |b.changes| && b.changes[i] == Change(nbrs[k], I)
  {
    var t := nbrs[..k + 1];
    assert t[..k] == nbrs[..k] && t[k] == nbrs[k];
    ContactsCounts(s, nbrs[..k], beta, rng, a);
  }

  /** One seed's turn: a recovery draw (appending the seed as recovered on
      a success, whatever the seed's state), then its contacts. */
  function SeedTurn(adj: Adjacency, s: seq<State>, u: nat, rates: Rates, rng: Draws, a: Ledger): Ledger
    requires InRange(adj) && |s| == |adj| && u < |adj|
  {
    Contacts(s, adj[u], rates.beta, rng, RecoveryDraw(u, rates, rng, a))
  }

  /** The draw rules of one seed's turn: the first draw decides recovery,
      appending the seed as `S` exactly when it is below gamma; then one
      draw per `S` neighbour; the total moves by the successes below beta
      minus the recovery. */
  lemma SeedTurnRules(adj: Adjacency, s: seq<State>, u: nat, rates: Rates, rng: Draws, a: Ledger)
    requires InRange(adj) && |s| == |adj| && u < |adj|
    ensures var r := SeedTurn(adj, s, u, rates, rng, a);
      && r.pos == a.pos + 1 + SCount(adj[u], s)
      && (rng(a.pos) < rates.gamma <==> |a.changes| < |r.changes| && r.changes[|a.changes|] == Change(u, S))
      && r.inf - a.inf == Successes(rng, rates.beta, a.pos + 1, r.pos) - (if rng(a.pos) < rates.gamma then 1 else 0)
  {
    var c := RecoveryDraw(u, rates, rng, a);
    var r := SeedTurn(adj, s, u, rates, rng, a);
    ContactsCounts(s, adj[u], rates.beta, rng, c);
    if rng(a.pos) >= rates.gamma && |a.changes| < |r.changes| {
      assert r.changes[|c.changes|].tag == I;
    }
  }

  /** A change is an infection of a node susceptible at the round's start,
      or a recovery of a seed. */
  ghost predicate Justified(s: seq<State>, seeds: seq<nat>, c: Change) {
    (c.tag == I && c.node < |s| && s[c.node] == S) || (c.tag == S && c.node in seeds)
  }

  /** One round: every seed in list order takes its turn against the
      states as they were at the start of the round. */
  function Round(adj: Adjacency, s: seq<State>, seeds: seq<nat>, rates: Rates, rng: Draws, a: Ledger): Ledger
    requires InRange(adj) && |s| == |adj| && NodesIn(seeds, |adj|)
  {
    if seeds == [] then a
    else
      var n := |seeds| - 1;
      SeedTurn(adj, s, seeds[n], rates, rng, Round(adj, s, seeds[..n], rates, rng, a))
  }

  /** A round only appends to the change list; every entry it appends is
      justified; the total moves by the net count of those entries, so by
      at least -1 per seed and at most +1 per seed-neighbour pair; and it
      consumes at least one draw per seed and at most one more per
      seed-neighbour pair. */
  lemma {:induction false} RoundFacts(adj: Adjacency, s: seq<State>, seeds: seq<nat>, rates: Rates, rng: Draws, a: Ledger)
    requires InRange(adj) && |s| == |adj| && NodesIn(seeds, |adj|)
    ensures var r := Round(adj, s, seeds, rates, rng, a);
      && |a.changes| <= |r.changes| && r.changes[..|a.changes|] == a.changes
      && r.inf - Net(r.changes) == a.inf - Net(a.changes)
      && (forall i :: |a.changes| <= i < |r.changes| ==> Justified(s, seeds, r.changes[i]))
      && a.inf - |seeds| <= r.inf <= a.inf + SumDeg(adj, seeds)
      && a.pos + |seeds| <= r.pos <= a.pos + |seeds| + SumDeg(adj, seeds)
      && |r.changes| - |a.changes| <= |seeds| + SumDeg(adj, seeds)
  {
    if seeds != [] {
      var n := |seeds| - 1;
      RoundFacts(adj, s, seeds[..n], rates, rng, a);
      var b := Round(adj, s, seeds[..n], rates, rng, a);
      var r := SeedTurn(adj, s, seeds[n], rates, rng, b);
      RoundStep(adj, s, seeds, rates, rng, a, b, r);
      SeedTurnCounts(adj, s, seeds[n], rates, rng, b);
      RoundStepCounts(a, b, r, n, SumDeg(adj, seeds[..n]), |adj[seeds[n]]|);
    }
  }

  lemma {:induction false} NetSnoc(cs: seq<Change>, c: Change)
    ensures Net(cs + [c]) == Net(cs) + (if c.tag == I then 1 else if c.tag == S then -1 else 0)
  {
    assert (cs + [c])[..|cs|] == cs;
  }

  /** Appending only infection entries raises the net count by their number. */
  lemma {:induction false} NetInfections(cs: seq<Change>, k: nat)
    requires k <= |cs|
    requires forall i :: k <= i < |cs| ==> cs[i].tag == I
    ensures Net(cs) == Net(cs[..k]) + (|cs| - k)
  {
    if |cs| > k {
      var n := |cs| - 1;
      NetInfections(cs[..n], k);
      assert cs[..n][..k] == cs[..k];
      assert cs == cs[..n] + [cs[n]];
      NetSnoc(cs[..n], cs[n]);
    } else {
      assert cs[..k] == cs;
    }
  }

  /** The seed's recovery draw, as `SeedTurn` takes it. */
  function RecoveryDraw(u: nat, rates: Rates, rng: Draws, b: Ledger): (c: Ledger)
    ensures c.pos == b.pos + 1 && c.inf - Net(c.changes) == b.inf - Net(b.changes)
    ensures |b.changes| <= |c.changes| <= |b.changes| + 1 && c.changes[..|b.changes|] == b.changes
    ensures c.inf - b.inf == |b.changes| - |c.changes|
    ensures forall i :: |b.changes| <= i < |c.changes| ==> c.changes[i] == Change(u, S)
    ensures rng(b.pos) < rates.gamma <==> |c.changes| == |b.changes| + 1
  {
    if rng(b.pos) < rates.gamma then
      NetSnoc(b.changes, Change(u, S));
      Ledger(b.changes + [Change(u, S)], b.inf - 1, b.pos + 1)
    else Ledger(b.changes, b.inf, b.pos + 1)
  }

  lemma RoundStep(adj: Adjacency, s: seq<State>, seeds: seq<nat>, rates: Rates, rng: Draws, a: Ledger, b: Ledger, r: Ledger)
    requires InRange(adj) && |s| == |adj| && NodesIn(seeds, |adj|) && seeds != []
    requires var n := |seeds| - 1;
      && |a.changes| <= |b.changes| && b.changes[..|a.changes|] == a.changes
      && b.inf - Net(b.changes) == a.inf - Net(a.changes)
      && (forall i :: |a.changes| <= i < |b.changes| ==> Justified(s, seeds[..n], b.changes[i]))
      && r == SeedTurn(adj, s, seeds[n], rates, rng, b)
    ensures |a.changes| <= |r.changes| && r.changes[..|a.changes|] == a.changes
    ensures r.inf - Net(r.changes) == a.inf - Net(a.changes)
    ensures forall i :: |a.changes| <= i < |r.changes| ==> Justified(s, seeds, r.changes[i])
  {
    var n := |seeds| - 1;
    var u := seeds[n];
    var c := RecoveryDraw(u, rates, rng, b);
    assert r == Contacts(s, adj[u], rates.beta, rng, c);
    NetInfections(r.changes, |c.changes|);
    PrefixChain(a.changes, b.changes, c.changes, r.changes);
    JustifiedStep(s, seeds, a, b, c, r);
  }

  /** The counting half of a seed's turn: a recovery draw moves the total
      down by at most one, the contacts move it up by at most the degree. */
  lemma RoundStepCounts(a: Ledger, b: Ledger, r: Ledger, n: nat, before: nat, d: nat)
    requires a.inf - n <= b.inf <= a.inf + before
    requires a.pos + n <= b.pos <= a.pos + n + before
    requires |a.changes| <= |b.changes| && |b.changes| - |a.changes| <= n + before
    requires b.inf - 1 <= r.inf <= b.inf + d
    requires b.pos + 1 <= r.pos <= b.pos + 1 + d
    requires |b.changes| <= |r.changes| <= |b.changes| + 1 + d
    ensures a.inf - (n + 1) <= r.inf <= a.inf + (before + d)
    ensures a.pos + (n + 1) <= r.pos <= a.pos + (n + 1) + (before + d)
    ensures |r.changes| - |a.changes| <= (n + 1) + (before + d)
  {
  }

  /** A seed's turn moves the total by -1..deg, consumes 1..1+deg draws
      and appends at most 1+deg entries. */
  lemma SeedTurnCounts(adj: Adjacency, s: seq<State>, u: nat, rates: Rates, rng: Draws, b: Ledger)
    requires InRange(adj) && |s| == |adj| && u < |adj|
    ensures var r := SeedTurn(adj, s, u, rates, rng, b);
      && b.inf - 1 <= r.inf <= b.inf + |adj[u]|
      && b.pos + 1 <= r.pos <= b.pos + 1 + |adj[u]|
      && |b.changes| <= |r.changes| <= |b.changes| + 1 + |adj[u]|
  {
    var c := RecoveryDraw(u, rates, rng, b);
    assert SeedTurn(adj, s, u, rates, rng, b) == Contacts(s, adj[u], rates.beta, rng, c);
  }

  lemma PrefixChain<T>(a: seq<T>, b: seq<T>, c: seq<T>, r: seq<T>)
    requires |a| <= |b| <= |c| <= |r|
    requires b[..|a|] == a && c[..|b|] == b && r[..|c|] == c
    ensures r[..|a|] == a
  {
    assert r[..|a|] == r[..|c|][..|a|] == c[..|a|] == c[..|b|][..|a|];
  }

  lemma JustifiedStep(s: seq<State>, seeds: seq<nat>, a: Ledger, b: Ledger, c: Ledger, r: Ledger)
    requires seeds != []
    requires |a.changes| <= |b.changes| <= |c.changes| <= |r.changes|
    requires r.changes[..|c.changes|] == c.changes && c.changes[..|b.changes|] == b.changes
    requires forall i :: |a.changes| <= i < |b.changes| ==> Justified(s, seeds[..|seeds| - 1], b.changes[i])
    requires forall i :: |b.changes| <= i < |c.changes| ==> c.changes[i] == Change(seeds[|seeds| - 1], S)
    requires forall i :: |c.changes| <= i < |r.changes| ==>
      r.changes[i].tag == I && r.changes[i].node < |s| && s[r.changes[i].node] == S
    ensures forall i :: |a.changes| <= i < |r.changes| ==> Justified(s, seeds, r.changes[i])
  {
    var n := |seeds| - 1;
    forall i | |a.changes| <= i < |r.changes| ensures Justified(s, seeds, r.changes[i]) {
      if i < |b.changes| {
        assert r.changes[i] == c.changes[i] == b.changes[i];
        assert r.changes[i].node in seeds[..n] ==> r.changes[i].node in seeds;
      } else if i < |c.changes| {
        assert r.changes[i] == c.changes[i];
        assert seeds[n] in seeds;
      }
    }
  }

  /** The commit as written: the i-th entry of the change list, a
      (node, label) pair, is stored into node i. A list longer than the
      node count reaches a node id that does not exist, which raises. */
  function Commit(s: seq<State>, changes: seq<Change>): (r: Option<seq<State>>)
    ensures r.None? <==> |changes| > |s|
    ensures r.Some? ==> |r.value| == |s|
  {
    if |changes| > |s| then None
    else Some(seq(|s|, i requires 0 <= i < |s| =>
      if i < |changes| then Garbled(changes[i].node, changes[i].tag) else s[i]))
  }

  /** An empty change list leaves the states as they are. */
  lemma CommitNothing(s: seq<State>)
    ensures Commit(s, []) == Some(s)
  {
    assert Commit(s, []).value == s;
  }

  /** One more round after a successful one: the round against the
      current states, then its commit; `None` stays `None`. */
  function Advance(adj: Adjacency, seeds: seq<nat>, rates: Rates, rng: Draws, x: Option<(seq<State>, int, nat)>)
    : (r: Option<(seq<State>, int, nat)>)
    requires InRange(adj) && NodesIn(seeds, |adj|)
    requires x.Some? ==> |x.value.0| == |adj|
    ensures r.Some? ==> |r.value.0| == |adj|
  {
    match x
      case None => None
      case Some((s1, inf, q)) =>
        var a := Round(adj, s1, seeds, rates, rng, Ledger([], inf, q));
        match Commit(s1, a.changes)
          case None => None
          case Some(s2) => Some((s2, a.inf, a.pos))
  }

  /** The first k rounds: the states after each commit, the running total
      and the cursor; `None` once a commit has raised. */
  function Rounds(adj: Adjacency, s: seq<State>, seeds: seq<nat>, rates: Rates, rng: Draws, k: nat, p: nat)
    : (r: Option<(seq<State>, int, nat)>)
    requires InRange(adj) && |s| == |adj| && NodesIn(seeds, |adj|)
    ensures r.Some? ==> |r.value.0| == |s|
  {
    if k == 0 then Some((s, 0, p))
    else Advance(adj, seeds, rates, rng, Rounds(adj, s, seeds, rates, rng, k - 1, p))
  }

  /** `run_fast_sis`: two rounds over the same seed list; the total, with
      the advanced cursor, or `None` for the commit that raises. */
  function FastSis(adj: Adjacency, s: seq<State>, seeds: seq<nat>, rates: Rates, rng: Draws, p: nat): Option<(int, nat)>
    requires InRange(adj) && |s| == |adj| && NodesIn(seeds, |adj|)
  {
    match Rounds(adj, s, seeds, rates, rng, 2, p)
      case None => None
      case Some((_, inf, q)) => Some((inf, q))
  }

  /** Once a commit has raised, every later round count raises too. */
  lemma {:induction false} RoundsStuck(adj: Adjacency, s: seq<State>, seeds: seq<nat>, rates: Rates, rng: Draws, k: nat, m: nat, p: nat)
    requires InRange(adj) && |s| == |adj| && NodesIn(seeds, |adj|)
    requires k <= m && Rounds(adj, s, seeds, rates, rng, k, p).None?
    ensures Rounds(adj, s, seeds, rates, rng, m, p).None?
  {
    if k < m {
      RoundsStuck(adj, s, seeds, rates, rng, k, m - 1, p);
    }
  }

  /** A successful round k+1 follows a successful round k and moves the
      total by -|S|..sum of degrees, consuming |S|..|S|+sum of degrees draws. */
  lemma RoundsStep(adj: Adjacency, s: seq<State>, seeds: seq<nat>, rates: Rates, rng: Draws, k: nat, p: nat)
    requires InRange(adj) && |s| == |adj| && NodesIn(seeds, |adj|)
    requires Rounds(adj, s, seeds, rates, rng, k + 1, p).Some?
    ensures Rounds(adj, s, seeds, rates, rng, k, p).Some?
    ensures var (_, inf, q) := Rounds(adj, s, seeds, rates, rng, k, p).value;
      var (_, inf', q') := Rounds(adj, s, seeds, rates, rng, k + 1, p).value;
      && inf - |seeds| <= inf' <= inf + SumDeg(adj, seeds)
      && q + |seeds| <= q' <= q + |seeds| + SumDeg(adj, seeds)
  {
    var (s1, inf, q) := Rounds(adj, s, seeds, rates, rng, k, p).value;
    RoundFacts(adj, s1, seeds, rates, rng, Ledger([], inf, q));
  }

  /** The estimator's value lies in [-2|S|, 2 * sum of the seeds' degrees],
      and it consumes between 2|S| and 2(|S| + sum of degrees) draws. */
  lemma FastSisBounds(adj: Adjacency, s: seq<State>, seeds: seq<nat>, rates: Rates, rng: Draws, p: nat)
    requires InRange(adj) && |s| == |adj| && NodesIn(seeds, |adj|)
    ensures match FastSis(adj, s, seeds, rates, rng, p)
      case None => true
      case Some((inf, q)) =>
        && -2 * |seeds| <= inf <= 2 * SumDeg(adj, seeds)
        && p + 2 * |seeds| <= q <= p + 2 * (|seeds| + SumDeg(adj, seeds))
  {
    if Rounds(adj, s, seeds, rates, rng, 2, p).Some? {
      RoundsStep(adj, s, seeds, rates, rng, 1, p);
      RoundsStep(adj, s, seeds, rates, rng, 0, p);
    }
  }

  /** One seed's turn against the copy `g`, which it only reads. */
  method FastSeedTurn(adj: Adjacency, g: array<State>, node: nat, rates: Rates, rng: Draws, a: Ledger)
    returns (changes: seq<Change>, inf: int, q: nat)
    requires InRange(adj) && g.Length == |adj| && node < |adj|
    ensures Ledger(changes, inf, q) == SeedTurn(adj, g[..], node, rates, rng, a)
  {
    changes, inf, q := a.changes, a.inf, a.pos;
    if rng(q) < rates.gamma {
      changes := changes + [Change(node, S)];
      inf := inf - 1;
    }
    q := q + 1;
    assert Ledger(changes, inf, q) == RecoveryDraw(node, rates, rng, a);
    changes, inf, q := FastContacts(g, adj[node], rates.beta, rng, Ledger(changes, inf, q));
  }

  /** The inner loop of a seed's turn: each `S` neighbour takes one draw
      and, if it is below `beta`, is logged as infected. */
  method FastContacts(g: array<State>, nbrs: seq<nat>, beta: real, rng: Draws, b: Ledger)
    returns (changes: seq<Change>, inf: int, q: nat)
    requires NodesIn(nbrs, g.Length)
    ensures Ledger(changes, inf, q) == Contacts(g[..], nbrs, beta, rng, b)
  {
    changes, inf, q := b.changes, b.inf, b.pos;
    for j := 0 to |nbrs|
      invariant Ledger(changes, inf, q) == Contacts(g[..], nbrs[..j], beta, rng, b)
    {
      assert nbrs[..j + 1][..j] == nbrs[..j];
      var ne := nbrs[j];
      if g[ne] == S {
        if rng(q) < beta {
          changes := changes + [Change(ne, I)];
          inf := inf + 1;
        }
        q := q + 1;
      }
    }
    assert nbrs[..|nbrs|] == nbrs;
  }

  /** One round of `run_fast_sis` against the copy `g`, which it only reads. */
  method FastRound(adj: Adjacency, g: array<State>, seeds: seq<nat>, rates: Rates, rng: Draws, inf0: int, p: nat)
    returns (changes: seq<Change>, inf: int, q: nat)
    requires InRange(adj) && g.Length == |adj| && NodesIn(seeds, |adj|)
    ensures Ledger(changes, inf, q) == Round(adj, g[..], seeds, rates, rng, Ledger([], inf0, p))
  {
    changes, inf, q := [], inf0, p;
    for k := 0 to |seeds|
      invariant Ledger(changes, inf, q) == Round(adj, g[..], seeds[..k], rates, rng, Ledger([], inf0, p))
    {
      assert seeds[..k + 1][..k] == seeds[..k];
      changes, inf, q := FastSeedTurn(adj, g, seeds[k], rates, rng, Ledger(changes, inf, q));
    }
    assert seeds[..|seeds|] == seeds;
  }

  /** The commit loop as written: entry i goes into node i. */
  method CommitChanges(g: array<State>, changes: seq<Change>)
    requires |changes| <= g.Length
    modifies g
    ensures Commit(old(g[..]), changes) == Some(g[..])
  {
    ghost var s0 := g[..];
    for i := 0 to |changes|
      invariant forall j :: 0 <= j < g.Length ==>
        g[j] == if j < i then Garbled(changes[j].node, changes[j].tag) else s0[j]
    {
      g[i] := Garbled(changes[i].node, changes[i].tag);
    }
    assert g[..] == Commit(s0, changes).value;
  }

  /** Round k + 1 is round k's states, one more round against them and its
      commit. */
  lemma RoundsNext(adj: Adjacency, s: seq<State>, seeds: seq<nat>, rates: Rates, rng: Draws, k: nat, p: nat,
                   changes: seq<Change>, inf: int, q: nat)
    requires InRange(adj) && |s| == |adj| && NodesIn(seeds, |adj|)
    requires Rounds(adj, s, seeds, rates, rng, k, p).Some?
    requires var (s1, inf0, q0) := Rounds(adj, s, seeds, rates, rng, k, p).value;
      Round(adj, s1, seeds, rates, rng, Ledger([], inf0, q0)) == Ledger(changes, inf, q)
    ensures var s1 := Rounds(adj, s, seeds, rates, rng, k, p).value.0;
      Rounds(adj, s, seeds, rates, rng, k + 1, p) ==
        if |changes| > |s1| then None else Some((Commit(s1, changes).value, inf, q))
  {
  }

  /** `run_fast_sis` on a copy of the states: the caller's array is only
      read. `ok` is false exactly where the source raises. */
  method RunFastSis(adj: Adjacency, st: array<State>, seeds: seq<nat>, rates: Rates, rng: Draws, p: nat)
    returns (ok: bool, inf: int, q: nat)
    requires InRange(adj) && st.Length == |adj| && NodesIn(seeds, |adj|)
    ensures FastSis(adj, st[..], seeds, rates, rng, p) == if ok then Some((inf, q)) else None
  {
    var g := CopyStates(st);
    inf, q := 0, p;
    for r := 0 to 2
      invariant g.Length == st.Length
      invariant Rounds(adj, st[..], seeds, rates, rng, r, p) == Some((g[..], inf, q))
    {
      ghost var s1 := g[..];
      var changes;
      changes, inf, q := FastRound(adj, g, seeds, rates, rng, inf, q);
      RoundsNext(adj, st[..], seeds, rates, rng, r, p, changes, inf, q);
      if |changes| > g.Length {
        RoundsStuck(adj, st[..], seeds, rates, rng, r + 1, 2, p);
        return false, inf, q;
      }
      CommitChanges(g, changes);
    }
    ok := true;
  }

  /** `V`: marks the given node `V` in the caller's states (the mark stays),
      then runs the estimator. */
  method Estimate(adj: Adjacency, gw: array<State>, seeds: seq<nat>, rates: Rates, node: Option<nat>, rng: Draws, p: nat)
    returns (ok: bool, val: int, q: nat)
    requires InRange(adj) && gw.Length == |adj| && NodesIn(seeds, |adj|)
    requires node.Some? ==> node.value < |adj|
    modifies gw
    ensures gw[..] == if node.Some? then old(gw[..])[node.value := V] else old(gw[..])
    ensures FastSis(adj, gw[..], seeds, rates, rng, p) == if ok then Some((val, q)) else None
  {
    if node.Some? {
      gw[node.value] := V;
    }
    ok, val, q := RunFastSis(adj, gw, seeds, rates, rng, p);
  }

  /** A node that the first commit garbled is never infected in a later
      round, since it is no longer `S`. */
  lemma GarbledNeverInfected(adj: Adjacency, s: seq<State>, changes: seq<Change>, seeds: seq<nat>, rates: Rates, rng: Draws, a: Ledger)
    requires InRange(adj) && |s| == |adj| && NodesIn(seeds, |adj|)
    requires |changes| <= |s|
    ensures var s1 := Commit(s, changes).value;
      var r := Round(adj, s1, seeds, rates, rng, a);
      forall i :: |a.changes| <= i < |r.changes| && r.changes[i].tag == I ==> r.changes[i].node >= |changes|
  {
    var s1 := Commit(s, changes).value;
    RoundFacts(adj, s1, seeds, rates, rng, a);
  }

  /** The path 0-1-2 with both ends infected. */
  function PathOfThree(): (adj: Adjacency)
    ensures InRange(adj)
  {
    var adj := [[1], [0, 2], [1]];
    assert InRange(adj);
    adj
  }

  lemma PathOfThreeFirstRound()
    ensures Round(PathOfThree(), [I, S, I], [0, 2], Rates(0.5, 0.0), ZeroDraws(), Ledger([], 0, 0))
         == Ledger([Change(1, I), Change(1, I)], 2, 4)
  {
    var adj, rates, rng := PathOfThree(), Rates(0.5, 0.0), ZeroDraws();
    var s0 := [I, S, I];
    assert [0, 2][..1] == [0] && [0, 2][..0] == [];
    PathOfThreeFirstSeed();
    PathOfThreeLastSeed();
  }

  lemma PathOfThreeFirstSeed()
    ensures SeedTurn(PathOfThree(), [I, S, I], 0, Rates(0.5, 0.0), ZeroDraws(), Ledger([], 0, 0))
         == Ledger([Change(1, I)], 1, 2)
  {
    var adj, rates, rng := PathOfThree(), Rates(0.5, 0.0), ZeroDraws();
    assert RecoveryDraw(0, rates, rng, Ledger([], 0, 0)) == Ledger([], 0, 1);
    assert [1][..0] == [] && [] + [Change(1, I)] == [Change(1, I)];
  }

  lemma PathOfThreeLastSeed()
    ensures SeedTurn(PathOfThree(), [I, S, I], 2, Rates(0.5, 0.0), ZeroDraws(), Ledger([Change(1, I)], 1, 2))
         == Ledger([Change(1, I), Change(1, I)], 2, 4)
  {
    var adj, rates, rng := PathOfThree(), Rates(0.5, 0.0), ZeroDraws();
    assert RecoveryDraw(2, rates, rng, Ledger([Change(1, I)], 1, 2)) == Ledger([Change(1, I)], 1, 3);
    assert [1][..0] == [] && [Change(1, I)] + [Change(1, I)] == [Change(1, I), Change(1, I)];
  }

  lemma PathOfThreeSecondRound()
    ensures Round(PathOfThree(), [Garbled(1, I), Garbled(1, I), I], [0, 2], Rates(0.5, 0.0), ZeroDraws(), Ledger([], 2, 4))
         == Ledger([], 2, 6)
  {
    var adj, rates, rng := PathOfThree(), Rates(0.5, 0.0), ZeroDraws();
    var s1 := [Garbled(1, I), Garbled(1, I), I];
    assert [0, 2][..1] == [0] && [0, 2][..0] == [] && [1][..0] == [];
    assert SeedTurn(adj, s1, 0, rates, rng, Ledger([], 2, 4)) == Ledger([], 2, 5);
    assert SeedTurn(adj, s1, 2, rates, rng, Ledger([], 2, 5)) == Ledger([], 2, 6);
  }

  lemma PathOfThreeCommit()
    ensures Commit([I, S, I], [Change(1, I), Change(1, I)]) == Some([Garbled(1, I), Garbled(1, I), I])
  {
    var c := Commit([I, S, I], [Change(1, I), Change(1, I)]).value;
    assert |c| == 3 && c[0] == Garbled(1, I) && c[1] == Garbled(1, I) && c[2] == I;
    assert c == [Garbled(1, I), Garbled(1, I), I];
  }

  lemma PathOfThreeOneRound()
    ensures Rounds(PathOfThree(), [I, S, I], [0, 2], Rates(0.5, 0.0), ZeroDraws(), 1, 0)
         == Some(([Garbled(1, I), Garbled(1, I), I], 2, 4))
  {
    PathOfThreeFirstRound();
    PathOfThreeCommit();
  }

  /** On the path 0-1-2 with seeds 0 and 2 and every draw a success for
      infection (and a failure for recovery), the one susceptible node is
      counted twice in the first round, and the first commit garbles nodes
      0 and 1, so the second round adds nothing: the value is 2. */
  lemma PathOfThreeDoubleCount()
    ensures FastSis(PathOfThree(), [I, S, I], [0, 2], Rates(0.5, 0.0), ZeroDraws(), 0) == Some((2, 6))
  {
    var s1 := [Garbled(1, I), Garbled(1, I), I];
    PathOfThreeOneRound();
    PathOfThreeSecondRound();
    CommitNothing(s1);
  }

  /** The path 0-1 with node 0 infected. */
  function PathOfTwo(): (adj: Adjacency)
    ensures InRange(adj)
  {
    var adj := [[1], [0]];
    assert InRange(adj);
    adj
  }

  /** On the path 0-1 seeded at 0, every draw a success for infection and a
      failure for recovery: the first commit writes into node 0 and leaves
      node 1 `S`, so the second round infects node 1 again and the value is
      2, where one infection happened. */
  lemma PathOfTwoReinfected()
    ensures FastSis(PathOfTwo(), [I, S], [0], Rates(1.0, 0.0), ZeroDraws(), 0) == Some((2, 4))
  {
    var adj, rates, rng := PathOfTwo(), Rates(1.0, 0.0), ZeroDraws();
    var s1 := [Garbled(1, I), S];
    assert [0][..0] == [] && [1][..0] == [];
    assert SeedTurn(adj, [I, S], 0, rates, rng, Ledger([], 0, 0)) == Ledger([Change(1, I)], 1, 2) by {
      assert [] + [Change(1, I)] == [Change(1, I)];
    }
    assert Commit([I, S], [Change(1, I)]).value == s1;
    assert Rounds(adj, [I, S], [0], rates, rng, 1, 0) == Some((s1, 1, 2));
    assert SeedTurn(adj, s1, 0, rates, rng, Ledger([], 1, 2)) == Ledger([Change(1, I)], 2, 4) by {
      assert [] + [Change(1, I)] == [Change(1, I)];
    }
    assert Commit(s1, [Change(1, I)]).value == s1;
  }

  /** The label a node ends with when a change list is applied node by
      node: its last entry's label, or d when no entry names it. */
  function LastTag(cs: seq<Change>, u: nat, d: State): State {
    if cs == [] then d
    else if cs[|cs| - 1].node == u then cs[|cs| - 1].tag
    else LastTag(cs[..|cs| - 1], u, d)
  }

  /** The commit the loop evidently intends (each (node, label) entry
      stored into its own node, in list order); an entry naming no node
      is skipped, which a round never produces. */
  function CommitFixed(s: seq<State>, cs: seq<Change>): (r: seq<State>)
    ensures |r| == |s|
    ensures forall u :: 0 <= u < |s| ==> r[u] == LastTag(cs, u, s[u])
  {
    if cs == [] then s
    else
      var t := CommitFixed(s, cs[..|cs| - 1]);
      var c := cs[|cs| - 1];
      if c.node < |t| then t[c.node := c.tag] else t
  }

  /** A round after the intended commit infects only nodes whose label
      after the previous round is `S`: a node that the previous round
      infected (and no later entry recovered) is not infected again. */
  lemma FixedCommitNoReinfection(adj: Adjacency, s: seq<State>, seeds: seq<nat>, rates: Rates, rng: Draws, a: Ledger, b: Ledger)
    requires InRange(adj) && |s| == |adj| && NodesIn(seeds, |adj|)
    ensures var r1 := Round(adj, s, seeds, rates, rng, a);
      var r2 := Round(adj, CommitFixed(s, r1.changes), seeds, rates, rng, b);
      forall i :: |b.changes| <= i < |r2.changes| && r2.changes[i].tag == I ==>
        r2.changes[i].node < |s| && LastTag(r1.changes, r2.changes[i].node, s[r2.changes[i].node]) == S
  {
    var r1 := Round(adj, s, seeds, rates, rng, a);
    RoundFacts(adj, CommitFixed(s, r1.changes), seeds, rates, rng, b);
  }

  /** One more round with the intended commit. */
  function AdvanceFixed(adj: Adjacency, seeds: seq<nat>, rates: Rates, rng: Draws, x: (seq<State>, int, nat))
    : (r: (seq<State>, int, nat))
    requires InRange(adj) && NodesIn(seeds, |adj|) && |x.0| == |adj|
    ensures |r.0| == |adj|
  {
    var a := Round(adj, x.0, seeds, rates, rng, Ledger([], x.1, x.2));
    (CommitFixed(x.0, a.changes), a.inf, a.pos)
  }

  /** `run_fast_sis` with the intended commit: two rounds, never raising. */
  function FastSisFixed(adj: Adjacency, s: seq<State>, seeds: seq<nat>, rates: Rates, rng: Draws, p: nat): (int, nat)
    requires InRange(adj) && |s| == |adj| && NodesIn(seeds, |adj|)
  {
    var (_, inf, q) := AdvanceFixed(adj, seeds, rates, rng, AdvanceFixed(adj, seeds, rates, rng, (s, 0, p)));
    (inf, q)
  }

  /** The same run as `PathOfTwoReinfected` with the intended commit:
      node 1 is `I` after the first round, so the value is 1. */
  lemma PathOfTwoFixed()
    ensures FastSisFixed(PathOfTwo(), [I, S], [0], Rates(1.0, 0.0), ZeroDraws(), 0) == (1, 3)
  {
    var adj, rates, rng := PathOfTwo(), Rates(1.0, 0.0), ZeroDraws();
    assert [0][..0] == [] && [1][..0] == [];
    assert SeedTurn(adj, [I, S], 0, rates, rng, Ledger([], 0, 0)) == Ledger([Change(1, I)], 1, 2) by {
      assert [] + [Change(1, I)] == [Change(1, I)];
    }
    var s1 := CommitFixed([I, S], [Change(1, I)]);
    assert s1 == [I, I] by {
      assert LastTag([Change(1, I)], 0, I) == I;
    }
    assert SeedTurn(adj, s1, 0, rates, rng, Ledger([], 1, 2)) == Ledger([], 1, 3);
  }

  // ---------------------------------------------------------------------
  // greedy_algorithm

  /** How `greedy_algorithm` ends: normally, by the estimator's commit
      raising, or by `max` over an empty gain list raising. */
  datatype Status = Done | KeyError | EmptyMax

  /** What `max(..., key=gain)` returns the index of: the first entry of
      largest gain. */
  function FirstMax(d: seq<(nat, int)>): (i: nat)
    requires |d| > 0
    ensures i < |d|
    ensures forall k :: 0 <= k < |d| ==> d[k].1 <= d[i].1
    ensures forall k :: 0 <= k < i ==> d[k].1 < d[i].1
  {
    if |d| == 1 then 0
    else
      var j := FirstMax(d[..|d| - 1]);
      if d[|d| - 1].1 > d[j].1 then |d| - 1 else j
  }

  /** The states with every listed node set to `S`. */
  function Reset(s: seq<State>, nodes: seq<nat>): seq<State> {
    seq(|s|, u requires 0 <= u < |s| => if u in nodes then S else s[u])
  }

  /** An estimator as the selector sees it: states and cursor in, value
      and advanced cursor out, `None` when it raises. */
  type Estimator = (seq<State>, nat) -> Option<(int, nat)>

  /** `V` without a node: `run_fast_sis` on the given graph and seeds. */
  function FastEst(adj: Adjacency, seeds: seq<nat>, rates: Rates, rng: Draws): Estimator
    requires InRange(adj) && NodesIn(seeds, |adj|)
  {
    (s: seq<State>, q: nat) => if |s| == |adj| then FastSis(adj, s, seeds, rates, rng, q) else None
  }

  /** The probing sweep over the candidates, in list order: each one is
      marked `V`, the estimator runs on the result, and the candidate is
      set back to `S` (not to its earlier state). Yields the (node, gain)
      list, the states afterwards and the cursor; `None` once the
      estimator raises. */
  function Sweep(est: Estimator, base: seq<State>, vw: int, cands: seq<nat>, p: nat)
    : (r: Option<(seq<(nat, int)>, seq<State>, nat)>)
    requires NodesIn(cands, |base|)
    ensures r.Some? ==> |r.value.0| == |cands| && |r.value.1| == |base|
    ensures r.Some? ==> forall k :: 0 <= k < |cands| ==> r.value.0[k].0 == cands[k]
  {
    if cands == [] then Some(([], base, p))
    else
      var n := |cands| - 1;
      match Sweep(est, base, vw, cands[..n], p)
        case None => None
        case Some((d, s, q)) =>
          var node := cands[n];
          match est(s[node := V], q)
            case None => None
            case Some((vwp, q2)) => Some((d + [(node, vw - vwp)], s[node := S], q2))
  }

  /** The sweep leaves every candidate in state `S` and every other node
      as it was. */
  lemma {:induction false} SweepFacts(est: Estimator, base: seq<State>, vw: int, cands: seq<nat>, p: nat)
    requires NodesIn(cands, |base|)
    ensures match Sweep(est, base, vw, cands, p)
      case None => true
      case Some((_, s, _)) => s == Reset(base, cands)
  {
    if cands != [] {
      var n := |cands| - 1;
      SweepFacts(est, base, vw, cands[..n], p);
      match Sweep(est, base, vw, cands[..n], p)
        case None =>
        case Some((d, s, q)) =>
          InPrefixSnoc(cands, n);
          assert cands[..n + 1] == cands;
          assert s[cands[n] := V][cands[n] := S] == Reset(base, cands);
    }
  }

  /** Once the estimator raises during a sweep, the whole sweep raises. */
  lemma {:induction false} SweepStuck(est: Estimator, base: seq<State>, vw: int, cands: seq<nat>, i: nat, p: nat)
    requires NodesIn(cands, |base|)
    requires i <= |cands| && Sweep(est, base, vw, cands[..i], p).None?
    ensures Sweep(est, base, vw, cands, p).None?
  {
    if i < |cands| {
      var n := |cands| - 1;
      assert cands[..n][..i] == cands[..i];
      SweepStuck(est, base, vw, cands[..n], i, p);
    } else {
      assert cands[..i] == cands;
    }
  }

  /** One round of the selector: the baseline estimate, the sweep, then
      `max` over the gains; the winner is set to `V`. */
  datatype Pick = Pick(status: Status, states: seq<State>, best: nat, gains: seq<(nat, int)>, pos: nat)

  function GreedyRound(est: Estimator, s: seq<State>, cands: seq<nat>, p: nat): (r: Pick)
    requires NodesIn(cands, |s|)
    ensures |r.states| == |s|
  {
    match est(s, p)
      case None => Pick(KeyError, s, 0, [], p)
      case Some((vw, q)) =>
        match Sweep(est, s, vw, cands, q)
          case None => Pick(KeyError, s, 0, [], q)
          case Some((d, s2, q2)) =>
            if d == [] then Pick(EmptyMax, s2, 0, d, q2)
            else
              var best := d[FirstMax(d)].0;
              Pick(Done, s2[best := V], best, d, q2)
  }

  /** A completed round lists one gain per candidate, in candidate order,
      and picks the candidate at the first index of largest gain; the
      round fails on `max` exactly when there is no candidate left (and
      the baseline estimate did not raise). */
  lemma RoundPicksFirstMax(est: Estimator, s: seq<State>, cands: seq<nat>, p: nat)
    requires NodesIn(cands, |s|)
    ensures var r := GreedyRound(est, s, cands, p);
      && (r.status == EmptyMax <==> cands == [] && est(s, p).Some?)
      && (r.status == Done ==>
            && |r.gains| == |cands| > 0
            && (forall k :: 0 <= k < |cands| ==> r.gains[k].0 == cands[k])
            && exists i :: 0 <= i < |cands| && r.best == cands[i]
                 && (forall k :: 0 <= k < |cands| ==> r.gains[k].1 <= r.gains[i].1)
                 && (forall k :: 0 <= k < i ==> r.gains[k].1 < r.gains[i].1))
  {
    match est(s, p)
      case None =>
      case Some((vw, q)) =>
        match Sweep(est, s, vw, cands, q)
          case None =>
          case Some((d, s2, q2)) =>
            if d != [] {
              var i := FirstMax(d);
              assert GreedyRound(est, s, cands, p).best == cands[i];
            }
  }

  /** A completed round's states: the sweep's reset, then the winner set to `V`. */
  lemma GreedyRoundStates(est: Estimator, s: seq<State>, cands: seq<nat>, p: nat)
    requires NodesIn(cands, |s|)
    requires GreedyRound(est, s, cands, p).status == Done
    ensures var r := GreedyRound(est, s, cands, p);
      r.best < |s| && r.states == Reset(s, cands)[r.best := V]
  {
    var (vw, q) := est(s, p).value;
    SweepFacts(est, s, vw, cands, q);
  }

  /** The selector after k rounds: status, the states of `GW`, the picks
      `W`, the remaining candidates and the cursor. A failed round leaves
      the last completed round's values in place. */
  datatype Selection = Selection(status: Status, states: seq<State>, picked: seq<nat>, cands: seq<nat>, pos: nat)

  /** One more round of the selector after a completed one; a failed
      selection stays as it is. */
  function NextPick(est: Estimator, g: Selection): (r: Selection)
    requires NodesIn(g.cands, |g.states|)
    ensures |r.states| == |g.states| && NodesIn(r.cands, |g.states|)
    ensures g.status != Done ==> r == g
  {
    if g.status != Done then g
    else
      var pk := GreedyRound(est, g.states, g.cands, g.pos);
      if pk.status != Done then Selection(pk.status, g.states, g.picked, g.cands, pk.pos)
      else Selection(Done, pk.states, g.picked + [pk.best], RemoveFirst(g.cands, pk.best), pk.pos)
  }

  /** `greedy_algorithm` after k rounds, starting from the candidates
      `get_not_infected_nodes` returns. */
  function GreedyRounds(est: Estimator, st0: seq<State>, k: nat, p: nat): (r: Selection)
    ensures |r.states| == |st0| && NodesIn(r.cands, |st0|)
  {
    if k == 0 then Selection(Done, st0, [], NotInfected(st0), p)
    else NextPick(est, GreedyRounds(est, st0, k - 1, p))
  }

  lemma GreedyRoundsNext(est: Estimator, st0: seq<State>, k: nat, p: nat)
    ensures GreedyRounds(est, st0, k + 1, p) == NextPick(est, GreedyRounds(est, st0, k, p))
  {
  }

  /** Once a round has failed, the selector stays failed with that status. */
  lemma GreedyStuck(est: Estimator, st0: seq<State>, k: nat, m: nat, p: nat)
    requires k <= m && GreedyRounds(est, st0, k, p).status != Done
    ensures GreedyRounds(est, st0, m, p).status == GreedyRounds(est, st0, k, p).status
  {
    for i := k to m
      invariant GreedyRounds(est, st0, i, p).status == GreedyRounds(est, st0, k, p).status
    {
      GreedyRoundsNext(est, st0, i, p);
    }
  }

  /** The selector's picks and states: the picks are distinct nodes that
      were not infected at the start; the candidates are exactly the other
      non-infected nodes, without repeats; a pick is `V`; once a round has
      run, every other non-infected node is `S`; infected nodes keep `I`. */
  ghost predicate Shaped(st0: seq<State>, g: Selection) {
    && |g.states| == |st0|
    && Distinct(g.picked) && Distinct(g.cands)
    && (forall i :: 0 <= i < |g.picked| ==> g.picked[i] < |st0| && st0[g.picked[i]] != I)
    && (forall u: nat :: u in g.cands <==> u < |st0| && st0[u] != I && u !in g.picked)
    && |g.cands| + |g.picked| == |NotInfected(st0)|
    && (forall u :: 0 <= u < |st0| ==>
          g.states[u] == if u in g.picked then V else if |g.picked| > 0 && st0[u] != I then S else st0[u])
  }

  /** A round keeps the shape; a completed round adds one pick; `max`
      raises only when no candidate is left. */
  lemma NextPickShaped(est: Estimator, st0: seq<State>, g: Selection)
    requires Shaped(st0, g) && NodesIn(g.cands, |g.states|) && g.status == Done
    ensures var r := NextPick(est, g);
      && Shaped(st0, r)
      && (r.status == Done ==> |r.picked| == |g.picked| + 1)
      && (r.status == EmptyMax ==> g.cands == [])
  {
    var pk := GreedyRound(est, g.states, g.cands, g.pos);
    RoundPicksFirstMax(est, g.states, g.cands, g.pos);
    if pk.status == Done {
      GreedyRoundStates(est, g.states, g.cands, g.pos);
      PickShaped(st0, g, pk.best, pk.pos);
      assert NextPick(est, g) == Selection(Done, Reset(g.states, g.cands)[pk.best := V], g.picked + [pk.best], RemoveFirst(g.cands, pk.best), pk.pos);
    }
  }

  /** Picking a candidate keeps the shape, whatever the estimates were. */
  lemma PickShaped(st0: seq<State>, g: Selection, best: nat, q: nat)
    requires Shaped(st0, g) && best in g.cands
    ensures Shaped(st0, Selection(Done, Reset(g.states, g.cands)[best := V], g.picked + [best], RemoveFirst(g.cands, best), q))
  {
    RemoveFirstDistinct(g.cands, best);
    PickedSnoc(g.picked, best);
  }

  /** The selector after k rounds is shaped; a completed run has exactly
      k picks, and `max` raises only once no candidate is left, so fewer
      than k non-infected nodes exist. */
  ghost predicate ShapedAfter(est: Estimator, st0: seq<State>, k: nat, p: nat) {
    var g := GreedyRounds(est, st0, k, p);
    && Shaped(st0, g)
    && (g.status == Done ==> |g.picked| == k)
    && (g.status == EmptyMax ==> |NotInfected(st0)| < k)
  }

  lemma ShapedAtStart(est: Estimator, st0: seq<State>, p: nat)
    ensures ShapedAfter(est, st0, 0, p)
  {
    NotInfectedMembers(st0);
  }

  lemma ShapedAfterStep(est: Estimator, st0: seq<State>, k: nat, p: nat)
    requires ShapedAfter(est, st0, k, p)
    ensures ShapedAfter(est, st0, k + 1, p)
  {
    var g := GreedyRounds(est, st0, k, p);
    GreedyRoundsNext(est, st0, k, p);
    if g.status == Done {
      NextPickShaped(est, st0, g);
    }
  }

  /** Every estimator: after any number of rounds the selector's picks,
      candidates and states have the shape above. */
  lemma GreedyShape(est: Estimator, st0: seq<State>, k: nat, p: nat)
    ensures ShapedAfter(est, st0, k, p)
  {
    ShapedAtStart(est, st0, p);
    for i := 0 to k
      invariant ShapedAfter(est, st0, i, p)
    {
      ShapedAfterStep(est, st0, i, p);
    }
  }

  lemma PickedSnoc(picked: seq<nat>, x: nat)
    requires Distinct(picked) && x !in picked
    ensures Distinct(picked + [x])
    ensures forall y :: y in picked + [x] <==> y in picked || y == x
  {
  }

  /** The estimator the selector uses is `run_fast_sis` on the current states. */
  lemma FastEstIsFastSis(adj: Adjacency, seeds: seq<nat>, rates: Rates, rng: Draws, s: seq<State>, q: nat)
    requires InRange(adj) && NodesIn(seeds, |adj|) && |s| == |adj|
    ensures FastEst(adj, seeds, rates, rng)(s, q) == FastSis(adj, s, seeds, rates, rng, q)
  {
  }

  /** The estimator with the intended commit, which never raises. */
  function FixedEst(adj: Adjacency, seeds: seq<nat>, rates: Rates, rng: Draws): Estimator
    requires InRange(adj) && NodesIn(seeds, |adj|)
  {
    (s: seq<State>, q: nat) => if |s| == |adj| then Some(FastSisFixed(adj, s, seeds, rates, rng, q)) else None
  }

  /** The estimator yields a value on every state list of length n. */
  ghost predicate TotalOn(est: Estimator, n: nat) {
    forall s: seq<State>, q: nat :: |s| == n ==> est(s, q).Some?
  }

  lemma FixedEstTotal(adj: Adjacency, seeds: seq<nat>, rates: Rates, rng: Draws)
    requires InRange(adj) && NodesIn(seeds, |adj|)
    ensures TotalOn(FixedEst(adj, seeds, rates, rng), |adj|)
  {
  }

  /** With an estimator that never raises, the sweep completes. */
  lemma {:induction false} SweepTotal(est: Estimator, base: seq<State>, vw: int, cands: seq<nat>, p: nat)
    requires NodesIn(cands, |base|) && TotalOn(est, |base|)
    ensures Sweep(est, base, vw, cands, p).Some?
  {
    if cands != [] {
      var n := |cands| - 1;
      SweepTotal(est, base, vw, cands[..n], p);
      var (_, s, q) := Sweep(est, base, vw, cands[..n], p).value;
      assert est(s[cands[n] := V], q).Some?;
    }
  }

  /** With an estimator that never raises, the selector never ends in
      `KeyError`: only `max` over an empty candidate list can stop it. */
  lemma GreedyNeverKeyError(est: Estimator, st0: seq<State>, k: nat, p: nat)
    requires TotalOn(est, |st0|)
    ensures GreedyRounds(est, st0, k, p).status != KeyError
  {
    for i := 0 to k
      invariant GreedyRounds(est, st0, i, p).status != KeyError
    {
      GreedyRoundsNext(est, st0, i, p);
      NextPickNeverKeyError(est, GreedyRounds(est, st0, i, p));
    }
  }

  lemma NextPickNeverKeyError(est: Estimator, g: Selection)
    requires NodesIn(g.cands, |g.states|) && TotalOn(est, |g.states|) && g.status != KeyError
    ensures NextPick(est, g).status != KeyError
  {
    if g.status == Done {
      assert est(g.states, g.pos).Some?;
      var (vw, q) := est(g.states, g.pos).value;
      SweepTotal(est, g.states, vw, g.cands, q);
    }
  }

  /** In particular the selector over the intended estimator: it completes
      with n_vac picks or stops at an empty candidate list, and its picks
      have the shape `GreedyShape` proves for every estimator. */
  lemma FixedSelectorOutcome(adj: Adjacency, seeds: seq<nat>, rates: Rates, rng: Draws, st0: seq<State>, k: nat, p: nat)
    requires InRange(adj) && NodesIn(seeds, |adj|) && |st0| == |adj|
    ensures var g := GreedyRounds(FixedEst(adj, seeds, rates, rng), st0, k, p);
      && (g.status == Done ==> |g.picked| == k)
      && (g.status != Done ==> g.status == EmptyMax && |NotInfected(st0)| < k)
  {
    var est := FixedEst(adj, seeds, rates, rng);
    FixedEstTotal(adj, seeds, rates, rng);
    GreedyNeverKeyError(est, st0, k, p);
    GreedyShape(est, st0, k, p);
  }

  /** Probing one more candidate extends the sweep by its gain. */
  lemma SweepSnoc(est: Estimator, base: seq<State>, vw: int, cands: seq<nat>, i: nat, p: nat,
                  d: seq<(nat, int)>, s: seq<State>, q: nat, vwp: int, q2: nat)
    requires NodesIn(cands, |base|) && i < |cands|
    requires Sweep(est, base, vw, cands[..i], p) == Some((d, s, q))
    requires est(s[cands[i] := V], q) == Some((vwp, q2))
    ensures Sweep(est, base, vw, cands[..i + 1], p) == Some((d + [(cands[i], vw - vwp)], s[cands[i] := S], q2))
  {
    assert cands[..i + 1][..i] == cands[..i];
  }

  /** The probing sweep of one round on `GW`: each candidate marked `V`,
      estimated, then set to `S`. */
  method Probe(adj: Adjacency, gw: array<State>, seeds: seq<nat>, rates: Rates, rng: Draws, vw: int, cands: seq<nat>, p: nat)
    returns (ok: bool, gains: seq<(nat, int)>, q: nat)
    requires InRange(adj) && gw.Length == |adj| && NodesIn(seeds, |adj|) && NodesIn(cands, |adj|)
    modifies gw
    ensures match Sweep(FastEst(adj, seeds, rates, rng), old(gw[..]), vw, cands, p)
      case None => !ok
      case Some((d, s, q2)) => ok && gains == d && gw[..] == s && q == q2
  {
    ghost var est := FastEst(adj, seeds, rates, rng);
    ghost var base := gw[..];
    gains, q := [], p;
    for i := 0 to |cands|
      invariant gw.Length == |adj|
      invariant Sweep(est, base, vw, cands[..i], p) == Some((gains, gw[..], q))
    {
      assert cands[..i + 1][..i] == cands[..i];
      var node := cands[i];
      ghost var before, q1 := gw[..], q;
      var vwp;
      ok, vwp, q := Estimate(adj, gw, seeds, rates, Some(node), rng, q);
      FastEstIsFastSis(adj, seeds, rates, rng, before[node := V], q1);
      if !ok {
        SweepStuck(est, base, vw, cands, i + 1, p);
        return;
      }
      SweepSnoc(est, base, vw, cands, i, p, gains, before, q1, vwp, q);
      gains := gains + [(node, vw - vwp)];
      gw[node] := S;
      assert gw[..] == before[node := S];
    }
    assert cands[..|cands|] == cands;
    ok := true;
  }

  /** One round of `greedy_algorithm` on `GW`: the baseline estimate, the
      probing sweep, `max` over the gains, the winner set to `V`, appended
      to `W` and removed from the candidates. */
  method SelectOne(adj: Adjacency, gw: array<State>, seeds: seq<nat>, rates: Rates, rng: Draws, w: seq<nat>, cands: seq<nat>, p: nat)
    returns (status: Status, w': seq<nat>, cands': seq<nat>, q: nat)
    requires InRange(adj) && gw.Length == |adj| && NodesIn(seeds, |adj|) && NodesIn(cands, |adj|)
    modifies gw
    ensures var g := NextPick(FastEst(adj, seeds, rates, rng), Selection(Done, old(gw[..]), w, cands, p));
      status == g.status && (status == Done ==> g == Selection(Done, gw[..], w', cands', q))
  {
    FastEstIsFastSis(adj, seeds, rates, rng, gw[..], p);
    w', cands' := w, cands;
    var ok, vw;
    ok, vw, q := Estimate(adj, gw, seeds, rates, None, rng, p);
    if !ok {
      return KeyError, w', cands', q;
    }
    var gains;
    ok, gains, q := Probe(adj, gw, seeds, rates, rng, vw, cands, q);
    if !ok {
      return KeyError, w', cands', q;
    }
    if gains == [] {
      return EmptyMax, w', cands', q;
    }
    var best := gains[FirstMax(gains)].0;
    gw[best] := V;
    w' := w + [best];
    cands' := RemoveFirst(cands, best);
    status := Done;
  }

  /** The rounds of `greedy_algorithm` from round `from` on, on `GW`. */
  method GreedyLoop(adj: Adjacency, gw: array<State>, seeds: seq<nat>, rates: Rates, rng: Draws,
                    ghost st0: seq<State>, nVac: nat, w0: seq<nat>, cands0: seq<nat>, p0: nat, ghost p: nat)
    returns (status: Status, w: seq<nat>, q: nat)
    requires InRange(adj) && gw.Length == |adj| && NodesIn(seeds, |adj|)
    requires GreedyRounds(FastEst(adj, seeds, rates, rng), st0, 0, p) == Selection(Done, gw[..], w0, cands0, p0)
    modifies gw
    ensures var g := GreedyRounds(FastEst(adj, seeds, rates, rng), st0, nVac, p);
      status == g.status && (status == Done ==> gw[..] == g.states && w == g.picked && q == g.pos)
  {
    ghost var est := FastEst(adj, seeds, rates, rng);
    var cands;
    w, cands, q, status := w0, cands0, p0, Done;
    for round := 0 to nVac
      invariant status == Done
      invariant GreedyRounds(est, st0, round, p) == Selection(Done, gw[..], w, cands, q)
    {
      GreedyRoundsNext(est, st0, round, p);
      status, w, cands, q := SelectOne(adj, gw, seeds, rates, rng, w, cands, q);
      if status != Done {
        GreedyStuck(est, st0, round + 1, nVac, p);
        return;
      }
    }
  }

  /** `greedy_algorithm`: works on a copy `GW` of the states, so the
      caller's array is only read; returns the status and, when it is
      `Done`, the final `GW` states and the picks `W`, as the selector
      driven by `run_fast_sis` gives them. */
  method GreedyAlgorithm(adj: Adjacency, st: array<State>, seeds: seq<nat>, nVac: nat, rates: Rates, rng: Draws, p: nat)
    returns (status: Status, gw: array<State>, w: seq<nat>, q: nat)
    requires InRange(adj) && st.Length == |adj| && NodesIn(seeds, |adj|)
    ensures fresh(gw)
    ensures var g := GreedyRounds(FastEst(adj, seeds, rates, rng), st[..], nVac, p);
      status == g.status && (status == Done ==> gw[..] == g.states && w == g.picked && q == g.pos)
  {
    gw := CopyStates(st);
    var cands := GetNotInfectedNodes(st);
    status, w, q := GreedyLoop(adj, gw, seeds, rates, rng, st[..], nVac, [], cands, p, p);
  }
}
