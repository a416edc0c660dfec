/** The discrete-time SIS transition engine and the two in-place
    vaccination routines of the simulation module (src/sis.py). */
module Sis {
  import opened Graphs
  import opened Ranking

  /** The counters saved for one step: the step number and the counts taken
      while the new states are committed (every non-`S` node, `V` included,
      counts as infected). */
  datatype StepRecord = StepRecord(t: nat, curSus: nat, curInf: nat, infected: nat, recover: nat)

  /** What `run_sis` leaves behind: its records, the final states and the
      position of the next unused draw. */
  datatype Trace = Trace(records: seq<StepRecord>, states: seq<State>, pos: nat)

  /** Number of entries of `nbrs` whose state is `I`. */
  function InfectedCount(nbrs: seq<nat>, s: seq<State>): nat
    requires forall i :: 0 <= i < |nbrs| ==> nbrs[i] < |s|
  {
    if nbrs == [] then 0
    else (if s[nbrs[0]] == I then 1 else 0) + InfectedCount(nbrs[1..], s)
  }

  /** A node that is neither `I` nor `V` scans its neighbours in adjacency
      order, drawing once per infected neighbour; the first draw below beta
      infects it and ends the scan, otherwise it keeps its state `cur`.
      Yields the new state and the position of the next unused draw. */
  function Scan(nbrs: seq<nat>, s: seq<State>, cur: State, beta: real, rng: Draws, p: nat): (State, nat)
    requires forall i :: 0 <= i < |nbrs| ==> nbrs[i] < |s|
  {
    if nbrs == [] then (cur, p)
    else if s[nbrs[0]] == I then
      if rng(p) < beta then (I, p + 1) else Scan(nbrs[1..], s, cur, beta, rng, p + 1)
    else Scan(nbrs[1..], s, cur, beta, rng, p)
  }

  /** Node n's next state, read from the pre-step states `s` only, with the
      position of the next unused draw. */
  function NodeNext(adj: Adjacency, s: seq<State>, n: nat, rates: Rates, rng: Draws, p: nat): (State, nat)
    requires InRange(adj) && |s| == |adj| && n < |adj|
  {
    if s[n] == V then (V, p)
    else if s[n] == I then (if rng(p) < rates.gamma then S else I, p + 1)
    else Scan(adj[n], s, s[n], rates.beta, rng, p)
  }

  /** The decisions of nodes 0..k-1, taken in node order from one stream. */
  function Decide(adj: Adjacency, s: seq<State>, k: nat, rates: Rates, rng: Draws, p: nat): (r: (seq<State>, nat))
    requires InRange(adj) && |s| == |adj| && k <= |adj|
    ensures |r.0| == k
  {
    if k == 0 then ([], p)
    else
      var prev := Decide(adj, s, k - 1, rates, rng, p);
      var x := NodeNext(adj, s, k - 1, rates, rng, prev.1);
      (prev.0 + [x.0], x.1)
  }

  /** One synchronous step: every node's next state, all of them decided
      from the same pre-step states. */
  function NextStates(adj: Adjacency, s: seq<State>, rates: Rates, rng: Draws, p: nat): (r: (seq<State>, nat))
    requires InRange(adj) && |s| == |adj|
    ensures |r.0| == |s|
  {
    Decide(adj, s, |adj|, rates, rng, p)
  }

  /** The step's counters, accumulated in node order as the commit loop
      does: `before` are the states being overwritten, `after` the new ones. */
  function Tally(before: seq<State>, after: seq<State>, t: nat): (r: StepRecord)
    requires |before| == |after|
    ensures r.t == t
    ensures r.curSus + r.curInf == |before|
    ensures r.infected <= r.curSus && r.recover <= r.curInf
  {
    if before == [] then StepRecord(t, 0, 0, 0, 0)
    else
      var n := |before| - 1;
      var r := Tally(before[..n], after[..n], t);
      if before[n] == S then
        r.(curSus := r.curSus + 1, infected := r.infected + if after[n] == I then 1 else 0)
      else
        r.(curInf := r.curInf + 1, recover := r.recover + if after[n] == S then 1 else 0)
  }

  /** `run_sis` on states `s` for steps 1..tMax. */
  function Run(adj: Adjacency, s: seq<State>, rates: Rates, tMax: nat, rng: Draws, p: nat): (r: Trace)
    requires InRange(adj) && |s| == |adj|
    ensures |r.states| == |s| && |r.records| == tMax
    ensures forall i :: 0 <= i < tMax ==> r.records[i].t == i + 1
    ensures forall i :: 0 <= i < tMax ==> r.records[i].curSus + r.records[i].curInf == |s|
  {
    if tMax == 0 then Trace([], s, p)
    else
      var prev := Run(adj, s, rates, tMax - 1, rng, p);
      var next := NextStates(adj, prev.states, rates, rng, prev.pos);
      Trace(prev.records + [Tally(prev.states, next.0, tMax)], next.0, next.1)
  }

  /** The decision of node n inside the node loop of `run_sis`: `V` is
      skipped, `I` recovers on a draw below gamma, any other node scans its
      infected neighbours. Reads the pre-step states only. */
  method DecideNode(adj: Adjacency, st: array<State>, n: nat, rates: Rates, rng: Draws, p: nat)
    returns (x: State, q: nat)
    requires InRange(adj) && st.Length == |adj| && n < st.Length
    ensures (x, q) == NodeNext(adj, st[..], n, rates, rng, p)
  {
    x, q := st[n], p;
    if st[n] == V {
      return;
    }
    if st[n] == I {
      if rng(q) < rates.gamma {
        x := S;
      }
      q := q + 1;
    } else {
      var nbrs := adj[n];
      var j := 0;
      while j < |nbrs|
        invariant j <= |nbrs| && x == st[n]
        invariant Scan(nbrs[j..], st[..], st[n], rates.beta, rng, q) == NodeNext(adj, st[..], n, rates, rng, p)
      {
        if st[nbrs[j]] == I {
          if rng(q) < rates.beta {
            x, q := I, q + 1;
            break;
          }
          q := q + 1;
        }
        j := j + 1;
      }
    }
  }

  /** One iteration of the time loop of `run_sis`: snapshot the states,
      decide every node from the snapshot, then commit and count. */
  method Step(adj: Adjacency, st: array<State>, rates: Rates, t: nat, rng: Draws, p: nat)
    returns (rec: StepRecord, q: nat)
    requires InRange(adj) && st.Length == |adj|
    modifies st
    ensures (st[..], q) == NextStates(adj, old(st[..]), rates, rng, p)
    ensures rec == Tally(old(st[..]), st[..], t)
  {
    var N := st.Length;
    ghost var s := st[..];
    var nodes := st[..];
    q := p;
    for n := 0 to N
      invariant |nodes| == N && st[..] == s
      invariant Decide(adj, s, n, rates, rng, p) == (nodes[..n], q)
      invariant forall u :: n <= u < N ==> nodes[u] == s[u]
    {
      var x;
      x, q := DecideNode(adj, st, n, rates, rng, q);
      nodes := nodes[n := x];
      assert nodes[..n + 1] == nodes[..n] + [x];
    }
    assert nodes[..N] == nodes;
    rec := Commit(st, nodes, t);
  }

  /** Counting one more node of the commit loop. */
  lemma TallyPrefix(before: seq<State>, after: seq<State>, n: nat, t: nat)
    requires |before| == |after| && n < |before|
    ensures var r := Tally(before[..n], after[..n], t);
      Tally(before[..n + 1], after[..n + 1], t) ==
        if before[n] == S then r.(curSus := r.curSus + 1, infected := r.infected + if after[n] == I then 1 else 0)
        else r.(curInf := r.curInf + 1, recover := r.recover + if after[n] == S then 1 else 0)
  {
    assert before[..n + 1][..n] == before[..n];
    assert after[..n + 1][..n] == after[..n];
  }

  /** The commit loop of `run_sis`: counts each node against its old state,
      then overwrites it with its decided state. */
  method Commit(st: array<State>, nodes: seq<State>, t: nat) returns (rec: StepRecord)
    requires |nodes| == st.Length
    modifies st
    ensures st[..] == nodes
    ensures rec == Tally(old(st[..]), nodes, t)
  {
    var N := st.Length;
    ghost var s := st[..];
    rec := StepRecord(t, 0, 0, 0, 0);
    for node := 0 to N
      invariant forall u :: 0 <= u < node ==> st[u] == nodes[u]
      invariant forall u :: node <= u < N ==> st[u] == s[u]
      invariant rec == Tally(s[..node], nodes[..node], t)
    {
      TallyPrefix(s, nodes, node, t);
      if st[node] == S {
        rec := rec.(curSus := rec.curSus + 1);
        if nodes[node] == I {
          rec := rec.(infected := rec.infected + 1);
        }
      } else {
        rec := rec.(curInf := rec.curInf + 1);
        if nodes[node] == S {
          rec := rec.(recover := rec.recover + 1);
        }
      }
      st[node] := nodes[node];
    }
    assert st[..] == nodes;
    assert s[..N] == s && nodes[..N] == nodes;
  }

  /** `run_sis`: tMax synchronous steps in place, one record per step. */
  method RunSis(adj: Adjacency, st: array<State>, rates: Rates, tMax: nat, rng: Draws, p: nat)
    returns (simStates: seq<StepRecord>, q: nat)
    requires InRange(adj) && st.Length == |adj|
    modifies st
    ensures Run(adj, old(st[..]), rates, tMax, rng, p) == Trace(simStates, st[..], q)
  {
    simStates, q := [], p;
    for t := 1 to tMax + 1
      invariant Run(adj, old(st[..]), rates, t - 1, rng, p) == Trace(simStates, st[..], q)
    {
      var rec;
      rec, q := Step(adj, st, rates, t, rng, q);
      simStates := simStates + [rec];
    }
  }

  /** A scan yields either the node's own state or `I`, consumes at most one
      draw per infected neighbour, consumes none and changes nothing when no
      neighbour is infected, and never infects when beta is not positive. */
  lemma {:induction false} ScanShape(nbrs: seq<nat>, s: seq<State>, cur: State, beta: real, rng: Draws, p: nat)
    requires forall i :: 0 <= i < |nbrs| ==> nbrs[i] < |s|
    ensures var r := Scan(nbrs, s, cur, beta, rng, p);
      (r.0 == cur || r.0 == I) && p <= r.1 <= p + InfectedCount(nbrs, s)
    ensures InfectedCount(nbrs, s) == 0 ==> Scan(nbrs, s, cur, beta, rng, p) == (cur, p)
    ensures UnitDraws(rng) && beta <= 0.0 ==> Scan(nbrs, s, cur, beta, rng, p).0 == cur
  {
    if nbrs != [] {
      ScanShape(nbrs[1..], s, cur, beta, rng, if s[nbrs[0]] == I then p + 1 else p);
    }
  }

  /** Some draw at a position in [lo, hi) is below beta. */
  ghost predicate Hit(rng: Draws, beta: real, lo: nat, hi: nat) {
    exists j :: lo <= j < hi && rng(j) < beta
  }

  /** When a scan infects: the draws against the k infected neighbours sit
      at positions p..p+k-1; the node becomes `I` exactly when one of them
      is below beta, and then the scan stops at the first such draw (every
      earlier one was not below beta); otherwise the node keeps its state
      and all k draws are consumed. */
  lemma {:induction false} ScanInfects(nbrs: seq<nat>, s: seq<State>, cur: State, beta: real, rng: Draws, p: nat)
    requires forall i :: 0 <= i < |nbrs| ==> nbrs[i] < |s|
    ensures var r := Scan(nbrs, s, cur, beta, rng, p);
      var k := InfectedCount(nbrs, s);
      && (Hit(rng, beta, p, p + k) ==>
            r.0 == I && p < r.1 <= p + k && rng(r.1 - 1) < beta && !Hit(rng, beta, p, r.1 - 1))
      && (!Hit(rng, beta, p, p + k) ==> r == (cur, p + k))
  {
    if nbrs != [] && s[nbrs[0]] == I {
      var k := InfectedCount(nbrs, s);
      if rng(p) < beta {
        assert p <= p < p + k && rng(p) < beta;
      } else {
        var r := Scan(nbrs[1..], s, cur, beta, rng, p + 1);
        ScanInfects(nbrs[1..], s, cur, beta, rng, p + 1);
        HitShift(rng, beta, p, p + k);
        if p + 1 <= r.1 - 1 {
          HitShift(rng, beta, p, r.1 - 1);
        }
      }
    } else if nbrs != [] {
      ScanInfects(nbrs[1..], s, cur, beta, rng, p);
    }
  }

  /** A draw at p that is not below beta does not count as a hit. */
  lemma HitShift(rng: Draws, beta: real, p: nat, hi: nat)
    requires rng(p) >= beta && p < hi
    ensures Hit(rng, beta, p, hi) <==> Hit(rng, beta, p + 1, hi)
  {
    if Hit(rng, beta, p, hi) {
      var j :| p <= j < hi && rng(j) < beta;
      assert p + 1 <= j;
    }
  }

  /** A node's decision is never revised by the decisions after it. */
  lemma {:induction false} DecideStable(adj: Adjacency, s: seq<State>, rates: Rates, rng: Draws, p: nat, n: nat, k: nat)
    requires InRange(adj) && |s| == |adj| && n < k <= |adj|
    ensures Decide(adj, s, k, rates, rng, p).0[n] == Decide(adj, s, n + 1, rates, rng, p).0[n]
  {
    if k > n + 1 {
      DecideStable(adj, s, rates, rng, p, n, k - 1);
    }
  }

  /** The per-node rules of one step, all read from the pre-step states `s`:
      `V` stays `V` and no other node becomes `V`; an `I` node consumes
      exactly one draw and becomes `S` iff it is below gamma; any other node
      either keeps its state or becomes `I`, consuming at most one draw per
      infected neighbour, and none if it has no infected neighbour; it
      becomes `I` exactly when one of its draws is below beta, stopping at
      the first, and otherwise consumes one draw per infected neighbour.
      `before` and `after` are the stream positions around node n's turn. */
  lemma NextStateRules(adj: Adjacency, s: seq<State>, rates: Rates, rng: Draws, p: nat, n: nat)
    requires InRange(adj) && |s| == |adj| && n < |adj|
    ensures var x := NextStates(adj, s, rates, rng, p).0[n];
      var before := Decide(adj, s, n, rates, rng, p).1;
      var after := Decide(adj, s, n + 1, rates, rng, p).1;
      && (x, after) == NodeNext(adj, s, n, rates, rng, before)
      && (x == V <==> s[n] == V)
      && (s[n] == V ==> after == before)
      && (s[n] == I ==> after == before + 1 && (x == S <==> rng(before) < rates.gamma)
                                            && (x == I <==> rng(before) >= rates.gamma))
      && (s[n] != I && s[n] != V ==>
            (x == s[n] || x == I) && before <= after <= before + InfectedCount(adj[n], s))
      && (s[n] != I && s[n] != V && InfectedCount(adj[n], s) == 0 ==> x == s[n] && after == before)
      && (s[n] != I && s[n] != V ==>
            && (x == I <==> Hit(rng, rates.beta, before, before + InfectedCount(adj[n], s)))
            && (x == I ==> before < after && rng(after - 1) < rates.beta && !Hit(rng, rates.beta, before, after - 1))
            && (x != I ==> after == before + InfectedCount(adj[n], s)))
  {
    DecideStable(adj, s, rates, rng, p, n, |adj|);
    var before := Decide(adj, s, n, rates, rng, p).1;
    ScanShape(adj[n], s, s[n], rates.beta, rng, before);
    ScanInfects(adj[n], s, s[n], rates.beta, rng, before);
  }

  /** With beta = 0 (and draws in [0, 1)) a step infects nobody: every node
      infected afterwards was infected before, and the step counts no new
      infection. */
  lemma ZeroBetaNoNewInfection(adj: Adjacency, s: seq<State>, rates: Rates, rng: Draws, p: nat, t: nat)
    requires InRange(adj) && |s| == |adj|
    requires UnitDraws(rng) && rates.beta <= 0.0
    ensures var next := NextStates(adj, s, rates, rng, p).0;
      (forall n :: 0 <= n < |s| && next[n] == I ==> s[n] == I) && Tally(s, next, t).infected == 0
  {
    var next := NextStates(adj, s, rates, rng, p).0;
    forall n | 0 <= n < |s| && next[n] == I ensures s[n] == I {
      NextStateRules(adj, s, rates, rng, p, n);
    }
    TallyNoInfection(s, next, t);
  }

  /** With gamma = 1 (and draws in [0, 1)) every infected node recovers. */
  lemma FullGammaRecovery(adj: Adjacency, s: seq<State>, rates: Rates, rng: Draws, p: nat)
    requires InRange(adj) && |s| == |adj|
    requires UnitDraws(rng) && rates.gamma >= 1.0
    ensures var next := NextStates(adj, s, rates, rng, p).0;
      forall n :: 0 <= n < |s| && s[n] == I ==> next[n] == S
  {
    forall n | 0 <= n < |s| && s[n] == I
      ensures NextStates(adj, s, rates, rng, p).0[n] == S
    {
      NextStateRules(adj, s, rates, rng, p, n);
    }
  }

  /** Number of entries that are not `S`. */
  function CountNotS(s: seq<State>): nat {
    if s == [] then 0 else CountNotS(s[..|s| - 1]) + if s[|s| - 1] != S then 1 else 0
  }

  /** A step's `curInf` counts every node that was not `S` at its start,
      `V` included. */
  lemma {:induction false} TallyCounts(before: seq<State>, after: seq<State>, t: nat)
    requires |before| == |after|
    ensures Tally(before, after, t).curInf == CountNotS(before)
  {
    if before != [] {
      var n := |before| - 1;
      TallyCounts(before[..n], after[..n], t);
    }
  }

  /** No S-to-I change means the step's `infected` counter stays 0. */
  lemma {:induction false} TallyNoInfection(before: seq<State>, after: seq<State>, t: nat)
    requires |before| == |after|
    requires forall u :: 0 <= u < |before| && after[u] == I ==> before[u] != S
    ensures Tally(before, after, t).infected == 0
  {
    if before != [] {
      var n := |before| - 1;
      TallyNoInfection(before[..n], after[..n], t);
    }
  }

  /** After one step a node is `V` iff it was `V` before. */
  lemma StepKeepsVaccinated(adj: Adjacency, s: seq<State>, rates: Rates, rng: Draws, p: nat)
    requires InRange(adj) && |s| == |adj|
    ensures forall n :: 0 <= n < |s| ==> (NextStates(adj, s, rates, rng, p).0[n] == V <==> s[n] == V)
  {
    forall n | 0 <= n < |s|
      ensures NextStates(adj, s, rates, rng, p).0[n] == V <==> s[n] == V
    {
      NextStateRules(adj, s, rates, rng, p, n);
    }
  }

  /** Over any number of steps a node ends `V` iff it started `V`: vaccination
      is absorbing and nothing else becomes `V`. */
  lemma {:induction false} RunKeepsVaccinated(adj: Adjacency, s: seq<State>, rates: Rates, tMax: nat, rng: Draws, p: nat)
    requires InRange(adj) && |s| == |adj|
    ensures forall n :: 0 <= n < |s| ==> (Run(adj, s, rates, tMax, rng, p).states[n] == V <==> s[n] == V)
  {
    if tMax > 0 {
      RunKeepsVaccinated(adj, s, rates, tMax - 1, rng, p);
      var prev := Run(adj, s, rates, tMax - 1, rng, p);
      StepKeepsVaccinated(adj, prev.states, rates, rng, prev.pos);
      assert Run(adj, s, rates, tMax, rng, p).states == NextStates(adj, prev.states, rates, rng, prev.pos).0;
    }
  }

  /** beta times the number of infected neighbours: the impact that
      `vaccinate_greedy` maximises. */
  function Impact(adj: Adjacency, s: seq<State>, u: nat, beta: real): real
    requires InRange(adj) && |s| == |adj| && u < |adj|
  {
    beta * (InfectedCount(adj[u], s) as real)
  }

  /** u is a non-`V` node of maximal impact, and the first such in node order. */
  ghost predicate IsGreedyPick(adj: Adjacency, s: seq<State>, beta: real, u: nat)
    requires InRange(adj) && |s| == |adj|
  {
    && u < |s| && s[u] != V
    && (forall v :: 0 <= v < |s| && s[v] != V ==> Impact(adj, s, v, beta) <= Impact(adj, s, u, beta))
    && (forall v :: 0 <= v < u && s[v] != V ==> Impact(adj, s, v, beta) < Impact(adj, s, u, beta))
  }

  /** The argmax of one round of `vaccinate_greedy`: the first non-`V` node
      of maximal impact, or nothing when every node is `V`. */
  method PickGreedy(adj: Adjacency, st: array<State>, beta: real) returns (found: bool, best: nat)
    requires InRange(adj) && st.Length == |adj|
    ensures found <==> exists v :: 0 <= v < st.Length && st[v] != V
    ensures found ==> IsGreedyPick(adj, st[..], beta, best)
  {
    ghost var s := st[..];
    found, best := false, 0;
    var bestImpact := 0.0;
    for u := 0 to st.Length
      invariant found <==> exists v :: 0 <= v < u && s[v] != V
      invariant found ==> best < u && s[best] != V && bestImpact == Impact(adj, s, best, beta)
      invariant found ==> forall v :: 0 <= v < u && s[v] != V ==> Impact(adj, s, v, beta) <= bestImpact
      invariant found ==> forall v :: 0 <= v < best && s[v] != V ==> Impact(adj, s, v, beta) < bestImpact
    {
      if st[u] != V {
        var impact := Impact(adj, st[..], u, beta);
        if !found || impact > bestImpact {
          found, best, bestImpact := true, u, impact;
        }
      }
    }
  }

  /** `vaccinate_greedy`: vaccinates num nodes one greedy pick at a time, in
      place. It fails (`ok` false, every node then `V`) exactly when fewer
      than num nodes were not `V`; `picked` lists the vaccinated set in pick
      order. */
  method VaccinateGreedy(adj: Adjacency, st: array<State>, num: nat, beta: real)
    returns (ok: bool, picked: seq<nat>)
    requires InRange(adj) && st.Length == |adj|
    modifies st
    ensures ok <==> num <= CountNonV(old(st[..]))
    ensures ok ==> |picked| == num
    ensures !ok ==> forall u :: 0 <= u < st.Length ==> st[u] == V
    ensures Distinct(picked) && NodesIn(picked, st.Length)
    ensures forall k :: 0 <= k < |picked| ==> old(st[picked[k]]) != V
    ensures forall k :: 0 <= k < |picked| ==>
      IsGreedyPick(adj, Marked(old(st[..]), picked[..k]), beta, picked[k])
    ensures st[..] == Marked(old(st[..]), picked)
  {
    ghost var s0 := st[..];
    picked := [];
    while |picked| < num
      invariant |picked| <= num && Distinct(picked) && NodesIn(picked, st.Length)
      invariant forall k :: 0 <= k < |picked| ==> s0[picked[k]] != V
      invariant forall k :: 0 <= k < |picked| ==> IsGreedyPick(adj, Marked(s0, picked[..k]), beta, picked[k])
      invariant st[..] == Marked(s0, picked)
      invariant CountNonV(st[..]) + |picked| == CountNonV(s0)
      decreases num - |picked|
    {
      var found, u := PickGreedy(adj, st, beta);
      if !found {
        CountNonVZero(st[..]);
        ok := false;
        return;
      }
      assert u !in picked;
      CountNonVMark(st[..], u);
      MarkedSnoc(s0, picked, u);
      PrefixesOfSnoc(picked, u);
      picked := picked + [u];
      st[u] := V;
    }
    ok := true;
  }

  lemma MarkedSnoc(s: seq<State>, nodes: seq<nat>, u: nat)
    requires u < |s|
    ensures Marked(s, nodes + [u]) == Marked(s, nodes)[u := V]
  {
  }

  lemma PrefixesOfSnoc(xs: seq<nat>, u: nat)
    ensures forall k :: 0 <= k <= |xs| ==> (xs + [u])[..k] == xs[..k]
  {
  }

  /** The marking loop shared by the ranking-based routines of this module:
      the top num nodes by `key` become `V` in place. */
  method VaccinateByScore(st: array<State>, key: seq<real>, num: nat)
    requires |key| == st.Length
    modifies st
    ensures st[..] == Marked(old(st[..]), TopN(key, num))
  {
    MarkVaccinated(st, TopN(key, num));
  }

  /** `vaccinate_by_degree`: the num highest-degree nodes (ties in node
      order) become `V` in place. */
  method VaccinateByDegree(adj: Adjacency, st: array<State>, num: nat)
    requires st.Length == |adj|
    modifies st
    ensures st[..] == Marked(old(st[..]), TopN(Degrees(adj), num))
  {
    VaccinateByScore(st, Degrees(adj), num);
  }

  /** The five-cycle 0-1-2-3-4-0, neighbours in the order the edges
      0-1, 1-2, 2-3, 3-4, 4-0 list them. */
  function FiveCycle(): (adj: Adjacency)
    ensures InRange(adj)
  {
    var adj := [[1, 4], [0, 2], [1, 3], [2, 4], [3, 0]];
    assert InRange(adj);
    adj
  }

  lemma FiveCycleStep1()
    ensures NextStates(FiveCycle(), [I, S, S, S, S], Rates(1.0, 0.0), ZeroDraws(), 0) == ([I, I, S, S, I], 3)
  {
    var adj, rates, rng := FiveCycle(), Rates(1.0, 0.0), ZeroDraws();
    var s0 := [I, S, S, S, S];
    assert NodeNext(adj, s0, 0, rates, rng, 0) == (I, 1);
    assert NodeNext(adj, s0, 1, rates, rng, 1) == (I, 2);
    assert NodeNext(adj, s0, 2, rates, rng, 2) == (S, 2) by {
      assert [1, 3][1..] == [3];
    }
    assert NodeNext(adj, s0, 3, rates, rng, 2) == (S, 2) by {
      assert [2, 4][1..] == [4];
    }
    assert NodeNext(adj, s0, 4, rates, rng, 2) == (I, 3) by {
      assert [3, 0][1..] == [0];
    }
    assert [] + [I] == [I] && [I] + [I] == [I, I] && [I, I] + [S] == [I, I, S];
    assert [I, I, S] + [S] == [I, I, S, S] && [I, I, S, S] + [I] == [I, I, S, S, I];
    assert Decide(adj, s0, 1, rates, rng, 0) == ([I], 1);
    assert Decide(adj, s0, 2, rates, rng, 0) == ([I, I], 2);
    assert Decide(adj, s0, 3, rates, rng, 0) == ([I, I, S], 2);
    assert Decide(adj, s0, 4, rates, rng, 0) == ([I, I, S, S], 2);
  }

  lemma FiveCycleStep2()
    ensures NextStates(FiveCycle(), [I, I, S, S, I], Rates(1.0, 0.0), ZeroDraws(), 3) == ([I, I, I, I, I], 8)
  {
    var adj, rates, rng := FiveCycle(), Rates(1.0, 0.0), ZeroDraws();
    var s1 := [I, I, S, S, I];
    assert NodeNext(adj, s1, 0, rates, rng, 3) == (I, 4);
    assert NodeNext(adj, s1, 1, rates, rng, 4) == (I, 5);
    assert NodeNext(adj, s1, 2, rates, rng, 5) == (I, 6);
    assert NodeNext(adj, s1, 3, rates, rng, 6) == (I, 7) by {
      assert [2, 4][1..] == [4];
    }
    assert NodeNext(adj, s1, 4, rates, rng, 7) == (I, 8);
    assert [] + [I] == [I] && [I] + [I] == [I, I] && [I, I] + [I] == [I, I, I];
    assert [I, I, I] + [I] == [I, I, I, I] && [I, I, I, I] + [I] == [I, I, I, I, I];
    assert Decide(adj, s1, 1, rates, rng, 3) == ([I], 4);
    assert Decide(adj, s1, 2, rates, rng, 3) == ([I, I], 5);
    assert Decide(adj, s1, 3, rates, rng, 3) == ([I, I, I], 6);
    assert Decide(adj, s1, 4, rates, rng, 3) == ([I, I, I, I], 7);
  }

  lemma CountNotSOfFive(s: seq<State>)
    requires |s| == 5
    ensures CountNotS(s) == (if s[0] != S then 1 else 0) + (if s[1] != S then 1 else 0)
      + (if s[2] != S then 1 else 0) + (if s[3] != S then 1 else 0) + (if s[4] != S then 1 else 0)
  {
    assert s[..5] == s;
    assert s[..4][..3] == s[..3] && s[..3][..2] == s[..2] && s[..2][..1] == s[..1] && s[..1][..0] == [];
    assert CountNotS(s[..1]) == (if s[0] != S then 1 else 0);
    assert CountNotS(s[..2]) == CountNotS(s[..1]) + (if s[1] != S then 1 else 0);
    assert CountNotS(s[..3]) == CountNotS(s[..2]) + (if s[2] != S then 1 else 0);
    assert CountNotS(s[..4]) == CountNotS(s[..3]) + (if s[3] != S then 1 else 0);
    assert CountNotS(s) == CountNotS(s[..4]) + (if s[4] != S then 1 else 0);
  }

  lemma FiveCycleFirstTwoSteps()
    ensures Run(FiveCycle(), [I, S, S, S, S], Rates(1.0, 0.0), 2, ZeroDraws(), 0)
         == Trace([Tally([I, S, S, S, S], [I, I, S, S, I], 1), Tally([I, I, S, S, I], [I, I, I, I, I], 2)], [I, I, I, I, I], 8)
  {
    var adj, rates, rng := FiveCycle(), Rates(1.0, 0.0), ZeroDraws();
    var s0, s1 := [I, S, S, S, S], [I, I, S, S, I];
    FiveCycleStep1();
    FiveCycleStep2();
    assert Run(adj, s0, rates, 1, rng, 0) == Trace([Tally(s0, s1, 1)], s1, 3);
  }

  lemma FiveCycleCounts()
    ensures CountNotS([I, S, S, S, S]) == 1 && CountNotS([I, I, S, S, I]) == 3 && CountNotS([I, I, I, I, I]) == 5
  {
    CountNotSOfFive([I, S, S, S, S]);
    CountNotSOfFive([I, I, S, S, I]);
    CountNotSOfFive([I, I, I, I, I]);
  }

  /** Five-cycle seeded at node 0, beta = 1, gamma = 0, every draw 0: the
      records of steps 1..3 count 1, 3 and 5 infected nodes (each record
      counts the states its step starts from). */
  lemma FiveCycleScenario()
    ensures var tr := Run(FiveCycle(), [I, S, S, S, S], Rates(1.0, 0.0), 3, ZeroDraws(), 0);
      [tr.records[0].curInf, tr.records[1].curInf, tr.records[2].curInf] == [1, 3, 5]
  {
    var adj, rates, rng := FiveCycle(), Rates(1.0, 0.0), ZeroDraws();
    var s0, s1, s2 := [I, S, S, S, S], [I, I, S, S, I], [I, I, I, I, I];
    FiveCycleFirstTwoSteps();
    var s3 := NextStates(adj, s2, rates, rng, 8).0;
    var tr := Run(adj, s0, rates, 3, rng, 0);
    assert tr.records == [Tally(s0, s1, 1), Tally(s1, s2, 2), Tally(s2, s3, 3)];
    TallyCounts(s0, s1, 1);
    TallyCounts(s1, s2, 2);
    TallyCounts(s2, s3, 3);
    FiveCycleCounts();
  }
}
