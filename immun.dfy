/** The ranking-based vaccination routines of src/immun.py: each copies the
    graph, ranks the nodes by a score, and sets the top n to `V` on the copy,
    leaving the input graph as it was. */
module Immun {
  import opened Graphs
  import opened Ranking

  /** The states a routine returns: the input states with the top n nodes
      by `key` set to `V`. */
  function Immunized(s: seq<State>, key: seq<real>, n: nat): seq<State>
    requires |key| == |s|
  {
    Marked(s, TopN(key, n))
  }

  /** The shared pattern: copy, take the first n of the stable descending
      sort by score, mark them `V` on the copy. */
  method ImmunByScore(st: array<State>, key: seq<real>, n: nat) returns (gc: array<State>)
    requires |key| == st.Length
    ensures fresh(gc) && gc[..] == Immunized(st[..], key, n)
  {
    gc := CopyStates(st);
    MarkVaccinated(gc, TopN(key, n));
  }

  /** `immun_high_degree`: the score is the node degree. */
  method ImmunHighDegree(adj: Adjacency, st: array<State>, n: nat) returns (gc: array<State>)
    requires st.Length == |adj|
    ensures fresh(gc) && gc[..] == Immunized(st[..], Degrees(adj), n)
  {
    gc := ImmunByScore(st, Degrees(adj), n);
  }

  /** `immun_page_rank`: the score is the PageRank vector, given here as
      an input (`rank[u]` is node u's PageRank). */
  method ImmunPageRank(st: array<State>, rank: seq<real>, n: nat) returns (gc: array<State>)
    requires |rank| == st.Length
    ensures fresh(gc) && gc[..] == Immunized(st[..], rank, n)
  {
    gc := ImmunByScore(st, rank, n);
  }

  /** `immun_betweenness_centrality`: the score is the betweenness
      centrality, given here as an input. */
  method ImmunBetweennessCentrality(st: array<State>, centrality: seq<real>, n: nat) returns (gc: array<State>)
    requires |centrality| == st.Length
    ensures fresh(gc) && gc[..] == Immunized(st[..], centrality, n)
  {
    gc := ImmunByScore(st, centrality, n);
  }

  /** What the routines promise: a node ends `V` exactly when it was `V`
      or ranks among the top n; every node the routine newly vaccinates
      scores at least as high as every node left unvaccinated; and at least
      min(n, N) nodes end up `V`. */
  lemma TopScoresVaccinated(s: seq<State>, key: seq<real>, n: nat)
    requires |key| == |s|
    ensures var r := Immunized(s, key, n);
      && |r| == |s|
      && (forall u :: 0 <= u < |s| ==> (r[u] == V <==> s[u] == V || u in TopN(key, n)))
      && (forall u, w :: 0 <= u < |s| && 0 <= w < |s| && s[u] != V && r[u] == V && r[w] != V ==> key[w] <= key[u])
      && CountNonV(r) + (if n < |s| then n else |s|) <= |s|
  {
    CountNonVMarked(s, TopN(key, n));
  }

  /** Highest degree in particular: each newly vaccinated node has at least
      the degree of each node left unvaccinated. */
  lemma HighDegreeVaccinated(adj: Adjacency, s: seq<State>, n: nat)
    requires |s| == |adj|
    ensures var r := Immunized(s, Degrees(adj), n);
      && (forall u, w :: 0 <= u < |s| && 0 <= w < |s| && s[u] != V && r[u] == V && r[w] != V ==> |adj[w]| <= |adj[u]|)
      && CountNonV(r) + (if n < |s| then n else |s|) <= |s|
  {
    TopScoresVaccinated(s, Degrees(adj), n);
  }

  /** Running a routine twice with the same scores changes nothing more. */
  lemma {:induction false} ImmunizedIdempotent(s: seq<State>, key: seq<real>, n: nat)
    requires |key| == |s|
    ensures Immunized(Immunized(s, key, n), key, n) == Immunized(s, key, n)
  {
    var r := Immunized(s, key, n);
    var rr := Immunized(r, key, n);
    forall u | 0 <= u < |s| ensures rr[u] == r[u] {
      if u in TopN(key, n) {
        assert r[u] == V;
      }
    }
  }
}
