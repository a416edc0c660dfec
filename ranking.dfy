/** "Sort the nodes by a score, largest first, and keep the first n": the
    selection step shared by the degree, PageRank and betweenness
    immunisers. The sort is stable even in descending order, so among equal
    scores the node listed first (the smaller id) stays first. */
module Ranking {

  /** Node u is placed before node w by a stable descending sort by `key`. */
  predicate Precedes(key: seq<real>, u: nat, w: nat)
    requires u < |key| && w < |key|
  {
    key[u] > key[w] || (key[u] == key[w] && u < w)
  }

  ghost predicate Keys(key: seq<real>, xs: seq<nat>) {
    forall i :: 0 <= i < |xs| ==> xs[i] < |key|
  }

  ghost predicate SortedBy(key: seq<real>, xs: seq<nat>)
    requires Keys(key, xs)
  {
    forall i, j :: 0 <= i < j < |xs| ==> Precedes(key, xs[i], xs[j])
  }

  /** Inserts x behind every element whose score is at least x's. */
  function Insert(key: seq<real>, x: nat, xs: seq<nat>): seq<nat>
    requires x < |key| && Keys(key, xs)
  {
    if xs == [] then [x]
    else if key[xs[0]] < key[x] then [x] + xs
    else [xs[0]] + Insert(key, x, xs[1..])
  }

  /** The nodes 0..n-1 in stable descending order of score. */
  function SortDesc(key: seq<real>, n: nat): (r: seq<nat>)
    requires n <= |key|
    ensures |r| == n && forall i :: 0 <= i < |r| ==> r[i] < n
  {
    if n == 0 then [] else
      var xs := SortDesc(key, n - 1);
      InsertMembers(key, n - 1, xs);
      Insert(key, n - 1, xs)
  }

  lemma {:induction false} InsertMembers(key: seq<real>, x: nat, xs: seq<nat>)
    requires x < |key| && Keys(key, xs)
    ensures |Insert(key, x, xs)| == |xs| + 1
    ensures forall y :: y in Insert(key, x, xs) <==> y == x || y in xs
    ensures forall i :: 0 <= i < |Insert(key, x, xs)| ==> Insert(key, x, xs)[i] == x || Insert(key, x, xs)[i] in xs
  {
    if xs != [] && key[xs[0]] >= key[x] {
      InsertMembers(key, x, xs[1..]);
      assert forall y :: y in xs <==> y == xs[0] || y in xs[1..];
    }
  }

  /** Inserting a node larger than every node already placed keeps the
      order, ties included. */
  lemma {:induction false} InsertSorted(key: seq<real>, x: nat, xs: seq<nat>)
    requires x < |key| && Keys(key, xs) && SortedBy(key, xs)
    requires forall i :: 0 <= i < |xs| ==> xs[i] < x
    ensures Keys(key, Insert(key, x, xs)) && SortedBy(key, Insert(key, x, xs))
  {
    InsertMembers(key, x, xs);
    if xs == [] {
    } else if key[xs[0]] < key[x] {
      var r := [x] + xs;
      forall i, j | 0 <= i < j < |r| ensures Precedes(key, r[i], r[j]) {
        if i == 0 && j > 1 {
          assert Precedes(key, xs[0], xs[j - 1]);
        }
      }
    } else {
      var tl := Insert(key, x, xs[1..]);
      InsertSorted(key, x, xs[1..]);
      InsertMembers(key, x, xs[1..]);
      var r := [xs[0]] + tl;
      forall i, j | 0 <= i < j < |r| ensures Precedes(key, r[i], r[j]) {
        if i == 0 {
          assert r[j] in tl;
          if r[j] != x {
            var k :| 0 <= k < |xs[1..]| && xs[1..][k] == r[j];
            assert Precedes(key, xs[0], xs[k + 1]);
          }
        }
      }
    }
  }

  lemma {:induction false} SortDescKeys(key: seq<real>, n: nat)
    requires n <= |key|
    ensures forall y: nat :: y in SortDesc(key, n) <==> y < n
    ensures SortedBy(key, SortDesc(key, n))
  {
    if n > 0 {
      SortDescKeys(key, n - 1);
      var xs := SortDesc(key, n - 1);
      InsertMembers(key, n - 1, xs);
      InsertSorted(key, n - 1, xs);
      assert SortDesc(key, n) == Insert(key, n - 1, xs);
    }
  }

  /** The first n nodes of the stable descending sort: min(n, N) distinct
      existing nodes, each placed before every node left out, i.e. of higher
      score, or of equal score and smaller id. */
  function TopN(key: seq<real>, n: nat): (r: seq<nat>)
    ensures |r| == if n < |key| then n else |key|
    ensures forall i :: 0 <= i < |r| ==> r[i] < |key|
    ensures forall i, j :: 0 <= i < j < |r| ==> r[i] != r[j]
    ensures forall u, w :: u in r && 0 <= w < |key| && w !in r ==> Precedes(key, u, w)
  {
    var sorted := SortDesc(key, |key|);
    SortDescKeys(key, |key|);
    var m := if n < |key| then n else |key|;
    var r := sorted[..m];
    forall u, w | u in r && 0 <= w < |key| && w !in r
      ensures Precedes(key, u, w)
    {
      var i :| 0 <= i < m && r[i] == u;
      assert w in sorted;
      var j :| 0 <= j < |sorted| && sorted[j] == w;
    }
    forall i, j | 0 <= i < j < |r| ensures r[i] != r[j] {
      assert Precedes(key, sorted[i], sorted[j]);
    }
    r
  }
}
