/**
 Finite directed graphs, in the adjacency-map form that the topological sort takes:
 a key maps to the set of its neighbours, and a neighbour need not be a key.
 The module defines paths, cycles and heights without reference to any algorithm,
 so the sorting and compiling loops can be judged against them.
 */
module Digraph {

  ghost predicate Edge<T(!new)>(g: map<T, set<T>>, a: T, b: T) {
    a in g && b in g[a]
  }

  ghost function Nodes<T(!new)>(g: map<T, set<T>>): set<T> {
    g.Keys + set a, b | a in g && b in g[a] :: b
  }

  ghost function Preds<T(!new)>(g: map<T, set<T>>, n: T): set<T> {
    set a | a in g && n in g[a]
  }

  /** A walk: a nonempty sequence of nodes with an edge between neighbours in the sequence. */
  ghost predicate IsPath<T(!new)>(g: map<T, set<T>>, p: seq<T>) {
    && |p| > 0
    && p[0] in Nodes(g)
    && forall i, j :: 0 <= i < |p| && 0 <= j < |p| && j == i + 1 ==> Edge(g, p[i], p[j])
  }

  ghost predicate IsCycle<T(!new)>(g: map<T, set<T>>, p: seq<T>) {
    IsPath(g, p) && |p| >= 2 && p[0] == p[|p| - 1]
  }

  ghost predicate Acyclic<T(!new)>(g: map<T, set<T>>) {
    forall p: seq<T> :: !IsCycle(g, p)
  }

  ghost predicate PathInto<T(!new)>(g: map<T, set<T>>, n: T, p: seq<T>) {
    IsPath(g, p) && p[|p| - 1] == n
  }

  /** `k` edges is the length of the longest path that ends in `n`. */
  ghost predicate LongestInto<T(!new)>(g: map<T, set<T>>, n: T, k: nat) {
    && (exists p: seq<T> :: PathInto(g, n, p) && |p| == k + 1)
    && (forall p: seq<T> :: PathInto(g, n, p) ==> |p| <= k + 1)
  }

  /** `h` gives every node the length of its longest incoming path. */
  ghost predicate IsHeightMap<T(!new)>(g: map<T, set<T>>, h: map<T, nat>) {
    && h.Keys == Nodes(g)
    && forall n {:trigger LongestInto(g, n, h[n])} :: n in h ==> LongestInto(g, n, h[n])
  }

  /** The heights of all nodes; only a cyclic graph has none. */
  ghost function Heights<T(!new)>(g: map<T, set<T>>): map<T, nat> {
    if h: map<T, nat> :| IsHeightMap(g, h) then h else map[]
  }

  ghost function Height<T(!new)>(g: map<T, set<T>>, n: T): nat {
    if n in Heights(g) then Heights(g)[n] else 0
  }

  lemma LongestUnique<T(!new)>(g: map<T, set<T>>, n: T, k: nat, l: nat)
    requires LongestInto(g, n, k) && LongestInto(g, n, l)
    ensures k == l
  {
    var p :| PathInto(g, n, p) && |p| == k + 1;
    var q :| PathInto(g, n, q) && |q| == l + 1;
  }

  lemma HeightsAre<T(!new)>(g: map<T, set<T>>, h: map<T, nat>)
    requires IsHeightMap(g, h)
    ensures Heights(g) == h
  {
    var k := Heights(g);
    assert IsHeightMap(g, k);
    forall n | n in h ensures k[n] == h[n] {
      assert LongestInto(g, n, h[n]) && LongestInto(g, n, k[n]);
      LongestUnique(g, n, h[n], k[n]);
    }
  }

  lemma PathNodes<T(!new)>(g: map<T, set<T>>, p: seq<T>, i: nat)
    requires IsPath(g, p) && i < |p|
    ensures p[i] in Nodes(g)
  {
    if i > 0 {
      assert Edge(g, p[i - 1], p[i]);
    }
  }

  // ----- ranks ---------------------------------------------------------------

  /** Every edge climbs in `rank`. */
  ghost predicate Ranked<T(!new)>(g: map<T, set<T>>, rank: map<T, nat>) {
    forall a, b :: Edge(g, a, b) ==> a in rank && b in rank && rank[a] < rank[b]
  }

  lemma {:induction false} RankClimbs<T(!new)>(g: map<T, set<T>>, rank: map<T, nat>, p: seq<T>)
    requires Ranked(g, rank) && IsPath(g, p) && |p| >= 2
    ensures p[0] in rank && p[|p| - 1] in rank && rank[p[0]] + |p| - 1 <= rank[p[|p| - 1]]
  {
    var n := |p| - 1;
    assert Edge(g, p[n - 1], p[n]);
    if n > 1 {
      RankClimbs(g, rank, p[..n]);
    }
  }

  lemma RankedIsAcyclic<T(!new)>(g: map<T, set<T>>, rank: map<T, nat>)
    requires Ranked(g, rank)
    ensures Acyclic(g)
  {
    forall p: seq<T> | IsCycle(g, p) ensures false {
      RankClimbs(g, rank, p);
    }
  }

  ghost predicate PredJustBelow<T(!new)>(g: map<T, set<T>>, rank: map<T, nat>, n: T) {
    n in rank && exists a :: Edge(g, a, n) && a in rank && rank[a] + 1 == rank[n]
  }

  /** A rank that is 0 exactly on sources and otherwise one more than some predecessor's. */
  ghost predicate TightRank<T(!new)>(g: map<T, set<T>>, rank: map<T, nat>) {
    && Ranked(g, rank)
    && forall n {:trigger PredJustBelow(g, rank, n)} :: n in rank && rank[n] > 0 ==> PredJustBelow(g, rank, n)
  }

  lemma {:induction false} TightRankPath<T(!new)>(g: map<T, set<T>>, rank: map<T, nat>, n: T) returns (p: seq<T>)
    requires TightRank(g, rank) && n in rank && n in Nodes(g)
    ensures PathInto(g, n, p) && |p| == rank[n] + 1
    decreases rank[n]
  {
    if rank[n] == 0 {
      p := [n];
    } else {
      assert PredJustBelow(g, rank, n);
      var a :| Edge(g, a, n) && a in rank && rank[a] + 1 == rank[n];
      var q := TightRankPath(g, rank, a);
      p := q + [n];
    }
  }

  /** A tight rank is the height: this is what makes the layers of the sort path lengths. */
  lemma TightRankIsLongest<T(!new)>(g: map<T, set<T>>, rank: map<T, nat>, n: T)
    requires TightRank(g, rank) && n in rank && n in Nodes(g)
    ensures LongestInto(g, n, rank[n])
  {
    var q := TightRankPath(g, rank, n);
    forall p: seq<T> | PathInto(g, n, p) ensures |p| <= rank[n] + 1 {
      if |p| >= 2 {
        RankClimbs(g, rank, p);
      }
    }
  }

  // ----- a set with no source holds a cycle ------------------------------------

  ghost predicate HasPredIn<T(!new)>(g: map<T, set<T>>, s: set<T>, n: T) {
    exists a :: a in s && Edge(g, a, n)
  }

  ghost predicate NoSource<T(!new)>(g: map<T, set<T>>, s: set<T>) {
    forall n {:trigger HasPredIn(g, s, n)} :: n in s ==> HasPredIn(g, s, n)
  }

  lemma {:induction false} BackwardWalk<T(!new)>(g: map<T, set<T>>, s: set<T>, n: T, k: nat) returns (p: seq<T>)
    requires NoSource(g, s) && n in s
    ensures |p| == k + 1 && IsPath(g, p)
    ensures forall i :: 0 <= i < |p| ==> p[i] in s
  {
    if k == 0 {
      assert HasPredIn(g, s, n);
      p := [n];
    } else {
      var q := BackwardWalk(g, s, n, k - 1);
      assert HasPredIn(g, s, q[0]);
      var b :| b in s && Edge(g, b, q[0]);
      p := [b] + q;
    }
  }

  lemma {:induction false} Pigeonhole<T(!new)>(p: seq<T>, s: set<T>) returns (i: nat, j: nat)
    requires forall i :: 0 <= i < |p| ==> p[i] in s
    requires |p| > |s|
    ensures i < j < |p| && p[i] == p[j]
  {
    var n := |p| - 1;
    if k: nat :| k < n && p[k] == p[n] {
      i, j := k, n;
    } else {
      var rest := s - {p[n]};
      assert |rest| == |s| - 1;
      i, j := Pigeonhole(p[..n], rest);
    }
  }

  /** The fact behind "a short result means a cycle": walk backwards until a node repeats. */
  lemma NoSourceHasCycle<T(!new)>(g: map<T, set<T>>, s: set<T>)
    requires s != {} && NoSource(g, s)
    ensures !Acyclic(g)
  {
    var n :| n in s;
    var p := BackwardWalk(g, s, n, |s|);
    var i, j := Pigeonhole(p, s);
    var c := p[i..j + 1];
    PathNodes(g, p, i);
    assert IsCycle(g, c);
  }

  /** Acyclic graphs have ranks; recursions over the graph terminate by them. */
  lemma {:induction false} AcyclicHasRank<T(!new)>(g: map<T, set<T>>) returns (rank: map<T, nat>)
    requires Acyclic(g)
    ensures Ranked(g, rank) && rank.Keys == Nodes(g)
  {
    rank := PeelSources(g, Nodes(g));
    forall a, b | Edge(g, a, b) ensures a in rank && b in rank && rank[a] < rank[b] {
      assert a in Nodes(g) && b in Nodes(g);
    }
  }

  lemma {:induction false} PeelSources<T(!new)>(g: map<T, set<T>>, s: set<T>) returns (rank: map<T, nat>)
    requires Acyclic(g)
    ensures rank.Keys == s
    ensures forall a, b :: a in s && b in s && Edge(g, a, b) ==> rank[a] < rank[b]
    decreases |s|
  {
    if s == {} {
      rank := map[];
    } else {
      if NoSource(g, s) {
        NoSourceHasCycle(g, s);
      }
      var n :| n in s && !HasPredIn(g, s, n);
      var rest := PeelSources(g, s - {n});
      rank := map m | m in s :: if m == n then 0 else rest[m] + 1;
    }
  }

  // ----- renaming ----------------------------------------------------------------

  /** `f` carries the nodes and edges of `g` into `h`. */
  ghost predicate Carries<T(!new)>(g: map<T, set<T>>, h: map<T, set<T>>, f: map<T, T>) {
    && Nodes(g) <= f.Keys
    && (forall n :: n in Nodes(g) ==> f[n] in Nodes(h))
    && (forall a, b {:trigger Edge(g, a, b)} :: Edge(g, a, b) ==> Edge(h, f[a], f[b]))
  }

  /** `f` and `back` are inverse renamings between the graphs. */
  ghost predicate Isomorphic<T(!new)>(g: map<T, set<T>>, h: map<T, set<T>>, f: map<T, T>, back: map<T, T>) {
    && Carries(g, h, f) && Carries(h, g, back)
    && (forall n :: n in Nodes(g) ==> back[f[n]] == n)
    && (forall n :: n in Nodes(h) ==> f[back[n]] == n)
  }

  ghost function MapPath<T(!new)>(p: seq<T>, f: map<T, T>): (q: seq<T>)
    requires forall n :: n in p ==> n in f
    ensures |q| == |p| && forall i :: 0 <= i < |p| ==> q[i] == f[p[i]]
  {
    seq(|p|, i requires 0 <= i < |p| => f[p[i]])
  }

  lemma CarryPath<T(!new)>(g: map<T, set<T>>, h: map<T, set<T>>, f: map<T, T>, p: seq<T>)
    requires Carries(g, h, f) && IsPath(g, p)
    ensures forall n :: n in p ==> n in f
    ensures IsPath(h, MapPath(p, f))
  {
    forall i | 0 <= i < |p| ensures p[i] in Nodes(g) {
      PathNodes(g, p, i);
    }
    var q := MapPath(p, f);
    forall i, j | 0 <= i < |q| && 0 <= j < |q| && j == i + 1 ensures Edge(h, q[i], q[j]) {
      assert Edge(g, p[i], p[j]);
    }
  }

  lemma IsomorphicHeight<T(!new)>(g: map<T, set<T>>, h: map<T, set<T>>, f: map<T, T>, back: map<T, T>, n: T, k: nat)
    requires Isomorphic(g, h, f, back) && n in Nodes(g) && LongestInto(g, n, k)
    ensures LongestInto(h, f[n], k)
  {
    var p :| PathInto(g, n, p) && |p| == k + 1;
    CarryPath(g, h, f, p);
    assert PathInto(h, f[n], MapPath(p, f));
    forall q: seq<T> | PathInto(h, f[n], q) ensures |q| <= k + 1 {
      CarryPath(h, g, back, q);
      assert PathInto(g, n, MapPath(q, back));
    }
  }

  lemma IsomorphicAcyclic<T(!new)>(g: map<T, set<T>>, h: map<T, set<T>>, f: map<T, T>)
    requires Carries(g, h, f) && Acyclic(h)
    ensures Acyclic(g)
  {
    forall p: seq<T> ensures !IsCycle(g, p) {
      if IsPath(g, p) {
        CarryPath(g, h, f, p);
        assert !IsCycle(h, MapPath(p, f));
      }
    }
  }

  ghost predicate HasLongest<T(!new)>(g: map<T, set<T>>, n: T) {
    exists k: nat :: LongestInto(g, n, k)
  }

  lemma RankedHasLongest<T(!new)>(g: map<T, set<T>>, rank: map<T, nat>, n: T)
    requires Ranked(g, rank) && rank.Keys == Nodes(g) && n in Nodes(g)
    ensures HasLongest(g, n)
  {
    forall p: seq<T> | PathInto(g, n, p) ensures |p| <= rank[n] + 1 {
      if |p| >= 2 {
        RankClimbs(g, rank, p);
      }
    }
    var k := LongestBelow(g, rank, n, rank[n]);
  }

  /** Acyclic graphs have heights. */
  lemma AcyclicHasHeights<T(!new)>(g: map<T, set<T>>)
    requires Acyclic(g)
    ensures IsHeightMap(g, Heights(g))
  {
    var rank := AcyclicHasRank(g);
    forall n {:trigger HasLongest(g, n)} | n in Nodes(g) ensures HasLongest(g, n) {
      RankedHasLongest(g, rank, n);
    }
    HeightsAre(g, ChooseHeights(g, Nodes(g)));
  }

  ghost function ChooseHeights<T(!new)>(g: map<T, set<T>>, nodes: set<T>): (h: map<T, nat>)
    requires forall n {:trigger HasLongest(g, n)} :: n in nodes ==> HasLongest(g, n)
    ensures h.Keys == nodes
    ensures forall n {:trigger LongestInto(g, n, h[n])} :: n in h ==> LongestInto(g, n, h[n])
  {
    map n | n in nodes :: LongestLength(g, n)
  }

  ghost function LongestLength<T(!new)>(g: map<T, set<T>>, n: T): (k: nat)
    ensures HasLongest(g, n) ==> LongestInto(g, n, k)
  {
    if k: nat :| LongestInto(g, n, k) then k else 0
  }

  /** Renaming keeps heights. */
  lemma IsomorphicHeights<T(!new)>(g: map<T, set<T>>, h: map<T, set<T>>, f: map<T, T>, back: map<T, T>)
    requires Isomorphic(g, h, f, back) && Acyclic(g)
    ensures forall n :: n in Nodes(g) ==> Height(h, f[n]) == Height(g, n)
  {
    var at := Heights(g);
    AcyclicHasHeights(g);
    var moved := map m | m in Nodes(h) :: at[back[m]];
    forall m | m in moved ensures LongestInto(h, m, moved[m]) {
      assert LongestInto(g, back[m], at[back[m]]);
      IsomorphicHeight(g, h, f, back, back[m], at[back[m]]);
    }
    assert IsHeightMap(h, moved);
    HeightsAre(h, moved);
  }

  lemma {:induction false} LongestBelow<T(!new)>(g: map<T, set<T>>, rank: map<T, nat>, n: T, bound: nat) returns (k: nat)
    requires Ranked(g, rank) && rank.Keys == Nodes(g) && n in Nodes(g)
    requires forall p: seq<T> :: PathInto(g, n, p) ==> |p| <= bound + 1
    ensures LongestInto(g, n, k)
    decreases bound
  {
    if p: seq<T> :| PathInto(g, n, p) && |p| == bound + 1 {
      k := bound;
    } else {
      if bound == 0 {
        assert PathInto(g, n, [n]);
        assert false;
      }
      k := LongestBelow(g, rank, n, bound - 1);
    }
  }
}
