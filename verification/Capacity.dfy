/**
 runtime/capacity.py: how many dispatches the idle workers can serve at once, and which
 workers one dispatch claims.  The closed formula is proved to be the best possible packing
 of the idle workers into disjoint groups, and is compared with claiming group by group.
 */
module Capacity {
  import opened Sequences

  type Worker = string

  datatype Profile = Profile(taskTypes: set<string>, hardware: map<string, int>)

  const NO_PROFILE := Profile({}, map[])

  datatype FreeCapacity = FreeCapacity(cpu: seq<Worker>, gpu: seq<Worker>, profiles: map<Worker, Profile>)

  /** What one dispatch claims: group sizes, the hardware test, and the gated task types it needs. */
  datatype Demand = Demand(cpuSize: nat, gpuSize: nat, meets: Profile -> bool, required: set<string>)

  function ProfileOf(c: FreeCapacity, w: Worker): (p: Profile) {
    if w in c.profiles then c.profiles[w] else NO_PROFILE
  }

  function MeetingHardware(c: FreeCapacity, ids: seq<Worker>, d: Demand): (r: seq<Worker>) {
    if c.profiles == map[] then ids else Filter(ids, w => d.meets(ProfileOf(c, w)))
  }

  predicate Advertises(c: FreeCapacity, d: Demand, w: Worker) {
    d.required <= ProfileOf(c, w).taskTypes
  }

  function CapableOf(c: FreeCapacity, d: Demand): (r: seq<Worker>) {
    Filter(MeetingHardware(c, c.cpu, d), w => Advertises(c, d, w))
  }

  // ----- groups and packings ------------------------------------------------------------

  datatype Group = Group(cpu: set<Worker>, gpu: set<Worker>)

  ghost predicate IsGroup(c: FreeCapacity, d: Demand, g: Group) {
    && g.cpu <= Elems(MeetingHardware(c, c.cpu, d)) && |g.cpu| == d.cpuSize
    && g.gpu <= Elems(MeetingHardware(c, c.gpu, d)) && |g.gpu| == d.gpuSize
    && (d.required != {} ==> exists w :: w in g.cpu && Advertises(c, d, w))
  }

  /** A group, on the pool and the profiles: idle workers that meet the hardware, one of which runs every required type. */
  lemma GroupOnProfiles(c: FreeCapacity, d: Demand, g: Group)
    ensures IsGroup(c, d, g) <==>
              && |g.cpu| == d.cpuSize && |g.gpu| == d.gpuSize
              && (forall w :: w in g.cpu ==> w in c.cpu) && (forall w :: w in g.gpu ==> w in c.gpu)
              && (c.profiles != map[] ==>
                    forall w :: w in g.cpu + g.gpu ==> d.meets(if w in c.profiles then c.profiles[w] else Profile({}, map[])))
              && (d.required != {} ==>
                    exists w :: w in g.cpu && w in c.profiles && forall t :: t in d.required ==> t in c.profiles[w].taskTypes)
  {
    MeetingOnProfiles(c, c.cpu, d, g.cpu);
    MeetingOnProfiles(c, c.gpu, d, g.gpu);
    if d.required != {} {
      var t :| t in d.required;
      forall w ensures Advertises(c, d, w) <==> w in c.profiles && forall t :: t in d.required ==> t in c.profiles[w].taskTypes {
        if Advertises(c, d, w) {
          assert t in ProfileOf(c, w).taskTypes;
        }
      }
    }
  }

  lemma MeetingOnProfiles(c: FreeCapacity, ids: seq<Worker>, d: Demand, s: set<Worker>)
    ensures s <= Elems(MeetingHardware(c, ids, d)) <==>
              && (forall w :: w in s ==> w in ids)
              && (c.profiles != map[] ==>
                    forall w :: w in s ==> d.meets(if w in c.profiles then c.profiles[w] else Profile({}, map[])))
  {
    if c.profiles != map[] {
      forall w ensures w in MeetingHardware(c, ids, d) <==> w in ids && d.meets(ProfileOf(c, w)) {
        FilterIn(ids, w => d.meets(ProfileOf(c, w)), w);
      }
    }
  }

  ghost predicate Apart(g: Group, h: Group) {
    g.cpu !! h.cpu && g.gpu !! h.gpu
  }

  /** Disjoint groups, each able to run one dispatch. */
  ghost predicate IsPacking(c: FreeCapacity, d: Demand, groups: seq<Group>) {
    && (forall i :: 0 <= i < |groups| ==> IsGroup(c, d, groups[i]))
    && (forall i, j :: 0 <= i < j < |groups| ==> Apart(groups[i], groups[j]))
  }

  ghost predicate Packs(c: FreeCapacity, d: Demand, n: nat) {
    exists groups :: |groups| == n && IsPacking(c, d, groups)
  }

  /** `n` disjoint groups can be formed, and no more. */
  ghost predicate IsLargestPacking(c: FreeCapacity, d: Demand, n: nat) {
    forall m: nat {:trigger Packs(c, d, m)} :: Packs(c, d, m) <==> m <= n
  }

  ghost predicate DistinctIds(c: FreeCapacity) {
    NoDup(c.cpu) && NoDup(c.gpu)
  }

  predicate ClaimsSome(d: Demand) {
    d.cpuSize > 0 || d.gpuSize > 0
  }

  // ----- the formula ------------------------------------------------------------------------

  function MinOf(counts: seq<nat>): (m: nat)
    ensures counts == [] ==> m == 0
    ensures counts != [] ==> m in counts
    ensures forall x :: x in counts ==> m <= x
  {
    if counts == [] then 0
    else
      var rest := counts[1..];
      assert counts == [counts[0]] + rest;
      if rest == [] then counts[0] else
        var m' := MinOf(rest);
        if counts[0] <= m' then counts[0] else m'
  }

  /** The bounds on the number of dispatches, one per claimed class and one for the gated types. */
  function Counts(c: FreeCapacity, d: Demand): (counts: seq<nat>)
  {
    var cpus, gpus := |MeetingHardware(c, c.cpu, d)|, |MeetingHardware(c, c.gpu, d)|;
    (if d.cpuSize > 0 then [cpus / d.cpuSize] else []) +
    (if d.gpuSize > 0 then [gpus / d.gpuSize] else []) +
    (if d.required != {} then [|CapableOf(c, d)|] else [])
  }

  function Dispatches(c: FreeCapacity, d: Demand): (n: nat) {
    if d.required != {} && (d.cpuSize < 1 || c.profiles == map[]) then 0 else MinOf(Counts(c, d))
  }

  /** `dispatch_count` */
  method DispatchCount(c: FreeCapacity, d: Demand) returns (n: nat)
    ensures n == Dispatches(c, d)
    ensures DistinctIds(c) && ClaimsSome(d) ==> IsLargestPacking(c, d, n)
    ensures !ClaimsSome(d) ==> n == 0
  {
    var eligibleCpu := MeetingHardware(c, c.cpu, d);
    var eligibleGpu := MeetingHardware(c, c.gpu, d);
    var counts: seq<nat> := [];
    if d.cpuSize > 0 {
      counts := counts + [|eligibleCpu| / d.cpuSize];
    }
    if d.gpuSize > 0 {
      counts := counts + [|eligibleGpu| / d.gpuSize];
    }
    MaximumForAll(c, d);
    if d.required != {} {
      if d.cpuSize < 1 || c.profiles == map[] {
        return 0;
      }
      counts := counts + [|CapableOf(c, d)|];
    }
    assert counts == Counts(c, d);
    n := MinOf(counts);
  }

  lemma MaximumForAll(c: FreeCapacity, d: Demand)
    ensures DistinctIds(c) && ClaimsSome(d) ==> IsLargestPacking(c, d, Dispatches(c, d))
  {
    if DistinctIds(c) && ClaimsSome(d) {
      forall m: nat ensures Packs(c, d, m) <==> m <= Dispatches(c, d) {
        DispatchesIsMaximum(c, d, m);
      }
    }
  }

  /** Enough workers of each kind for `n` groups, and a capable one for each. */
  ghost predicate Enough(c: FreeCapacity, d: Demand, n: nat) {
    && n * d.cpuSize <= |MeetingHardware(c, c.cpu, d)|
    && n * d.gpuSize <= |MeetingHardware(c, c.gpu, d)|
    && (d.required != {} && n > 0 ==> d.cpuSize > 0 && n <= |CapableOf(c, d)|)
  }

  lemma QuotientFits(total: nat, size: nat, n: nat)
    requires size > 0
    ensures n <= total / size <==> n * size <= total
  {
    var q := total / size;
    assert total == q * size + total % size;
    if n <= q {
      MulMono(n, q, size);
    } else {
      MulMono(q + 1, n, size);
      assert (q + 1) * size == q * size + size;
    }
  }

  lemma MulMono(a: nat, b: nat, size: nat)
    requires a <= b
    ensures a * size <= b * size
  {
    assert b * size == a * size + (b - a) * size;
  }

  lemma NothingCapable(c: FreeCapacity, d: Demand)
    requires c.profiles == map[] && d.required != {}
    ensures CapableOf(c, d) == []
  {
    if CapableOf(c, d) != [] {
      var w := CapableOf(c, d)[0];
      FilterIn(MeetingHardware(c, c.cpu, d), w => Advertises(c, d, w), w);
    }
  }

  lemma MinAtLeast(counts: seq<nat>, n: nat)
    requires counts != []
    ensures n <= MinOf(counts) <==> forall x :: x in counts ==> n <= x
  {
  }

  lemma DispatchesIsEnough(c: FreeCapacity, d: Demand, n: nat)
    requires ClaimsSome(d)
    ensures n <= Dispatches(c, d) <==> Enough(c, d, n)
  {
    var cpus, gpus := |MeetingHardware(c, c.cpu, d)|, |MeetingHardware(c, c.gpu, d)|;
    var capable := |CapableOf(c, d)|;
    if d.cpuSize > 0 {
      QuotientFits(cpus, d.cpuSize, n);
    }
    if d.gpuSize > 0 {
      QuotientFits(gpus, d.gpuSize, n);
    }
    assert n * 0 == 0;
    if d.required != {} && (d.cpuSize < 1 || c.profiles == map[]) {
      if c.profiles == map[] {
        NothingCapable(c, d);
      }
      assert 0 * d.cpuSize == 0 && 0 * d.gpuSize == 0;
    } else {
      MinAtLeast(Counts(c, d), n);
      forall x ensures x in Counts(c, d) <==>
        || (d.cpuSize > 0 && x == cpus / d.cpuSize)
        || (d.gpuSize > 0 && x == gpus / d.gpuSize)
        || (d.required != {} && x == capable)
      {
      }
    }
  }

  // ----- lists as sets -----------------------------------------------------------------------

  lemma {:induction false} FilterNoDup<T(!new)>(s: seq<T>, keep: T -> bool)
    requires NoDup(s)
    ensures NoDup(Filter(s, keep))
  {
    FilterPairwise(s, keep, (x, y) => x != y);
  }

  lemma EligibleSets(c: FreeCapacity, d: Demand)
    requires DistinctIds(c)
    ensures NoDup(MeetingHardware(c, c.cpu, d)) && NoDup(MeetingHardware(c, c.gpu, d)) && NoDup(CapableOf(c, d))
    ensures |Elems(MeetingHardware(c, c.cpu, d))| == |MeetingHardware(c, c.cpu, d)|
    ensures |Elems(MeetingHardware(c, c.gpu, d))| == |MeetingHardware(c, c.gpu, d)|
    ensures |Elems(CapableOf(c, d))| == |CapableOf(c, d)|
    ensures Elems(CapableOf(c, d)) == set w | w in Elems(MeetingHardware(c, c.cpu, d)) && Advertises(c, d, w)
  {
    var eligible := MeetingHardware(c, c.cpu, d);
    FilterNoDup(c.cpu, w => d.meets(ProfileOf(c, w)));
    FilterNoDup(c.gpu, w => d.meets(ProfileOf(c, w)));
    FilterNoDup(eligible, w => Advertises(c, d, w));
    NoDupCard(eligible);
    NoDupCard(MeetingHardware(c, c.gpu, d));
    NoDupCard(CapableOf(c, d));
    forall w ensures w in CapableOf(c, d) <==> w in eligible && Advertises(c, d, w) {
      FilterIn(eligible, w => Advertises(c, d, w), w);
    }
  }

  // ----- the upper bound -----------------------------------------------------------------------

  ghost function UnionOf<T>(sets: seq<set<T>>): (u: set<T>)
    ensures forall i :: 0 <= i < |sets| ==> sets[i] <= u
  {
    if sets == [] then {} else UnionOf(sets[..|sets| - 1]) + sets[|sets| - 1]
  }

  lemma {:induction false} DisjointSetsNeed<T>(sets: seq<set<T>>, universe: set<T>, size: nat)
    requires forall i :: 0 <= i < |sets| ==> sets[i] <= universe && |sets[i]| >= size
    requires forall i, j :: 0 <= i < j < |sets| ==> sets[i] !! sets[j]
    ensures UnionOf(sets) <= universe
    ensures |sets| * size <= |UnionOf(sets)|
    ensures |sets| * size <= |universe|
  {
    if sets != [] {
      var n := |sets| - 1;
      DisjointSetsNeed(sets[..n], universe, size);
      DisjointFromUnion(sets[..n], sets[n]);
      assert (n + 1) * size == n * size + size;
    }
    SubsetCard(UnionOf(sets), universe);
  }

  lemma {:induction false} DisjointFromUnion<T>(sets: seq<set<T>>, s: set<T>)
    requires forall i :: 0 <= i < |sets| ==> sets[i] !! s
    ensures UnionOf(sets) !! s
  {
    if sets != [] {
      DisjointFromUnion(sets[..|sets| - 1], s);
    }
  }

  lemma PackingNeedsWorkers(c: FreeCapacity, d: Demand, groups: seq<Group>)
    requires DistinctIds(c) && IsPacking(c, d, groups)
    ensures |groups| * d.cpuSize <= |MeetingHardware(c, c.cpu, d)|
    ensures |groups| * d.gpuSize <= |MeetingHardware(c, c.gpu, d)|
  {
    EligibleSets(c, d);
    var n := |groups|;
    assert forall i :: 0 <= i < n ==> IsGroup(c, d, groups[i]);
    var cpus := seq(n, i requires 0 <= i < n => groups[i].cpu);
    var gpus := seq(n, i requires 0 <= i < n => groups[i].gpu);
    forall i, j | 0 <= i < j < n ensures cpus[i] !! cpus[j] && gpus[i] !! gpus[j] {
      assert Apart(groups[i], groups[j]);
    }
    DisjointSetsNeed(cpus, Elems(MeetingHardware(c, c.cpu, d)), d.cpuSize);
    DisjointSetsNeed(gpus, Elems(MeetingHardware(c, c.gpu, d)), d.gpuSize);
  }

  lemma GroupHasCapable(c: FreeCapacity, d: Demand, g: Group)
    requires DistinctIds(c) && IsGroup(c, d, g) && d.required != {}
    ensures |g.cpu * Elems(CapableOf(c, d))| >= 1 && d.cpuSize > 0
  {
    EligibleSets(c, d);
    var w :| w in g.cpu && Advertises(c, d, w);
    SubsetCard({w}, g.cpu * Elems(CapableOf(c, d)));
    SubsetCard({w}, g.cpu);
  }

  lemma PackingNeedsCapable(c: FreeCapacity, d: Demand, groups: seq<Group>)
    requires DistinctIds(c) && IsPacking(c, d, groups) && d.required != {} && groups != []
    ensures |groups| <= |CapableOf(c, d)| && d.cpuSize > 0
  {
    EligibleSets(c, d);
    var n, capable := |groups|, Elems(CapableOf(c, d));
    var leaders := seq(n, i requires 0 <= i < n => groups[i].cpu * capable);
    forall i | 0 <= i < n ensures |leaders[i]| >= 1 {
      GroupHasCapable(c, d, groups[i]);
    }
    forall i, j | 0 <= i < j < n ensures leaders[i] !! leaders[j] {
      assert Apart(groups[i], groups[j]);
    }
    DisjointSetsNeed(leaders, capable, 1);
    GroupHasCapable(c, d, groups[0]);
  }

  lemma PackingNeedsEnough(c: FreeCapacity, d: Demand, groups: seq<Group>)
    requires DistinctIds(c) && IsPacking(c, d, groups)
    ensures Enough(c, d, |groups|)
  {
    PackingNeedsWorkers(c, d, groups);
    if d.required != {} && groups != [] {
      PackingNeedsCapable(c, d, groups);
    }
  }

  // ----- reaching it -----------------------------------------------------------------------------

  ghost function Pick<T>(s: set<T>, n: nat): (r: set<T>)
    requires n <= |s|
    ensures r <= s && |r| == n
  {
    if n == 0 then {}
    else
      var x :| x in s;
      Pick(s - {x}, n - 1) + {x}
  }

  /** A group dealt from the pools: `lead` leaders, `size` members and `gpuSize` GPUs. */
  ghost predicate IsDealt(
      g: Group, leaders: set<Worker>, lead: nat, members: set<Worker>, size: nat, gpus: set<Worker>, gpuSize: nat)
  {
    && g.cpu <= leaders + members && |g.cpu| == lead + size && |g.cpu * leaders| == lead
    && g.gpu <= gpus && |g.gpu| == gpuSize
  }

  lemma DealOne(leaders: set<Worker>, lead: nat, members: set<Worker>, size: nat, gpus: set<Worker>, gpuSize: nat) returns (g: Group)
    requires leaders !! members && lead <= |leaders| && size <= |members| && gpuSize <= |gpus|
    ensures IsDealt(g, leaders, lead, members, size, gpus, gpuSize)
    ensures |leaders - g.cpu| == |leaders| - lead && |members - g.cpu| == |members| - size && |gpus - g.gpu| == |gpus| - gpuSize
  {
    var l, m := Pick(leaders, lead), Pick(members, size);
    g := Group(l + m, Pick(gpus, gpuSize));
    assert g.cpu * leaders == l;
    assert leaders - g.cpu == leaders - l && members - g.cpu == members - m;
  }

  lemma DealtFromRest(
      h: Group, g: Group, leaders: set<Worker>, lead: nat, members: set<Worker>, size: nat, gpus: set<Worker>, gpuSize: nat)
    requires leaders !! members
    requires IsDealt(h, leaders - g.cpu, lead, members - g.cpu, size, gpus - g.gpu, gpuSize)
    ensures IsDealt(h, leaders, lead, members, size, gpus, gpuSize) && Apart(h, g)
  {
    assert h.cpu * leaders == h.cpu * (leaders - g.cpu);
  }

  /** The workers that `n` groups of one size take. */
  function Times(n: nat, size: nat): (total: nat) {
    if n == 0 then 0 else Times(n - 1, size) + size
  }

  lemma {:induction false} TimesIs(n: nat, size: nat)
    ensures Times(n, size) == n * size
  {
    if n > 0 {
      TimesIs(n - 1, size);
      assert n * size == (n - 1) * size + size;
    }
  }

  ghost predicate AllDealt(
      groups: seq<Group>, leaders: set<Worker>, lead: nat, members: set<Worker>, size: nat, gpus: set<Worker>, gpuSize: nat)
  {
    && (forall i :: 0 <= i < |groups| ==> IsDealt(groups[i], leaders, lead, members, size, gpus, gpuSize))
    && (forall i, j :: 0 <= i < j < |groups| ==> Apart(groups[i], groups[j]))
  }

  lemma DealNext(
      groups: seq<Group>, g: Group, leaders: set<Worker>, lead: nat, members: set<Worker>, size: nat,
      gpus: set<Worker>, gpuSize: nat)
    requires leaders !! members && IsDealt(g, leaders, lead, members, size, gpus, gpuSize)
    requires AllDealt(groups, leaders - g.cpu, lead, members - g.cpu, size, gpus - g.gpu, gpuSize)
    ensures AllDealt(groups + [g], leaders, lead, members, size, gpus, gpuSize)
  {
    forall i | 0 <= i < |groups|
      ensures IsDealt(groups[i], leaders, lead, members, size, gpus, gpuSize) && Apart(groups[i], g)
    {
      DealtFromRest(groups[i], g, leaders, lead, members, size, gpus, gpuSize);
    }
  }

  /** `n` disjoint groups out of separate pools. */
  lemma {:induction false} Deal(
      leaders: set<Worker>, lead: nat, members: set<Worker>, size: nat, gpus: set<Worker>, gpuSize: nat, n: nat)
    returns (groups: seq<Group>)
    requires leaders !! members
    requires Times(n, lead) <= |leaders| && Times(n, size) <= |members| && Times(n, gpuSize) <= |gpus|
    ensures |groups| == n && AllDealt(groups, leaders, lead, members, size, gpus, gpuSize)
    decreases n
  {
    if n == 0 {
      groups := [];
    } else {
      var g := DealOne(leaders, lead, members, size, gpus, gpuSize);
      groups := Deal(leaders - g.cpu, lead, members - g.cpu, size, gpus - g.gpu, gpuSize, n - 1);
      DealNext(groups, g, leaders, lead, members, size, gpus, gpuSize);
      groups := groups + [g];
    }
  }

  lemma EnoughPacksFreely(c: FreeCapacity, d: Demand, n: nat)
    requires DistinctIds(c) && Enough(c, d, n) && (d.required == {} || n == 0)
    ensures Packs(c, d, n)
  {
    EligibleSets(c, d);
    var eligible, gpus := Elems(MeetingHardware(c, c.cpu, d)), Elems(MeetingHardware(c, c.gpu, d));
    TimesIs(n, 0);
    TimesIs(n, d.cpuSize);
    TimesIs(n, d.gpuSize);
    var groups := Deal({}, 0, eligible, d.cpuSize, gpus, d.gpuSize, n);
    forall i | 0 <= i < n ensures IsGroup(c, d, groups[i]) {
      assert IsDealt(groups[i], {}, 0, eligible, d.cpuSize, gpus, d.gpuSize);
      assert {} + eligible == eligible;
    }
    assert IsPacking(c, d, groups);
  }

  lemma LedGroup(c: FreeCapacity, d: Demand, leaders: set<Worker>, g: Group)
    requires DistinctIds(c) && d.cpuSize > 0 && leaders <= Elems(CapableOf(c, d))
    requires
      var eligible, gpus := Elems(MeetingHardware(c, c.cpu, d)), Elems(MeetingHardware(c, c.gpu, d));
      IsDealt(g, leaders, 1, eligible - leaders, d.cpuSize - 1, gpus, d.gpuSize)
    ensures IsGroup(c, d, g)
  {
    EligibleSets(c, d);
    assert g.cpu * leaders != {};
    var w :| w in g.cpu * leaders;
    assert w in Elems(CapableOf(c, d));
  }

  /** First a leader is set aside for every group, then the rest are dealt out. */
  lemma EnoughPacksWithLeaders(c: FreeCapacity, d: Demand, n: nat)
    requires DistinctIds(c) && Enough(c, d, n) && d.required != {} && n > 0
    ensures Packs(c, d, n)
  {
    EligibleSets(c, d);
    var eligible, gpus := Elems(MeetingHardware(c, c.cpu, d)), Elems(MeetingHardware(c, c.gpu, d));
    var leaders := Pick(Elems(CapableOf(c, d)), n);
    MembersLeft(eligible, leaders, d.cpuSize, n);
    TimesIs(n, d.gpuSize);
    var groups := Deal(leaders, 1, eligible - leaders, d.cpuSize - 1, gpus, d.gpuSize, n);
    forall i | 0 <= i < n ensures IsGroup(c, d, groups[i]) {
      LedGroup(c, d, leaders, groups[i]);
    }
    assert IsPacking(c, d, groups);
  }

  lemma MembersLeft(eligible: set<Worker>, leaders: set<Worker>, size: nat, n: nat)
    requires leaders <= eligible && |leaders| == n && size > 0 && n * size <= |eligible|
    ensures Times(n, size - 1) <= |eligible - leaders| && Times(n, 1) <= |leaders|
  {
    TimesIs(n, size - 1);
    TimesIs(n, 1);
    assert n * size == n * (size - 1) + n;
  }

  lemma EnoughPacks(c: FreeCapacity, d: Demand, n: nat)
    requires DistinctIds(c) && Enough(c, d, n)
    ensures Packs(c, d, n)
  {
    if d.required == {} || n == 0 {
      EnoughPacksFreely(c, d, n);
    } else {
      EnoughPacksWithLeaders(c, d, n);
    }
  }

  /** The formula is exactly the largest number of disjoint groups. */
  lemma DispatchesIsMaximum(c: FreeCapacity, d: Demand, n: nat)
    requires DistinctIds(c) && ClaimsSome(d)
    ensures Packs(c, d, n) <==> n <= Dispatches(c, d)
  {
    DispatchesIsEnough(c, d, n);
    if Packs(c, d, n) {
      var groups :| |groups| == n && IsPacking(c, d, groups);
      PackingNeedsEnough(c, d, groups);
    }
    if Enough(c, d, n) {
      EnoughPacks(c, d, n);
    }
  }

  // ----- what one dispatch claims --------------------------------------------------------------------

  datatype Selection = Selection(cpu: seq<Worker>, gpu: seq<Worker>)

  function GroupOf(s: Selection): (g: Group) {
    Group(Elems(s.cpu), Elems(s.gpu))
  }

  /** The first eligible workers, the last CPU one replaced when none of them is capable. */
  function Claim(c: FreeCapacity, d: Demand): (r: Option<Selection>) {
    var eligible, gpus, capable := MeetingHardware(c, c.cpu, d), MeetingHardware(c, c.gpu, d), CapableOf(c, d);
    if |eligible| < d.cpuSize || |gpus| < d.gpuSize then None
    else if d.required == {} then Some(Selection(eligible[..d.cpuSize], gpus[..d.gpuSize]))
    else if d.cpuSize < 1 || capable == [] then None
    else if exists w :: w in eligible[..d.cpuSize] && w in capable then
      Some(Selection(eligible[..d.cpuSize], gpus[..d.gpuSize]))
    else Some(Selection(eligible[..d.cpuSize - 1] + [capable[0]], gpus[..d.gpuSize]))
  }

  lemma {:induction false} FilterLength<T(!new)>(s: seq<T>, keep: T -> bool)
    ensures |Filter(s, keep)| <= |s|
  {
    if s != [] {
      FilterLength(s[1..], keep);
    }
  }

  /** `eligible_workers` */
  method EligibleWorkers(c: FreeCapacity, d: Demand) returns (r: Option<Selection>)
    ensures r == Claim(c, d)
    ensures DistinctIds(c) && r.Some? ==> IsGroup(c, d, GroupOf(r.value)) && NoDup(r.value.cpu) && NoDup(r.value.gpu)
    ensures DistinctIds(c) && ClaimsSome(d) ==> (r.Some? <==> Dispatches(c, d) >= 1)
  {
    FilterLength(c.cpu, w => d.meets(ProfileOf(c, w)));
    FilterLength(c.gpu, w => d.meets(ProfileOf(c, w)));
    if DistinctIds(c) {
      ClaimIsGroup(c, d);
      if ClaimsSome(d) {
        ClaimWhenDispatchable(c, d);
      }
    }
    if |c.cpu| < d.cpuSize || |c.gpu| < d.gpuSize {
      return None;
    }
    if d.required != {} && (d.cpuSize < 1 || c.profiles == map[]) {
      if c.profiles == map[] {
        NothingCapable(c, d);
      }
      return None;
    }
    if c.profiles == map[] {
      return Some(Selection(c.cpu[..d.cpuSize], c.gpu[..d.gpuSize]));
    }
    var eligibleCpu := MeetingHardware(c, c.cpu, d);
    var eligibleGpu := MeetingHardware(c, c.gpu, d);
    if |eligibleCpu| < d.cpuSize || |eligibleGpu| < d.gpuSize {
      return None;
    }
    var selectedCpu := eligibleCpu[..d.cpuSize];
    if d.required != {} {
      var capable := Filter(eligibleCpu, w => Advertises(c, d, w));
      if capable == [] {
        return None;
      }
      if !exists w :: w in selectedCpu && w in capable {
        selectedCpu := selectedCpu[|selectedCpu| - 1 := capable[0]];
        assert selectedCpu == eligibleCpu[..d.cpuSize - 1] + [capable[0]];
      }
    }
    r := Some(Selection(selectedCpu, eligibleGpu[..d.gpuSize]));
  }

  lemma PrefixIsSet<T(!new)>(s: seq<T>, n: nat)
    requires NoDup(s) && n <= |s|
    ensures Elems(s[..n]) <= Elems(s) && |Elems(s[..n])| == n && NoDup(s[..n])
  {
    NoDupCard(s[..n]);
  }

  lemma ClaimIsGroup(c: FreeCapacity, d: Demand)
    requires DistinctIds(c)
    ensures Claim(c, d).Some? ==>
              && IsGroup(c, d, GroupOf(Claim(c, d).value))
              && NoDup(Claim(c, d).value.cpu) && NoDup(Claim(c, d).value.gpu)
  {
    EligibleSets(c, d);
    var r := Claim(c, d);
    if r.Some? {
      var eligible, gpus, capable := MeetingHardware(c, c.cpu, d), MeetingHardware(c, c.gpu, d), CapableOf(c, d);
      PrefixIsSet(eligible, d.cpuSize);
      PrefixIsSet(gpus, d.gpuSize);
      if d.required != {} {
        assert capable[0] in Elems(capable);
        if exists w :: w in eligible[..d.cpuSize] && w in capable {
          var w :| w in eligible[..d.cpuSize] && w in capable;
          assert w in Elems(capable);
          assert w in Elems(r.value.cpu) && Advertises(c, d, w);
        } else {
          assert eligible[..d.cpuSize - 1] == eligible[..d.cpuSize][..d.cpuSize - 1];
          assert capable[0] !in eligible[..d.cpuSize];
          NoDupCard(r.value.cpu);
          assert capable[0] == r.value.cpu[d.cpuSize - 1];
          assert Advertises(c, d, capable[0]) && capable[0] in Elems(r.value.cpu);
        }
      }
    }
  }

  /** A dispatch can be claimed exactly when the formula says there is one. */
  lemma ClaimWhenDispatchable(c: FreeCapacity, d: Demand)
    requires ClaimsSome(d)
    ensures Claim(c, d).Some? <==> Dispatches(c, d) >= 1
  {
    DispatchesIsEnough(c, d, 1);
  }

  // ----- claiming again and again ------------------------------------------------------------------------

  /** Snapshots split the workers by class and record either every profile or none. */
  ghost predicate IsSnapshot(c: FreeCapacity) {
    && DistinctIds(c) && Elems(c.cpu) !! Elems(c.gpu)
    && (c.profiles == map[] || forall w :: w in c.cpu || w in c.gpu ==> w in c.profiles)
  }

  /** The snapshot after the group has been marked busy. */
  ghost function Rest(c: FreeCapacity, g: Group): (r: FreeCapacity) {
    FreeCapacity(
      Filter(c.cpu, w => w !in g.cpu), Filter(c.gpu, w => w !in g.gpu),
      map w | w in c.profiles && w !in g.cpu + g.gpu :: c.profiles[w])
  }

  lemma EligibleIn(c: FreeCapacity, ids: seq<Worker>, d: Demand, w: Worker)
    ensures w in MeetingHardware(c, ids, d) <==> w in ids && (c.profiles == map[] || d.meets(ProfileOf(c, w)))
  {
    FilterIn(ids, w => d.meets(ProfileOf(c, w)), w);
  }

  lemma RestIn(c: FreeCapacity, g: Group, w: Worker)
    ensures w in Rest(c, g).cpu <==> w in c.cpu && w !in g.cpu
    ensures w in Rest(c, g).gpu <==> w in c.gpu && w !in g.gpu
  {
    FilterIn(c.cpu, w => w !in g.cpu, w);
    FilterIn(c.gpu, w => w !in g.gpu, w);
  }

  lemma RestIsSnapshot(c: FreeCapacity, d: Demand, g: Group)
    requires IsSnapshot(c) && IsGroup(c, d, g)
    ensures IsSnapshot(Rest(c, g))
  {
    var r := Rest(c, g);
    FilterNoDup(c.cpu, w => w !in g.cpu);
    FilterNoDup(c.gpu, w => w !in g.gpu);
    forall w ensures w in r.cpu ==> w in c.cpu && w !in g.cpu + g.gpu
             ensures w in r.gpu ==> w in c.gpu && w !in g.cpu + g.gpu
    {
      RestIn(c, g, w);
      EligibleIn(c, c.cpu, d, w);
      EligibleIn(c, c.gpu, d, w);
    }
  }

  lemma RestEligible(c: FreeCapacity, d: Demand, g: Group, w: Worker)
    requires IsSnapshot(c) && IsGroup(c, d, g)
    ensures w in MeetingHardware(Rest(c, g), Rest(c, g).cpu, d) <==> w in MeetingHardware(c, c.cpu, d) && w !in g.cpu
    ensures w in MeetingHardware(Rest(c, g), Rest(c, g).gpu, d) <==> w in MeetingHardware(c, c.gpu, d) && w !in g.gpu
    ensures w in MeetingHardware(Rest(c, g), Rest(c, g).cpu, d) ==> ProfileOf(Rest(c, g), w) == ProfileOf(c, w)
  {
    var r := Rest(c, g);
    RestIn(c, g, w);
    EligibleIn(c, c.cpu, d, w);
    EligibleIn(c, c.gpu, d, w);
    EligibleIn(r, r.cpu, d, w);
    EligibleIn(r, r.gpu, d, w);
    if w in r.cpu || w in r.gpu {
      assert w in Elems(c.cpu) || w in Elems(c.gpu);
      assert w !in g.cpu + g.gpu;
      if c.profiles != map[] {
        assert w in r.profiles;
      }
    }
  }

  ghost function CapableLeft(c: FreeCapacity, d: Demand, g: Group): nat {
    |Elems(CapableOf(c, d)) - g.cpu|
  }

  lemma RestSets(c: FreeCapacity, d: Demand, g: Group)
    requires IsSnapshot(c) && IsGroup(c, d, g)
    ensures Elems(MeetingHardware(Rest(c, g), Rest(c, g).cpu, d)) == Elems(MeetingHardware(c, c.cpu, d)) - g.cpu
    ensures Elems(MeetingHardware(Rest(c, g), Rest(c, g).gpu, d)) == Elems(MeetingHardware(c, c.gpu, d)) - g.gpu
  {
    var r := Rest(c, g);
    forall w
      ensures w in MeetingHardware(r, r.cpu, d) <==> w in MeetingHardware(c, c.cpu, d) && w !in g.cpu
      ensures w in MeetingHardware(r, r.gpu, d) <==> w in MeetingHardware(c, c.gpu, d) && w !in g.gpu
    {
      RestEligible(c, d, g, w);
    }
  }

  lemma RestCapable(c: FreeCapacity, d: Demand, g: Group)
    requires IsSnapshot(c) && IsGroup(c, d, g)
    ensures Elems(CapableOf(Rest(c, g), d)) == Elems(CapableOf(c, d)) - g.cpu
  {
    var r := Rest(c, g);
    forall w ensures w in CapableOf(r, d) <==> w in CapableOf(c, d) && w !in g.cpu {
      RestEligible(c, d, g, w);
      FilterIn(MeetingHardware(c, c.cpu, d), w => Advertises(c, d, w), w);
      FilterIn(MeetingHardware(r, r.cpu, d), w => Advertises(r, d, w), w);
    }
  }

  /** What is left once a group is gone: as many workers fewer as the group holds. */
  lemma RestCounts(c: FreeCapacity, d: Demand, g: Group)
    requires IsSnapshot(c) && IsGroup(c, d, g)
    ensures |MeetingHardware(Rest(c, g), Rest(c, g).cpu, d)| == |MeetingHardware(c, c.cpu, d)| - d.cpuSize
    ensures |MeetingHardware(Rest(c, g), Rest(c, g).gpu, d)| == |MeetingHardware(c, c.gpu, d)| - d.gpuSize
    ensures |CapableOf(Rest(c, g), d)| == CapableLeft(c, d, g)
  {
    RestIsSnapshot(c, d, g);
    EligibleSets(c, d);
    EligibleSets(Rest(c, g), d);
    RestSets(c, d, g);
    RestCapable(c, d, g);
  }

  lemma CapableFewer(c: FreeCapacity, d: Demand, g: Group)
    requires IsSnapshot(c) && IsGroup(c, d, g) && d.required != {}
    ensures CapableLeft(c, d, g) < |CapableOf(c, d)| && d.cpuSize > 0
  {
    EligibleSets(c, d);
    GroupHasCapable(c, d, g);
    var capable := Elems(CapableOf(c, d));
    assert capable == (capable - g.cpu) + g.cpu * capable;
  }

  lemma RestEnough(c: FreeCapacity, d: Demand, g: Group, n: nat)
    requires IsSnapshot(c) && IsGroup(c, d, g)
    ensures Enough(Rest(c, g), d, n) <==> Enough(c, d, n + 1) && (d.required != {} ==> n <= CapableLeft(c, d, g))
  {
    RestCounts(c, d, g);
    if d.required != {} {
      CapableFewer(c, d, g);
    }
    assert (n + 1) * d.cpuSize == n * d.cpuSize + d.cpuSize;
    assert (n + 1) * d.gpuSize == n * d.gpuSize + d.gpuSize;
  }

  /**
   Taking any group costs exactly one dispatch, unless gated types are needed and the group
   takes so many capable workers that too few are left.
   */
  lemma ClaimCosts(c: FreeCapacity, d: Demand, g: Group)
    requires IsSnapshot(c) && ClaimsSome(d) && IsGroup(c, d, g)
    ensures Dispatches(c, d) >= 1
    ensures Dispatches(Rest(c, g), d) <= Dispatches(c, d) - 1
    ensures Dispatches(Rest(c, g), d) == Dispatches(c, d) - 1 <==>
              d.required == {} || CapableLeft(c, d, g) >= Dispatches(c, d) - 1
  {
    var n, n' := Dispatches(c, d), Dispatches(Rest(c, g), d);
    assert IsPacking(c, d, [g]);
    DispatchesIsMaximum(c, d, |[g]|);
    RestEnough(c, d, g, n');
    RestEnough(c, d, g, n - 1);
    DispatchesIsEnough(Rest(c, g), d, n');
    DispatchesIsEnough(Rest(c, g), d, n - 1);
    DispatchesIsEnough(c, d, n' + 1);
    DispatchesIsEnough(c, d, n);
  }

  /** The groups that claiming takes one after another, until nothing can be claimed. */
  ghost predicate ClaimedInTurn(c: FreeCapacity, d: Demand, groups: seq<Group>)
    decreases |groups|
  {
    if groups == [] then Claim(c, d) == None
    else
      && Claim(c, d).Some? && groups[0] == GroupOf(Claim(c, d).value)
      && ClaimedInTurn(Rest(c, groups[0]), d, groups[1..])
  }

  lemma ClaimOnce(c: FreeCapacity, d: Demand)
    requires IsSnapshot(c) && ClaimsSome(d) && Claim(c, d).Some?
    ensures
      var r := Rest(c, GroupOf(Claim(c, d).value));
      && IsSnapshot(r) && Dispatches(r, d) <= Dispatches(c, d) - 1
      && (d.required == {} || d.cpuSize <= 1 ==> Dispatches(r, d) == Dispatches(c, d) - 1)
  {
    var g := GroupOf(Claim(c, d).value);
    ClaimIsGroup(c, d);
    RestIsSnapshot(c, d, g);
    ClaimCosts(c, d, g);
    if d.required != {} && d.cpuSize <= 1 {
      OneWorkerLeavesCapable(c, d, g);
    }
  }

  /** Claiming in turn never beats the formula, and reaches it without gated types or with one CPU worker a group. */
  lemma {:induction false} ClaimingInTurn(c: FreeCapacity, d: Demand, groups: seq<Group>)
    requires IsSnapshot(c) && ClaimsSome(d) && ClaimedInTurn(c, d, groups)
    ensures |groups| <= Dispatches(c, d)
    ensures d.required == {} || d.cpuSize <= 1 ==> |groups| == Dispatches(c, d)
    decreases |groups|
  {
    ClaimWhenDispatchable(c, d);
    if groups != [] {
      ClaimOnce(c, d);
      ClaimingInTurn(Rest(c, groups[0]), d, groups[1..]);
    }
  }

  /** Every claim on the way leaves enough capable workers for the dispatches that could still follow. */
  ghost predicate LeavesEnough(c: FreeCapacity, d: Demand, groups: seq<Group>)
    decreases |groups|
  {
    groups != [] ==>
      && (d.required == {} || CapableLeft(c, d, groups[0]) >= Dispatches(c, d) - 1)
      && LeavesEnough(Rest(c, groups[0]), d, groups[1..])
  }

  /** Claiming in turn reaches the formula if and only if no claim takes capable workers that later ones need. */
  lemma {:induction false} ClaimingReachesFormula(c: FreeCapacity, d: Demand, groups: seq<Group>)
    requires IsSnapshot(c) && ClaimsSome(d) && ClaimedInTurn(c, d, groups)
    ensures |groups| == Dispatches(c, d) <==> LeavesEnough(c, d, groups)
    decreases |groups|
  {
    ClaimWhenDispatchable(c, d);
    if groups != [] {
      var g, rest := groups[0], groups[1..];
      ClaimIsGroup(c, d);
      ClaimCosts(c, d, g);
      ClaimOnce(c, d);
      ClaimingInTurn(Rest(c, g), d, rest);
      ClaimingReachesFormula(Rest(c, g), d, rest);
    }
  }

  lemma OneWorkerLeavesCapable(c: FreeCapacity, d: Demand, g: Group)
    requires IsSnapshot(c) && ClaimsSome(d) && IsGroup(c, d, g) && d.required != {} && d.cpuSize <= 1
    ensures CapableLeft(c, d, g) >= Dispatches(c, d) - 1
  {
    DispatchesIsEnough(c, d, Dispatches(c, d));
    EligibleSets(c, d);
    var capable := Elems(CapableOf(c, d));
    SubsetCard(capable * g.cpu, g.cpu);
    assert capable == (capable - g.cpu) + capable * g.cpu;
  }

  /**
   Groups of two, four eligible workers of whom only the first two are capable: the formula
   says two, yet claiming takes both capable workers at once and stops after one group.
   */
  lemma ClaimingInTurnMayFallShort(c: FreeCapacity, d: Demand, a: Worker, b: Worker, x: Worker, y: Worker)
    requires IsSnapshot(c) && c.profiles != map[] && d.cpuSize == 2 && d.gpuSize == 0 && d.required != {}
    requires MeetingHardware(c, c.cpu, d) == [a, b, x, y] && CapableOf(c, d) == [a, b]
    ensures Dispatches(c, d) == 2
    ensures ClaimedInTurn(c, d, [Group({a, b}, {})])
  {
    DispatchesIsEnough(c, d, 2);
    DispatchesIsEnough(c, d, 3);
    FirstTwoClaimed(c, d, a, b, x, y);
    var g := Group({a, b}, {});
    ClaimIsGroup(c, d);
    ClaimCosts(c, d, g);
    assert Elems(CapableOf(c, d)) - g.cpu == {};
    RestIsSnapshot(c, d, g);
    ClaimWhenDispatchable(Rest(c, g), d);
    RestCounts(c, d, g);
    DispatchesIsEnough(Rest(c, g), d, 1);
    assert [g][1..] == [];
  }

  lemma FirstTwoClaimed(c: FreeCapacity, d: Demand, a: Worker, b: Worker, x: Worker, y: Worker)
    requires d.cpuSize == 2 && d.gpuSize == 0 && d.required != {}
    requires MeetingHardware(c, c.cpu, d) == [a, b, x, y] && CapableOf(c, d) == [a, b]
    ensures Claim(c, d).Some? && GroupOf(Claim(c, d).value) == Group({a, b}, {})
  {
    assert [a, b, x, y][..2] == [a, b];
    assert a in [a, b];
    assert Elems([a, b]) == {a, b};
    assert MeetingHardware(c, c.gpu, d)[..0] == [];
  }
}
