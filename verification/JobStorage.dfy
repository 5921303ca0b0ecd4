/**
 utils/job_storage.py: the job index behind `save` and `list_summaries`, kept in memory as an
 insertion-ordered dictionary, as the jobs_index.json blob, or as a SQLite table with retention,
 and routes/trace.py's paging loop over it.
 */
module JobStorage {
  import opened Sequences
  import opened JobLifecycle

  datatype Summary = Summary(
    jobId: string, orgId: string, userId: string, status: Status, submittedAt: int,
    parent: Option<string>, details: string)

  datatype Query = Query(
    orgId: string, userId: Option<string>, jobIds: Option<set<string>>, statuses: Option<set<Status>>)

  /** A filter set that is absent or empty does not filter. */
  predicate FiltersStatus(q: Query) {
    q.statuses.Some? && q.statuses.value != {}
  }

  predicate Matches(q: Query, s: Summary) {
    && s.orgId == q.orgId
    && (q.userId.Some? ==> s.userId == q.userId.value)
    && (q.jobIds.Some? ==> s.jobId in q.jobIds.value)
    && (FiltersStatus(q) ==> s.status in q.statuses.value)
    && s.parent.None?
  }

  // ----- the order of a listing -----------------------------------------------------------

  /** Strings compare by code point, a proper prefix first. */
  predicate LexLess(a: string, b: string) {
    if b == "" then false
    else if a == "" then true
    else a[0] < b[0] || (a[0] == b[0] && LexLess(a[1..], b[1..]))
  }

  lemma {:induction false} LexLinear(a: string, b: string)
    ensures !(LexLess(a, b) && LexLess(b, a))
    ensures a == b || LexLess(a, b) || LexLess(b, a)
    ensures !LexLess(a, a)
  {
    if a != "" && b != "" {
      LexLinear(a[1..], b[1..]);
      assert a == [a[0]] + a[1..] && b == [b[0]] + b[1..];
      if a[0] == b[0] && a[1..] == b[1..] {
        assert a == b;
      }
    }
    if a != "" {
      LexIrreflexive(a);
    }
  }

  lemma {:induction false} LexIrreflexive(a: string)
    ensures !LexLess(a, a)
  {
    if a != "" {
      LexIrreflexive(a[1..]);
    }
  }

  lemma {:induction false} LexTransitive(a: string, b: string, c: string)
    requires LexLess(a, b) && LexLess(b, c)
    ensures LexLess(a, c)
  {
    if a != "" && a[0] == b[0] && b[0] == c[0] {
      LexTransitive(a[1..], b[1..], c[1..]);
    }
  }

  /** Newest first, ties by descending job id. */
  predicate Before(a: Summary, b: Summary) {
    a.submittedAt > b.submittedAt || (a.submittedAt == b.submittedAt && LexLess(b.jobId, a.jobId))
  }

  predicate NotAfter(a: Summary, b: Summary) {
    !Before(b, a)
  }

  lemma BeforeLinear(a: Summary, b: Summary)
    ensures !(Before(a, b) && Before(b, a))
    ensures a.jobId != b.jobId ==> Before(a, b) || Before(b, a)
  {
    LexLinear(a.jobId, b.jobId);
  }

  lemma NotAfterTransitive(a: Summary, b: Summary, c: Summary)
    requires NotAfter(a, b) && NotAfter(b, c)
    ensures NotAfter(a, c)
  {
    LexLinear(a.jobId, b.jobId);
    LexLinear(b.jobId, c.jobId);
    LexLinear(a.jobId, c.jobId);
    if LexLess(b.jobId, a.jobId) && LexLess(c.jobId, b.jobId) {
      LexTransitive(c.jobId, b.jobId, a.jobId);
    }
  }

  lemma NotAfterIsPreorder()
    ensures TotalPreorder(NotAfter)
  {
    forall a, b ensures NotAfter(a, b) || NotAfter(b, a) {
      BeforeLinear(a, b);
    }
    forall a, b, c | NotAfter(a, b) && NotAfter(b, c) ensures NotAfter(a, c) {
      NotAfterTransitive(a, b, c);
    }
  }

  // ----- what a listing is ------------------------------------------------------------------

  type Index = map<string, Summary>

  ghost predicate Keyed(index: Index) {
    forall id :: id in index ==> index[id].jobId == id
  }

  ghost function Matching(index: Index, q: Query): (s: set<Summary>) {
    set id | id in index && Matches(q, index[id]) :: index[id]
  }

  ghost predicate InOrder(s: seq<Summary>) {
    forall i, j :: 0 <= i < j < |s| ==> Before(s[i], s[j])
  }

  /** The matching summaries, each once, strictly newest first. */
  ghost predicate IsListing(index: Index, q: Query, s: seq<Summary>) {
    Elems(s) == Matching(index, q) && InOrder(s)
  }

  lemma InOrderNoDup(s: seq<Summary>)
    requires InOrder(s)
    ensures NoDup(s)
  {
    forall i, j | 0 <= i < j < |s| ensures s[i] != s[j] {
      BeforeLinear(s[i], s[j]);
    }
  }

  lemma ListingUnique(index: Index, q: Query, s: seq<Summary>, t: seq<Summary>)
    requires IsListing(index, q, s) && IsListing(index, q, t)
    ensures s == t
  {
    InOrderNoDup(s);
    InOrderNoDup(t);
    forall x, y | Before(x, y) ensures !Before(y, x) {
      BeforeLinear(x, y);
    }
    StrictOrderUnique(s, t, Before);
  }

  ghost predicate DistinctJobs(s: set<Summary>) {
    forall a, b :: a in s && b in s && a.jobId == b.jobId ==> a == b
  }

  lemma {:induction false} FirstOf(s: set<Summary>) returns (x: Summary)
    requires s != {}
    ensures x in s && forall y :: y in s ==> NotAfter(x, y)
    decreases |s|
  {
    x :| x in s;
    if s == {x} {
      BeforeLinear(x, x);
    } else {
      var rest := s - {x};
      var y := FirstOf(rest);
      BeforeLinear(x, x);
      BeforeLinear(x, y);
      if Before(y, x) {
        x := y;
      } else {
        forall z | z in s ensures NotAfter(x, z) {
          if z != x {
            NotAfterTransitive(x, y, z);
          }
        }
      }
    }
  }

  lemma {:induction false} Arrange(s: set<Summary>) returns (r: seq<Summary>)
    requires DistinctJobs(s)
    ensures Elems(r) == s && InOrder(r)
    decreases |s|
  {
    if s == {} {
      r := [];
    } else {
      var x := FirstOf(s);
      var rest := Arrange(s - {x});
      forall y | y in rest ensures Before(x, y) {
        assert y in Elems(rest);
        BeforeLinear(x, y);
      }
      r := [x] + rest;
    }
  }

  ghost function Listing(index: Index, q: Query): (s: seq<Summary>)
    requires Keyed(index)
    ensures IsListing(index, q, s)
  {
    ListingExists(index, q);
    var s :| IsListing(index, q, s);
    s
  }

  lemma ListingExists(index: Index, q: Query)
    requires Keyed(index)
    ensures exists s :: IsListing(index, q, s)
  {
    var s := Arrange(Matching(index, q));
    assert IsListing(index, q, s);
  }

  /** What `n` full pages hold. */
  function Held(n: nat, pageSize: nat): (k: nat) {
    if n == 0 then 0 else Held(n - 1, pageSize) + pageSize
  }

  lemma {:induction false} HeldIs(n: nat, pageSize: nat)
    ensures Held(n, pageSize) == n * pageSize
  {
    if n > 0 {
      HeldIs(n - 1, pageSize);
      assert n * pageSize == (n - 1) * pageSize + pageSize;
    }
  }

  lemma {:induction false} HeldGrows(m: nat, n: nat, pageSize: nat)
    requires m <= n
    ensures Held(m, pageSize) <= Held(n, pageSize)
    ensures pageSize == 0 ==> Held(n, pageSize) == 0
  {
    if n > 0 {
      HeldGrows(if m < n then m else n - 1, n - 1, pageSize);
    }
  }

  /** The page of a list: `page` counts from 1. */
  function PageOf<T(!new)>(s: seq<T>, page: nat, pageSize: nat): (r: seq<T>)
    requires page >= 1
  {
    var start := Least(Held(page - 1, pageSize), |s|);
    s[start..Least(start + pageSize, |s|)]
  }

  /** The first pages side by side are the list's beginning: nothing skipped, nothing shown twice. */
  function Pages<T(!new)>(s: seq<T>, n: nat, pageSize: nat): (r: seq<T>) {
    if n == 0 then [] else Pages(s, n - 1, pageSize) + PageOf(s, n, pageSize)
  }

  lemma PrefixThenPart<T>(s: seq<T>, a: nat, b: nat)
    requires a <= b <= |s|
    ensures s[..a] + s[a..b] == s[..b]
  {
  }

  lemma {:induction false} PagesConcatenate<T(!new)>(s: seq<T>, n: nat, pageSize: nat)
    ensures Pages(s, n, pageSize) == s[..Least(Held(n, pageSize), |s|)]
  {
    if n > 0 {
      PagesConcatenate(s, n - 1, pageSize);
      var a := Least(Held(n - 1, pageSize), |s|);
      PrefixThenPart(s, a, Least(a + pageSize, |s|));
    }
  }

  // ----- a listing on the summaries' own fields ------------------------------------------------------

  /** One string is before another where they first differ, or when it is a proper beginning of it. */
  lemma {:induction false} LexByFirstDifference(a: string, b: string)
    ensures LexLess(a, b) <==>
              || (|a| < |b| && a == b[..|a|])
              || exists k :: 0 <= k < |a| && k < |b| && a[..k] == b[..k] && a[k] < b[k]
  {
    if a != "" && b != "" {
      var s, t := a[1..], b[1..];
      if a[0] == b[0] {
        LexByFirstDifference(s, t);
        forall k | 0 <= k < |s| && k < |t| ensures a[..k + 1] == [a[0]] + s[..k] && b[..k + 1] == [b[0]] + t[..k] {
        }
        assert |s| < |t| ==> b[..|a|] == [b[0]] + t[..|s|];
        assert a == [a[0]] + s && b == [b[0]] + t;
        if k :| 0 <= k < |s| && k < |t| && s[..k] == t[..k] && s[k] < t[k] {
          assert a[..k + 1] == b[..k + 1] && a[k + 1] < b[k + 1];
        }
        if k :| 0 <= k < |a| && k < |b| && a[..k] == b[..k] && a[k] < b[k] {
          assert k > 0;
          assert s[..k - 1] == a[..k][1..] && t[..k - 1] == b[..k][1..];
          assert s[k - 1] < t[k - 1];
        }
      } else {
        forall k | 0 < k < |a| && k < |b| ensures a[..k] != b[..k] {
          assert a[..k][0] == a[0] && b[..k][0] == b[0];
        }
        assert |a| < |b| ==> b[..|a|][0] == b[0];
        assert a[..0] == b[..0];
      }
    }
  }

  /** A listing is the root jobs of the organisation that pass the filters, newest first, ties by descending id. */
  lemma ListingOnFields(index: Index, q: Query, s: seq<Summary>)
    requires Keyed(index)
    ensures IsListing(index, q, s) <==>
              && (forall x :: x in s <==>
                    && x.jobId in index && index[x.jobId] == x && x.parent == None && x.orgId == q.orgId
                    && (q.userId.Some? ==> x.userId == q.userId.value)
                    && (q.jobIds.Some? ==> x.jobId in q.jobIds.value)
                    && (q.statuses.Some? && q.statuses.value != {} ==> x.status in q.statuses.value))
              && (forall i, j :: 0 <= i < j < |s| ==>
                    || s[i].submittedAt > s[j].submittedAt
                    || (s[i].submittedAt == s[j].submittedAt && LexLess(s[j].jobId, s[i].jobId)))
  {
    forall x ensures x in Matching(index, q) <==> x.jobId in index && index[x.jobId] == x && Matches(q, x) {
      if x in Matching(index, q) {
        var id :| id in index && Matches(q, index[id]) && index[id] == x;
      }
    }
    assert Elems(s) == Matching(index, q) <==> forall x :: x in s <==> x in Matching(index, q);
  }

  lemma PageOnFields(index: Index, q: Query, page: nat, pageSize: nat)
    requires Keyed(index) && page >= 1
    ensures
      var items := PageOf(Listing(index, q), page, pageSize);
      && (forall s :: s in items ==>
            && s.jobId in index && index[s.jobId] == s && s.parent == None && s.orgId == q.orgId
            && (q.userId.Some? ==> s.userId == q.userId.value)
            && (q.jobIds.Some? ==> s.jobId in q.jobIds.value)
            && (q.statuses.Some? && q.statuses.value != {} ==> s.status in q.statuses.value))
      && (forall i, j :: 0 <= i < j < |items| ==>
            || items[i].submittedAt > items[j].submittedAt
            || (items[i].submittedAt == items[j].submittedAt && LexLess(items[j].jobId, items[i].jobId)))
  {
    var all := Listing(index, q);
    ListingOnFields(index, q, all);
    forall s | s in PageOf(all, page, pageSize) ensures s in all {
    }
  }

  // ----- the dictionary index --------------------------------------------------------------------

  /** What Python does to a dictionary: an existing key keeps its place. */
  function Upsert(entries: seq<Summary>, s: Summary): (r: seq<Summary>) {
    if entries == [] then [s]
    else if entries[0].jobId == s.jobId then [s] + entries[1..]
    else [entries[0]] + Upsert(entries[1..], s)
  }

  ghost predicate DistinctIds(entries: seq<Summary>) {
    forall i, j :: 0 <= i < j < |entries| ==> entries[i].jobId != entries[j].jobId
  }

  ghost predicate Holds(entries: seq<Summary>, index: Index) {
    && DistinctIds(entries) && Keyed(index)
    && (forall s :: s in entries <==> s.jobId in index && index[s.jobId] == s)
  }

  lemma {:induction false} UpsertIn(entries: seq<Summary>, s: Summary)
    requires DistinctIds(entries)
    ensures DistinctIds(Upsert(entries, s))
    ensures forall x :: x in Upsert(entries, s) <==> x == s || (x in entries && x.jobId != s.jobId)
  {
    if entries == [] {
    } else {
      var e, rest := entries[0], entries[1..];
      assert entries == [e] + rest;
      UpsertIn(rest, s);
    }
  }

  lemma UpsertHolds(entries: seq<Summary>, index: Index, s: Summary)
    requires Holds(entries, index)
    ensures Holds(Upsert(entries, s), index[s.jobId := s])
  {
    UpsertIn(entries, s);
  }

  /** Filter, sort and cut, as both dictionary indexes do. */
  method ListEntries(entries: seq<Summary>, ghost index: Index, q: Query, page: nat, pageSize: nat)
    returns (items: seq<Summary>, total: nat)
    requires Holds(entries, index) && page >= 1
    ensures items == PageOf(Listing(index, q), page, pageSize) && total == |Listing(index, q)|
  {
    var filtered := FilterSummaries(entries, q);
    NotAfterIsPreorder();
    var sorted := Sort(filtered, NotAfter);
    SortedIsListing(entries, index, q, sorted);
    total := |sorted|;
    items := PageOf(sorted, page, pageSize);
  }

  class InMemoryStore {
    var entries: seq<Summary>
    ghost var index: Index

    ghost predicate Valid()
      reads this
    {
      Holds(entries, index)
    }

    constructor ()
      ensures Valid() && index == map[]
    {
      entries, index := [], map[];
    }

    method Save(s: Summary)
      requires Valid()
      modifies this
      ensures Valid() && index == old(index)[s.jobId := s]
    {
      UpsertHolds(entries, index, s);
      entries, index := Upsert(entries, s), index[s.jobId := s];
    }

    method ListSummaries(q: Query, page: nat, pageSize: nat) returns (items: seq<Summary>, total: nat)
      requires Valid() && page >= 1
      ensures items == PageOf(Listing(index, q), page, pageSize) && total == |Listing(index, q)|
      ensures forall s :: s in items ==>
                && s.jobId in index && index[s.jobId] == s && s.parent == None && s.orgId == q.orgId
                && (q.userId.Some? ==> s.userId == q.userId.value)
                && (q.jobIds.Some? ==> s.jobId in q.jobIds.value)
                && (q.statuses.Some? && q.statuses.value != {} ==> s.status in q.statuses.value)
      ensures forall i, j :: 0 <= i < j < |items| ==>
                || items[i].submittedAt > items[j].submittedAt
                || (items[i].submittedAt == items[j].submittedAt && LexLess(items[j].jobId, items[i].jobId))
    {
      PageOnFields(index, q, page, pageSize);
      items, total := ListEntries(entries, index, q, page, pageSize);
    }

    /** `iter_summaries` with a set of statuses. */
    method IterSummaries(statuses: set<Status>) returns (found: seq<Summary>)
      requires Valid()
      ensures forall s :: s in found <==> s.jobId in index && index[s.jobId] == s && s.status in statuses
      ensures DistinctIds(found)
    {
      found := Filter(entries, (s: Summary) => s.status in statuses);
      forall s ensures s in found <==> s in entries && s.status in statuses {
        FilterIn(entries, (s: Summary) => s.status in statuses, s);
      }
      FilterPairwise(entries, (s: Summary) => s.status in statuses, (a: Summary, b: Summary) => a.jobId != b.jobId);
    }
  }

  // ----- the blob index -----------------------------------------------------------------------------

  /** How a summary is written into the JSON blob, and how an entry is validated when it is read. */
  datatype Codec<!J> = Codec(encode: Summary -> J, decode: J -> Option<Summary>)

  /** What is assumed of the JSON form: a summary that is written is read back as it was. */
  ghost predicate RoundTrips<J(!new)>(codec: Codec<J>) {
    forall s :: codec.decode(codec.encode(s)) == Some(s)
  }

  /** The entries that validate, in order. */
  function Decoded<J(!new)>(codec: Codec<J>, blob: seq<(string, J)>): (entries: seq<Summary>) {
    if blob == [] then []
    else
      var rest := Decoded(codec, blob[1..]);
      match codec.decode(blob[0].1)
      case Some(s) => [s] + rest
      case None => rest
  }

  function UpsertBlob<J(!new)>(blob: seq<(string, J)>, id: string, value: J): (r: seq<(string, J)>) {
    if blob == [] then [(id, value)]
    else if blob[0].0 == id then [(id, value)] + blob[1..]
    else [blob[0]] + UpsertBlob(blob[1..], id, value)
  }

  /** Every entry validates, under its own job id. */
  ghost predicate AllReadable<J(!new)>(codec: Codec<J>, blob: seq<(string, J)>) {
    forall i :: 0 <= i < |blob| ==> codec.decode(blob[i].1).Some? && codec.decode(blob[i].1).value.jobId == blob[i].0
  }

  lemma {:induction false} UpsertDecoded<J(!new)>(codec: Codec<J>, blob: seq<(string, J)>, s: Summary)
    requires RoundTrips(codec) && AllReadable(codec, blob)
    ensures AllReadable(codec, UpsertBlob(blob, s.jobId, codec.encode(s)))
    ensures Decoded(codec, UpsertBlob(blob, s.jobId, codec.encode(s))) == Upsert(Decoded(codec, blob), s)
  {
    assert codec.decode(codec.encode(s)) == Some(s);
    var entry := (s.jobId, codec.encode(s));
    if blob == [] {
      assert [entry][1..] == [];
    } else {
      var rest := blob[1..];
      if blob[0].0 == s.jobId {
        assert ([entry] + rest)[1..] == rest;
      } else {
        UpsertDecoded(codec, rest, s);
        var next := UpsertBlob(rest, s.jobId, codec.encode(s));
        assert ([blob[0]] + next)[1..] == next;
      }
    }
  }

  class BlobStore<J(!new)> {
    const codec: Codec<J>
    var blob: seq<(string, J)>
    ghost var index: Index

    ghost predicate Valid()
      reads this
    {
      RoundTrips(codec) && AllReadable(codec, blob) && Holds(Decoded(codec, blob), index)
    }

    constructor (codec: Codec<J>)
      requires RoundTrips(codec)
      ensures Valid() && index == map[]
    {
      this.codec := codec;
      blob, index := [], map[];
    }

    /** Reads the whole index, sets one entry and writes it back. */
    method Save(s: Summary)
      requires Valid()
      modifies this
      ensures Valid() && index == old(index)[s.jobId := s]
    {
      UpsertDecoded(codec, blob, s);
      UpsertHolds(Decoded(codec, blob), index, s);
      blob, index := UpsertBlob(blob, s.jobId, codec.encode(s)), index[s.jobId := s];
    }

    /** The entries of the blob that can be read. */
    method ReadEntries() returns (entries: seq<Summary>)
      ensures entries == Decoded(codec, blob)
    {
      entries := [];
      for i := 0 to |blob|
        invariant entries + Decoded(codec, blob[i..]) == Decoded(codec, blob)
      {
        assert blob[i..][1..] == blob[i + 1..] && blob[i..][0] == blob[i];
        match codec.decode(blob[i].1) {
          case Some(s) =>
            assert entries + ([s] + Decoded(codec, blob[i + 1..])) == (entries + [s]) + Decoded(codec, blob[i + 1..]);
            entries := entries + [s];
          case None =>
        }
      }
      assert entries == Decoded(codec, blob);
    }

    method ListSummaries(q: Query, page: nat, pageSize: nat) returns (items: seq<Summary>, total: nat)
      requires Valid() && page >= 1
      ensures items == PageOf(Listing(index, q), page, pageSize) && total == |Listing(index, q)|
      ensures forall s :: s in items ==>
                && s.jobId in index && index[s.jobId] == s && s.parent == None && s.orgId == q.orgId
                && (q.userId.Some? ==> s.userId == q.userId.value)
                && (q.jobIds.Some? ==> s.jobId in q.jobIds.value)
                && (q.statuses.Some? && q.statuses.value != {} ==> s.status in q.statuses.value)
      ensures forall i, j :: 0 <= i < j < |items| ==>
                || items[i].submittedAt > items[j].submittedAt
                || (items[i].submittedAt == items[j].submittedAt && LexLess(items[j].jobId, items[i].jobId))
    {
      PageOnFields(index, q, page, pageSize);
      var entries := ReadEntries();
      items, total := ListEntries(entries, index, q, page, pageSize);
    }
  }

  /** `_filter_summaries` */
  method FilterSummaries(entries: seq<Summary>, q: Query) returns (filtered: seq<Summary>)
    ensures filtered == Filter(entries, (s: Summary) => Matches(q, s))
  {
    filtered := [];
    for i := 0 to |entries|
      invariant filtered == Filter(entries[..i], (s: Summary) => Matches(q, s))
    {
      var s := entries[i];
      assert entries[..i + 1] == entries[..i] + [s];
      FilterAppend(entries[..i], [s], (s: Summary) => Matches(q, s));
      FilterOne(q, s);
      if s.orgId != q.orgId {
        continue;
      }
      if q.userId.Some? && s.userId != q.userId.value {
        continue;
      }
      if q.jobIds.Some? && s.jobId !in q.jobIds.value {
        continue;
      }
      if FiltersStatus(q) && s.status !in q.statuses.value {
        continue;
      }
      if s.parent.Some? {
        continue;
      }
      filtered := filtered + [s];
    }
    assert entries[..|entries|] == entries;
  }

  lemma FilterOne(q: Query, s: Summary)
    ensures Filter([s], (s: Summary) => Matches(q, s)) == if Matches(q, s) then [s] else []
  {
    assert [s][1..] == [];
  }

  /** Filtering and then sorting the entries gives the listing. */
  lemma SortedIsListing(entries: seq<Summary>, index: Index, q: Query, sorted: seq<Summary>)
    requires Holds(entries, index)
    requires multiset(sorted) == multiset(Filter(entries, (s: Summary) => Matches(q, s))) && SortedBy(sorted, NotAfter)
    ensures IsListing(index, q, sorted) && sorted == Listing(index, q)
  {
    var filtered := Filter(entries, (s: Summary) => Matches(q, s));
    forall s ensures s in filtered <==> s in Matching(index, q) {
      FilterIn(entries, (s: Summary) => Matches(q, s), s);
    }
    FilterPairwise(entries, (s: Summary) => Matches(q, s), (a: Summary, b: Summary) => a.jobId != b.jobId);
    MultisetNoDup(filtered, sorted);
    forall i, j | 0 <= i < j < |sorted| ensures Before(sorted[i], sorted[j]) {
      assert sorted[i] in Elems(filtered) && sorted[j] in Elems(filtered);
      assert sorted[i].jobId in index && sorted[j].jobId in index;
      assert NotAfter(sorted[i], sorted[j]);
      BeforeLinear(sorted[i], sorted[j]);
    }
    assert Elems(sorted) == Matching(index, q);
    ListingUnique(index, q, sorted, Listing(index, q));
  }

  // ----- the SQLite index -----------------------------------------------------------------------------

  /** One `save` as the SQLite store meets it: the retention setting and both clocks. */
  datatype SaveEvent = SaveEvent(summary: Summary, days: int, now: int, wall: int)

  datatype Table = Table(rows: Index, lastPrune: Option<int>)

  const SECONDS_PER_DAY := 86400

  predicate Due(t: Table, e: SaveEvent) {
    e.days > 0 && !(t.lastPrune.Some? && e.now - t.lastPrune.value < 3600)
  }

  /** Only a finished job submitted before the cutoff goes. */
  predicate Expired(s: Summary, cutoff: int) {
    s.submittedAt < cutoff && Terminal(s.status)
  }

  function Pruned(rows: Index, cutoff: int): (r: Index) {
    map id | id in rows && !Expired(rows[id], cutoff) :: rows[id]
  }

  function AfterSave(t: Table, e: SaveEvent): (r: Table) {
    var rows := t.rows[e.summary.jobId := e.summary];
    if Due(t, e) then Table(Pruned(rows, e.wall - e.days * SECONDS_PER_DAY), Some(e.now)) else Table(rows, t.lastPrune)
  }

  function LimitOffset<T(!new)>(s: seq<T>, limit: nat, offset: nat): (r: seq<T>) {
    var rest := s[Least(offset, |s|)..];
    rest[..Least(limit, |rest|)]
  }

  class SqliteStore {
    var table: Table

    constructor ()
      ensures table == Table(map[], None)
    {
      table := Table(map[], None);
    }

    method Save(e: SaveEvent)
      requires Keyed(table.rows)
      modifies this
      ensures Keyed(table.rows) && table == AfterSave(old(table), e)
    {
      var due := Due(table, e);
      table := table.(rows := table.rows[e.summary.jobId := e.summary]);
      if due {
        var cutoff := e.wall - e.days * SECONDS_PER_DAY;
        table := Table(Pruned(table.rows, cutoff), Some(e.now));
      }
    }

    /** COUNT, then SELECT with WHERE, ORDER BY, LIMIT and OFFSET: the rows come out one after the other. */
    method ListSummaries(q: Query, page: nat, pageSize: nat) returns (items: seq<Summary>, total: nat)
      requires Keyed(table.rows) && page >= 1
      ensures items == PageOf(Listing(table.rows, q), page, pageSize) && total == |Listing(table.rows, q)|
      ensures forall s :: s in items ==>
                && s.jobId in table.rows && table.rows[s.jobId] == s && s.parent == None && s.orgId == q.orgId
                && (q.userId.Some? ==> s.userId == q.userId.value)
                && (q.jobIds.Some? ==> s.jobId in q.jobIds.value)
                && (q.statuses.Some? && q.statuses.value != {} ==> s.status in q.statuses.value)
      ensures forall i, j :: 0 <= i < j < |items| ==>
                || items[i].submittedAt > items[j].submittedAt
                || (items[i].submittedAt == items[j].submittedAt && LexLess(items[j].jobId, items[i].jobId))
    {
      PageOnFields(table.rows, q, page, pageSize);
      var matching := set id | id in table.rows && Matches(q, table.rows[id]) :: table.rows[id];
      total := |matching|;
      var ordered := OrderBy(matching);
      ListingUnique(table.rows, q, ordered, Listing(table.rows, q));
      HeldIs(page - 1, pageSize);
      SkipThenTake(ordered, Held(page - 1, pageSize), pageSize);
      items := LimitOffset(ordered, pageSize, (page - 1) * pageSize);
    }
  }

  lemma SkipThenTake<T(!new)>(s: seq<T>, skip: nat, take: nat)
    ensures
      var start := Least(skip, |s|);
      LimitOffset(s, take, skip) == s[start..Least(start + take, |s|)]
  {
    var start := Least(skip, |s|);
    assert s[start..][..Least(take, |s[start..]|)] == s[start..start + Least(take, |s[start..]|)];
  }

  /** ORDER BY submitted_at_ts DESC, job_id DESC: takes the first of the remaining rows each time. */
  method OrderBy(rows: set<Summary>) returns (ordered: seq<Summary>)
    requires DistinctJobs(rows)
    ensures Elems(ordered) == rows && InOrder(ordered) && |ordered| == |rows|
  {
    ordered := [];
    var todo := rows;
    while todo != {}
      invariant todo <= rows && Elems(ordered) == rows - todo
      invariant InOrder(ordered) && AllBefore(ordered, todo)
      invariant |ordered| + |todo| == |rows|
      decreases todo
    {
      ghost var least := FirstOf(todo);
      var first :| first in todo && forall y :: y in todo ==> NotAfter(first, y);
      AppendFirst(ordered, todo, first);
      ordered, todo := ordered + [first], todo - {first};
    }
  }

  ghost predicate AllBefore(s: seq<Summary>, rest: set<Summary>) {
    forall i, y :: 0 <= i < |s| && y in rest ==> Before(s[i], y)
  }

  lemma AppendFirst(s: seq<Summary>, todo: set<Summary>, first: Summary)
    requires InOrder(s) && AllBefore(s, todo) && DistinctJobs(todo)
    requires first in todo && forall y :: y in todo ==> NotAfter(first, y)
    ensures InOrder(s + [first]) && AllBefore(s + [first], todo - {first})
    ensures Elems(s + [first]) == Elems(s) + {first}
  {
    forall y | y in todo - {first} ensures Before(first, y) {
      BeforeLinear(first, y);
    }
  }

  // ----- the stores agree ------------------------------------------------------------------------------

  ghost function DictContent(events: seq<SaveEvent>): (index: Index)
    ensures Keyed(index)
  {
    if events == [] then map[]
    else
      var e := events[|events| - 1];
      DictContent(events[..|events| - 1])[e.summary.jobId := e.summary]
  }

  ghost function SqliteContent(events: seq<SaveEvent>): (t: Table)
    ensures Keyed(t.rows)
  {
    if events == [] then Table(map[], None)
    else AfterSave(SqliteContent(events[..|events| - 1]), events[|events| - 1])
  }

  /** The table lacks nothing but finished jobs. */
  ghost predicate LacksOnlyFinished(index: Index, rows: Index) {
    && (forall id :: id in rows ==> id in index && rows[id] == index[id])
    && (forall id :: id in index && id !in rows ==> Terminal(index[id].status))
  }

  lemma {:induction false} SavesAgree(events: seq<SaveEvent>)
    ensures LacksOnlyFinished(DictContent(events), SqliteContent(events).rows)
    ensures (forall e :: e in events ==> e.days <= 0) ==> SqliteContent(events).rows == DictContent(events)
  {
    if events != [] {
      var n := |events| - 1;
      SavesAgree(events[..n]);
      assert events[n] in events && forall e :: e in events[..n] ==> e in events;
    }
  }

  /** The query asks for live jobs only. */
  ghost predicate LiveOnly(q: Query) {
    FiltersStatus(q) && forall status :: status in q.statuses.value ==> !Terminal(status)
  }

  /** A listing restricted to live jobs never misses one, whatever has been pruned. */
  lemma ActiveListingsAgree(events: seq<SaveEvent>, q: Query)
    requires LiveOnly(q)
    ensures Listing(SqliteContent(events).rows, q) == Listing(DictContent(events), q)
  {
    SavesAgree(events);
    var rows, index := SqliteContent(events).rows, DictContent(events);
    forall s ensures s in Matching(rows, q) <==> s in Matching(index, q) {
      if s in Matching(index, q) {
        assert s.jobId in rows;
      }
    }
    assert Matching(rows, q) == Matching(index, q);
    ListingUnique(index, q, Listing(rows, q), Listing(index, q));
  }

  /** What pruning can cost any listing: finished jobs only, the order of the rest unchanged. */
  lemma PrunedListing(events: seq<SaveEvent>, q: Query)
    ensures
      var rows, index := SqliteContent(events).rows, DictContent(events);
      Listing(rows, q) == Filter(Listing(index, q), (s: Summary) => s.jobId in rows)
    ensures forall s :: s in Listing(DictContent(events), q) && s.jobId !in SqliteContent(events).rows ==> Terminal(s.status)
  {
    SavesAgree(events);
    var rows, index := SqliteContent(events).rows, DictContent(events);
    var kept := Filter(Listing(index, q), (s: Summary) => s.jobId in rows);
    forall s ensures s in kept <==> s in Matching(rows, q) {
      FilterIn(Listing(index, q), (s: Summary) => s.jobId in rows, s);
      assert s in Listing(index, q) <==> s in Elems(Listing(index, q));
    }
    assert Elems(kept) == Matching(rows, q);
    FilterPairwise(Listing(index, q), (s: Summary) => s.jobId in rows, Before);
    ListingUnique(rows, q, kept, Listing(rows, q));
    forall s | s in Listing(index, q) && s.jobId !in rows ensures Terminal(s.status) {
      assert s in Elems(Listing(index, q));
    }
  }

  type Answer = (seq<Summary>, nat)

  /** All stores fed the same saves, with retention off or asked for live jobs only, then asked for one page: one answer. */
  method CompareStores<J(!new)>(codec: Codec<J>, events: seq<SaveEvent>, q: Query, page: nat, pageSize: nat)
    returns (fromMemory: Answer, fromBlob: Answer, fromSqlite: Answer)
    requires page >= 1 && RoundTrips(codec)
    ensures fromMemory == (PageOf(Listing(DictContent(events), q), page, pageSize), |Listing(DictContent(events), q)|)
    ensures fromMemory == fromBlob
    ensures (forall e :: e in events ==> e.days <= 0) ==> fromMemory == fromSqlite
    ensures LiveOnly(q) ==> fromMemory == fromSqlite
  {
    var memory := new InMemoryStore();
    var blob := new BlobStore(codec);
    var sqlite := new SqliteStore();
    for i := 0 to |events|
      invariant fresh(memory) && fresh(blob) && fresh(sqlite)
      invariant memory.Valid() && memory.index == DictContent(events[..i])
      invariant blob.Valid() && blob.index == DictContent(events[..i])
      invariant sqlite.table == SqliteContent(events[..i])
    {
      assert events[..i + 1][..i] == events[..i];
      memory.Save(events[i].summary);
      blob.Save(events[i].summary);
      sqlite.Save(events[i]);
    }
    assert events[..|events|] == events;
    var a, k := memory.ListSummaries(q, page, pageSize);
    var b, m := blob.ListSummaries(q, page, pageSize);
    var c, n := sqlite.ListSummaries(q, page, pageSize);
    fromMemory, fromBlob, fromSqlite := (a, k), (b, m), (c, n);
    SavesAgree(events);
    if LiveOnly(q) {
      ActiveListingsAgree(events, q);
    }
  }

  // ----- paging through the traces ---------------------------------------------------------------------

  /** The records that still exist, in the order of their summaries. */
  function Loaded<R(!new)>(records: map<string, R>, summaries: seq<Summary>): (r: seq<R>) {
    if summaries == [] then []
    else
      var s := summaries[|summaries| - 1];
      Loaded(records, summaries[..|summaries| - 1]) + (if s.jobId in records then [records[s.jobId]] else [])
  }

  /** The summaries of the first `n` pages have been visited, and their records found. */
  ghost predicate FoundThrough<R(!new)>(records: map<string, R>, all: seq<Summary>, n: nat, pageSize: nat, found: seq<R>) {
    found == Loaded(records, all[..Least(Held(n, pageSize), |all|)])
  }

  lemma LoadedNext<R(!new)>(records: map<string, R>, summaries: seq<Summary>, s: Summary)
    ensures Loaded(records, summaries + [s])
         == Loaded(records, summaries) + (if s.jobId in records then [records[s.jobId]] else [])
  {
    assert (summaries + [s])[..|summaries|] == summaries;
  }

  /** Appends the records of some summaries to those already found. */
  method LoadAll<R(!new)>(records: map<string, R>, ghost shown: seq<Summary>, summaries: seq<Summary>, before: seq<R>)
    returns (found: seq<R>)
    requires before == Loaded(records, shown)
    ensures found == Loaded(records, shown + summaries)
  {
    found := before;
    assert shown + summaries[..0] == shown;
    for i := 0 to |summaries|
      invariant found == Loaded(records, shown + summaries[..i])
    {
      LoadedNext(records, shown + summaries[..i], summaries[i]);
      assert shown + summaries[..i + 1] == shown + summaries[..i] + [summaries[i]];
      if summaries[i].jobId in records {
        found := found + [records[summaries[i].jobId]];
      }
    }
    assert summaries[..|summaries|] == summaries;
  }

  /** One page more has been visited. */
  lemma PageVisited(all: seq<Summary>, page: nat, pageSize: nat)
    requires page >= 1
    ensures
      var shown := all[..Least(Held(page - 1, pageSize), |all|)];
      shown + PageOf(all, page, pageSize) == all[..Least(Held(page, pageSize), |all|)]
  {
    var a := Least(Held(page - 1, pageSize), |all|);
    PrefixThenPart(all, a, Least(a + pageSize, |all|));
  }

  /** Once a page ends the list, the cap shows no more than what has been shown. */
  lemma NothingMore<R(!new)>(records: map<string, R>, all: seq<Summary>, n: nat, maxPages: nat, pageSize: nat, found: seq<R>)
    requires n <= maxPages && FoundThrough(records, all, n, pageSize, found)
    requires Held(n, pageSize) >= |all| || PageOf(all, n + 1, pageSize) == []
    ensures FoundThrough(records, all, maxPages, pageSize, found)
  {
    HeldGrows(n, maxPages, pageSize);
    HeldGrows(n, n, pageSize);
  }

  /** One turn of the loop: visits a page, and says whether it was the last. */
  method VisitPage<R(!new)>(
      store: InMemoryStore, records: map<string, R>, q: Query, page: nat, pageSize: nat, maxPages: nat, before: seq<R>)
    returns (found: seq<R>, done: bool)
    requires store.Valid() && 1 <= page <= maxPages
    requires FoundThrough(records, Listing(store.index, q), page - 1, pageSize, before)
    ensures FoundThrough(records, Listing(store.index, q), if done then maxPages else page, pageSize, found)
  {
    ghost var all := Listing(store.index, q);
    var summaries, total := store.ListSummaries(q, page, pageSize);
    if summaries == [] {
      NothingMore(records, all, page - 1, maxPages, pageSize, before);
      return before, true;
    }
    found := LoadAll(records, all[..Least(Held(page - 1, pageSize), |all|)], summaries, before);
    PageVisited(all, page, pageSize);
    HeldIs(page, pageSize);
    done := page * pageSize >= total;
    if done {
      NothingMore(records, all, page, maxPages, pageSize, found);
    }
  }

  /** `_iter_job_records`: every listed job up to the cap, newest first, each visited once. */
  method IterJobRecords<R(!new)>(
      store: InMemoryStore, records: map<string, R>, orgId: string, jobIds: Option<set<string>>, pageSize: nat, maxPages: nat)
    returns (found: seq<R>)
    requires store.Valid()
    ensures
      var all := Listing(store.index, Query(orgId, None, jobIds, None));
      found == Loaded(records, all[..Least(pageSize * maxPages, |all|)])
  {
    var q := Query(orgId, None, jobIds, None);
    HeldIs(maxPages, pageSize);
    found := [];
    for page := 1 to maxPages + 1
      invariant FoundThrough(records, Listing(store.index, q), page - 1, pageSize, found)
    {
      var done;
      found, done := VisitPage(store, records, q, page, pageSize, maxPages, found);
      if done {
        return;
      }
    }
  }
}
