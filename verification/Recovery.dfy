/**
 routes/jobs.py: `recover_in_flight_jobs` and its retry loop, over an archive whose job index may
 lag behind the job records (utils/job_storage.py: a save writes the record before the index,
 and either write can fail).
 */
module Recovery {
  import opened Sequences
  import opened JobLifecycle
  import opened JobStorage

  /** A job record as loaded: `readable` when it can be turned back into a JobRecord. */
  datatype Stored = Stored(record: Summary, readable: bool)

  /** What goes wrong for one job during a pass. */
  datatype Fault = NoFault | LoadFails | RecordWriteFails | IndexWriteFails

  datatype Archive = Archive(records: map<string, Stored>, index: Index)

  ghost predicate WellKeyed(a: Archive) {
    && Keyed(a.index)
    && forall id :: id in a.records ==> a.records[id].record.jobId == id
  }

  predicate Active(status: Status) {
    status == Pending || status == Running
  }

  predicate InScope(s: Summary, before: Option<int>) {
    before.Some? ==> s.submittedAt < before.value
  }

  /** The pass has to settle this job: active in the index, not held in memory, its record readable and old enough. */
  ghost predicate Candidate(a: Archive, memory: set<string>, before: Option<int>, id: string) {
    && id in a.index && Active(a.index[id].status) && id !in memory
    && id in a.records && a.records[id].readable && InScope(a.records[id].record, before)
  }

  /** What the record of a candidate becomes. */
  function Settled(s: Summary): (r: Summary) {
    if Active(s.status) then s.(status := Failed) else s
  }

  /** The archive after the pass has dealt with one job, and whether the job is still to be done. */
  function AfterJob(a: Archive, memory: set<string>, before: Option<int>, id: string, fault: Fault): (r: (Archive, bool)) {
    if id in memory then (a, false)
    else if fault == LoadFails then (a, true)
    else if id !in a.records || !a.records[id].readable || !InScope(a.records[id].record, before) then (a, false)
    else
      var s := Settled(a.records[id].record);
      match fault
      case RecordWriteFails => (a, true)
      case IndexWriteFails => (a.(records := a.records[id := Stored(s, true)]), true)
      case _ => (Archive(a.records[id := Stored(s, true)], a.index[s.jobId := s]), false)
  }

  class JobArchive {
    var records: map<string, Stored>
    var index: Index

    ghost function Now(): (a: Archive)
      reads this
    {
      Archive(records, index)
    }

    constructor (records: map<string, Stored>, index: Index)
      ensures Now() == Archive(records, index)
    {
      this.records, this.index := records, index;
    }

    /** Record first, then index: a failure in between leaves the index behind. */
    method Save(s: Summary, fault: Fault) returns (ok: bool)
      modifies this
      ensures ok <==> fault != RecordWriteFails && fault != IndexWriteFails
      ensures records == if fault == RecordWriteFails then old(records) else old(records)[s.jobId := Stored(s, true)]
      ensures index == if ok then old(index)[s.jobId := s] else old(index)
    {
      if fault == RecordWriteFails {
        return false;
      }
      records := records[s.jobId := Stored(s, true)];
      if fault == IndexWriteFails {
        return false;
      }
      index := index[s.jobId := s];
      ok := true;
    }

    method RecoverJob(memory: set<string>, before: Option<int>, id: string, fault: Fault) returns (unreachable: bool)
      requires WellKeyed(Now())
      modifies this
      ensures (Now(), unreachable) == AfterJob(old(Now()), memory, before, id, fault) && WellKeyed(Now())
    {
      if id in memory {
        return false;
      }
      if fault == LoadFails {
        return true;
      }
      if id !in records {
        return false;
      }
      var loaded := records[id];
      if !loaded.readable {
        return false;
      }
      var record := loaded.record;
      if before.Some? && record.submittedAt >= before.value {
        return false;
      }
      if !Active(record.status) {
        var ok := Save(record, fault);
        return !ok;
      }
      record := record.(status := Failed);
      var ok := Save(record, fault);
      unreachable := !ok;
    }

    /** `recover_in_flight_jobs`: the error is the jobs that could not be read or written. */
    method RecoverInFlightJobs(memory: set<string>, before: Option<int>, faults: map<string, Fault>)
      returns (r: Result<(), seq<string>>)
      requires WellKeyed(Now())
      modifies this
      ensures WellKeyed(Now()) && Sound(old(Now()), Now())
      ensures r.Ok? ==> forall id :: Candidate(old(Now()), memory, before, id) ==> SettledFrom(old(Now()), Now(), id)
      ensures (forall id :: id in faults ==> faults[id] == NoFault) ==> r.Ok?
      ensures forall id :: !Candidate(old(Now()), memory, before, id) ==> SameJob(old(Now()), Now(), id)
      ensures forall id :: id in old(records) && Terminal(old(records)[id].record.status) ==>
                id in records && records[id] == old(records)[id]
      ensures r.Err? ==> r.error != [] && forall id :: id in r.error <==>
        id in old(index) && Active(old(index)[id].status) && Unreachable(old(Now()), memory, before, faults, id)
    {
      ghost var a := Now();
      var todo := set id | id in index && Active(index[id].status);
      ghost var ids := todo;
      var unreachable: seq<string> := [];
      while todo != {}
        invariant todo <= ids && WellKeyed(Now())
        invariant PassSoFar(a, Now(), memory, before, faults, ids, todo, unreachable)
        decreases todo
      {
        var id :| id in todo;
        ghost var now := Now();
        var failed := RecoverJob(memory, before, id, FaultOf(faults, id));
        PassNext(a, now, Now(), memory, before, faults, ids, todo, unreachable, id, failed);
        if failed {
          unreachable := unreachable + [id];
        }
        todo := todo - {id};
      }
      SettledAll(a, Now(), memory, before, faults, ids, unreachable);
      r := if unreachable == [] then Ok(()) else Err(unreachable);
    }

    /** `recover_in_flight_jobs_until_done`: retries until a pass completes; the storage fails anew each time. */
    method RecoverUntilDone(memory: set<string>, before: Option<int>, attempts: seq<map<string, Fault>>) returns (done: bool)
      requires WellKeyed(Now())
      modifies this
      ensures WellKeyed(Now()) && Sound(old(Now()), Now())
      ensures done ==> forall id :: Candidate(old(Now()), memory, before, id) ==> IsSettled(Now(), id)
      ensures forall id :: id in old(records) && Terminal(old(records)[id].record.status) ==>
                id in records && records[id] == old(records)[id]
      ensures (exists k :: 0 <= k < |attempts| && attempts[k] == map[]) ==> done
    {
      ghost var a := Now();
      SoundSelf(a);
      for k := 0 to |attempts|
        invariant WellKeyed(Now()) && Sound(a, Now())
        invariant forall id :: Candidate(a, memory, before, id) ==> Candidate(Now(), memory, before, id) || IsSettled(Now(), id)
        invariant forall j :: 0 <= j < k ==> attempts[j] != map[]
      {
        ghost var now := Now();
        var r := RecoverInFlightJobs(memory, before, attempts[k]);
        RetryStaysSound(a, now, Now(), memory, before);
        if r.Ok? {
          return true;
        }
      }
      done := false;
    }
  }

  function FaultOf(faults: map<string, Fault>, id: string): (f: Fault) {
    if id in faults then faults[id] else NoFault
  }

  ghost predicate SameJob(a: Archive, b: Archive, id: string) {
    && (id in b.records <==> id in a.records) && (id in a.records ==> b.records[id] == a.records[id])
    && (id in b.index <==> id in a.index) && (id in a.index ==> b.index[id] == a.index[id])
  }

  ghost predicate JobIs(a: Archive, b: Archive, memory: set<string>, before: Option<int>, id: string, fault: Fault) {
    SameJob(AfterJob(a, memory, before, id, fault).0, b, id)
  }

  /** The jobs in `todo` are untouched, the other candidates are dealt with, the failures noted. */
  ghost predicate PassSoFar(
      a: Archive, now: Archive, memory: set<string>, before: Option<int>, faults: map<string, Fault>,
      ids: set<string>, todo: set<string>, unreachable: seq<string>)
  {
    && (forall id {:trigger SameJob(a, now, id)} :: id !in ids || id in todo ==> SameJob(a, now, id))
    && (forall id {:trigger JobIs(a, now, memory, before, id, FaultOf(faults, id))} ::
          id in ids && id !in todo ==> JobIs(a, now, memory, before, id, FaultOf(faults, id)))
    && FailuresNoted(a, memory, before, faults, ids - todo, unreachable)
  }

  ghost predicate FailuresNoted(
      a: Archive, memory: set<string>, before: Option<int>, faults: map<string, Fault>, done: set<string>, unreachable: seq<string>)
  {
    forall id :: id in unreachable <==> id in done && Unreachable(a, memory, before, faults, id)
  }

  lemma FailureNoted(
      a: Archive, memory: set<string>, before: Option<int>, faults: map<string, Fault>, done: set<string>,
      unreachable: seq<string>, id: string)
    requires FailuresNoted(a, memory, before, faults, done, unreachable)
    ensures FailuresNoted(a, memory, before, faults, done + {id},
              if Unreachable(a, memory, before, faults, id) then unreachable + [id] else unreachable)
  {
  }

  /** The job cannot be read, or it is in scope and one of its writes fails. */
  predicate Unreachable(a: Archive, memory: set<string>, before: Option<int>, faults: map<string, Fault>, id: string) {
    && id !in memory
    && (|| FaultOf(faults, id) == LoadFails
        || (&& id in a.records && a.records[id].readable
            && (before.Some? ==> a.records[id].record.submittedAt < before.value)
            && FaultOf(faults, id) in {RecordWriteFails, IndexWriteFails}))
  }

  /** What becomes of a job depends on nothing but that job. */
  lemma JobAlone(a: Archive, now: Archive, memory: set<string>, before: Option<int>, id: string, fault: Fault)
    requires WellKeyed(a) && WellKeyed(now) && SameJob(a, now, id)
    ensures AfterJob(a, memory, before, id, fault).1 == AfterJob(now, memory, before, id, fault).1
    ensures JobIs(a, AfterJob(now, memory, before, id, fault).0, memory, before, id, fault)
    ensures forall other :: other != id ==> SameJob(now, AfterJob(now, memory, before, id, fault).0, other)
  {
  }

  lemma PassNext(
      a: Archive, now: Archive, next: Archive, memory: set<string>, before: Option<int>, faults: map<string, Fault>,
      ids: set<string>, todo: set<string>, unreachable: seq<string>, id: string, failed: bool)
    requires WellKeyed(a) && WellKeyed(now) && PassSoFar(a, now, memory, before, faults, ids, todo, unreachable)
    requires id in todo && todo <= ids && (next, failed) == AfterJob(now, memory, before, id, FaultOf(faults, id))
    ensures PassSoFar(a, next, memory, before, faults, ids, todo - {id}, if failed then unreachable + [id] else unreachable)
  {
    assert SameJob(a, now, id);
    JobAlone(a, now, memory, before, id, FaultOf(faults, id));
    FailureNoted(a, memory, before, faults, ids - todo, unreachable, id);
    assert ids - (todo - {id}) == ids - todo + {id};
    forall other {:trigger SameJob(a, next, other)} | other !in ids || other in todo - {id} ensures SameJob(a, next, other) {
      assert SameJob(a, now, other) && SameJob(now, next, other);
    }
    forall other {:trigger JobIs(a, next, memory, before, other, FaultOf(faults, other))}
      | other in ids && other !in todo - {id} ensures JobIs(a, next, memory, before, other, FaultOf(faults, other))
    {
      if other != id {
        assert JobIs(a, now, memory, before, other, FaultOf(faults, other)) && SameJob(now, next, other);
      }
    }
  }

  /** Finished in the record and, with the same status, in the index. */
  ghost predicate IsSettled(a: Archive, id: string) {
    && id in a.records && Terminal(a.records[id].record.status)
    && id in a.index && a.index[id] == a.records[id].record
  }

  /** Settled, and the record is the one there was: failed if it was active, unchanged if it had ended. */
  ghost predicate SettledFrom(a: Archive, b: Archive, id: string) {
    && IsSettled(b, id) && id in a.records
    && b.records[id].record == a.records[id].record.(status :=
         if Active(a.records[id].record.status) then Failed else a.records[id].record.status)
  }

  /**
   What a pass never does, whether it completes or not: change a finished record, do anything to an
   active one but fail it, or touch the index other than by entering a finished record as it is.
   */
  ghost predicate Sound(a: Archive, b: Archive) {
    && b.records.Keys == a.records.Keys && b.index.Keys == a.index.Keys
    && (forall id :: id in a.records ==>
          b.records[id] == a.records[id]
          || (Active(a.records[id].record.status) && b.records[id] == Stored(a.records[id].record.(status := Failed), true)))
    && (forall id :: id in a.index ==>
          b.index[id] == a.index[id] || IsSettled(b, id))
  }

  lemma SoundSelf(a: Archive)
    ensures Sound(a, a)
  {
  }

  lemma JobSound(a: Archive, b: Archive, memory: set<string>, before: Option<int>, id: string, fault: Fault)
    requires WellKeyed(a) && id in a.index && Active(a.index[id].status) && JobIs(a, b, memory, before, id, fault)
    ensures JobSoundly(a, b, id)
    ensures Candidate(a, memory, before, id) && !AfterJob(a, memory, before, id, fault).1 ==> SettledFrom(a, b, id)
    ensures !Candidate(a, memory, before, id) ==> SameJob(a, b, id)
    ensures fault == NoFault ==> !AfterJob(a, memory, before, id, fault).1
  {
  }

  lemma SettledAll(
      a: Archive, b: Archive, memory: set<string>, before: Option<int>, faults: map<string, Fault>,
      ids: set<string>, unreachable: seq<string>)
    requires WellKeyed(a) && ids == set id | id in a.index && Active(a.index[id].status)
    requires PassSoFar(a, b, memory, before, faults, ids, {}, unreachable)
    ensures Sound(a, b)
    ensures unreachable == [] ==> forall id :: Candidate(a, memory, before, id) ==> SettledFrom(a, b, id)
    ensures forall id :: !Candidate(a, memory, before, id) ==> SameJob(a, b, id)
    ensures (forall id :: id in faults ==> faults[id] == NoFault) ==> unreachable == []
  {
    forall id ensures JobSoundly(a, b, id)
      ensures Candidate(a, memory, before, id) && unreachable == [] ==> SettledFrom(a, b, id)
      ensures !Candidate(a, memory, before, id) ==> SameJob(a, b, id)
    {
      if id in ids {
        assert JobIs(a, b, memory, before, id, FaultOf(faults, id));
        JobSound(a, b, memory, before, id, FaultOf(faults, id));
        assert unreachable == [] ==> !Unreachable(a, memory, before, faults, id);
      } else {
        assert SameJob(a, b, id);
      }
    }
    SoundJobByJob(a, b);
    if unreachable != [] {
      var id := unreachable[0];
      assert id in unreachable;
      assert Unreachable(a, memory, before, faults, id);
      JobSound(a, b, memory, before, id, FaultOf(faults, id));
    }
  }

  ghost predicate JobSoundly(a: Archive, b: Archive, id: string) {
    && (id in b.records <==> id in a.records) && (id in b.index <==> id in a.index)
    && (id in a.records ==>
          b.records[id] == a.records[id]
          || (Active(a.records[id].record.status) && b.records[id] == Stored(a.records[id].record.(status := Failed), true)))
    && (id in a.index ==> b.index[id] == a.index[id] || IsSettled(b, id))
  }

  lemma SoundJobByJob(a: Archive, b: Archive)
    requires forall id {:trigger JobSoundly(a, b, id)} :: JobSoundly(a, b, id)
    ensures Sound(a, b)
  {
    forall id ensures id in b.records <==> id in a.records ensures id in b.index <==> id in a.index {
      assert JobSoundly(a, b, id);
    }
    assert b.records.Keys == a.records.Keys && b.index.Keys == a.index.Keys;
    forall id | id in a.records || id in a.index ensures JobSoundly(a, b, id) {
    }
  }

  lemma SoundTwice(a: Archive, b: Archive, c: Archive, memory: set<string>, before: Option<int>)
    requires Sound(a, b) && Sound(b, c)
    requires forall id :: !Candidate(b, memory, before, id) ==> SameJob(b, c, id)
    ensures Sound(a, c)
  {
    forall id ensures JobSoundly(a, c, id) {
      assert id in b.index && IsSettled(b, id) ==> !Candidate(b, memory, before, id);
    }
    SoundJobByJob(a, c);
  }

  /** One more pass on top of earlier ones: still sound, and nothing that was to be settled is lost. */
  lemma RetryStaysSound(a: Archive, b: Archive, c: Archive, memory: set<string>, before: Option<int>)
    requires Sound(a, b) && Sound(b, c)
    requires forall id :: !Candidate(b, memory, before, id) ==> SameJob(b, c, id)
    requires forall id :: Candidate(a, memory, before, id) ==> Candidate(b, memory, before, id) || IsSettled(b, id)
    ensures Sound(a, c)
    ensures forall id :: Candidate(a, memory, before, id) ==> Candidate(c, memory, before, id) || IsSettled(c, id)
  {
    SoundTwice(a, b, c, memory, before);
    forall id | Candidate(a, memory, before, id) ensures Candidate(c, memory, before, id) || IsSettled(c, id) {
      CandidateKept(b, c, memory, before, id);
    }
  }

  lemma CandidateKept(b: Archive, c: Archive, memory: set<string>, before: Option<int>, id: string)
    requires Sound(b, c) && (Candidate(b, memory, before, id) || IsSettled(b, id))
    requires !Candidate(b, memory, before, id) ==> SameJob(b, c, id)
    ensures Candidate(c, memory, before, id) || IsSettled(c, id)
  {
    if Candidate(b, memory, before, id) {
      assert c.records[id].record.submittedAt == b.records[id].record.submittedAt;
    } else {
      assert SameJob(b, c, id);
    }
  }
}
