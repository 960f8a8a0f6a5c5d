/**
 * Print-job reconciliation and the two job views of the monitor page. Jobs are
 * diffed by key like printers, but a new job is only added when a printer with
 * the job's printer uuid exists; new jobs are linked to that printer and are
 * not field-updated in the same pass.
 */
module Jobs {
  import opened Base
  import opened Diff
  import opened Printers

  /** One print job of the cluster's status snapshot. */
  datatype RemoteJob = RemoteJob(
    uuid: Uuid,
    name: string,
    printerUuid: Uuid,
    timeTotal: int,
    timeElapsed: int,
    owner: string,
    status: string)

  /**
   * A local print job. `oid` is the object's identity; `assignedPrinter` is the
   * identity of the printer object it was linked to when it was created.
   */
  datatype Job = Job(
    oid: nat,
    key: Uuid,
    name: string,
    assignedPrinter: Option<nat>,
    timeTotal: int,
    timeElapsed: int,
    owner: string,
    state: string)

  /** Field values a freshly constructed job starts with. */
  const InitialJobState := ""
  const InitialOwner := ""

  /** The job states the views distinguish. */
  const QueuedState := "queued"
  const ErrorState := "error"

  function RemoteJobUuid(r: RemoteJob): Uuid { r.uuid }

  /** The keys of the local job list. */
  function JobKeys(js: seq<Job>): set<Uuid> { set i | 0 <= i < |js| :: js[i].key }

  /** No two local jobs share a key. */
  predicate UniqueJobKeys(js: seq<Job>)
  {
    forall i, j :: 0 <= i < j < |js| ==> js[i].key != js[j].key
  }

  /** The uuids of a job snapshot. */
  function JobUuids(rs: seq<RemoteJob>): set<Uuid> { set i | 0 <= i < |rs| :: rs[i].uuid }

  /** A job snapshot indexed by uuid; a repeated uuid keeps its last entry. */
  function JobIndex(rs: seq<RemoteJob>): (m: map<Uuid, RemoteJob>)
    ensures m.Keys == JobUuids(rs)
    ensures forall k :: k in m ==> m[k].uuid == k && m[k] in rs
    ensures LastWins(rs, RemoteJobUuid, m)
  {
    var m := KeyIndex(rs, RemoteJobUuid);
    assert m.Keys == JobUuids(rs) by {
      forall k | k in JobUuids(rs) ensures k in KeySetOf(rs, RemoteJobUuid) {
        var i :| 0 <= i < |rs| && rs[i].uuid == k;
        assert RemoteJobUuid(rs[i]) == k;
      }
    }
    forall k | k in m ensures m[k].uuid == k && m[k] in rs {
      KeyIndexSound(rs, RemoteJobUuid, k);
    }
    m
  }

  /** The first printer of the list whose key is `key`, if any. */
  function FindPrinter(ps: seq<Printer>, key: Uuid): (r: Option<Printer>)
    ensures r.None? <==> key !in Keys(ps)
    ensures r.Some? ==> exists i :: 0 <= i < |ps| && ps[i] == r.value && r.value.key == key &&
                                    forall j :: 0 <= j < i ==> ps[j].key != key
  {
    if |ps| == 0 then None
    else if ps[0].key == key then Some(ps[0])
    else
      var r := FindPrinter(ps[1..], key);
      assert Keys(ps) == {ps[0].key} + Keys(ps[1..]) by {
        forall k | k in Keys(ps) ensures k in {ps[0].key} + Keys(ps[1..]) {
          var i :| 0 <= i < |ps| && ps[i].key == k;
          if i > 0 { assert ps[1..][i - 1] == ps[i]; }
        }
        forall k | k in Keys(ps[1..]) ensures k in Keys(ps) {
          var i :| 0 <= i < |ps[1..]| && ps[1..][i].key == k;
          assert ps[i + 1] == ps[1..][i];
        }
      }
      if r.Some? then
        var i :| 0 <= i < |ps[1..]| && ps[1..][i] == r.value && r.value.key == key &&
          forall j :: 0 <= j < i ==> ps[1..][j].key != key;
        assert ps[i + 1] == r.value;
        assert forall j :: 0 <= j < i + 1 ==> ps[j].key != key by {
          forall j | 0 <= j < i + 1 ensures ps[j].key != key {
            if j > 0 { assert ps[j] == ps[1..][j - 1]; }
          }
        }
        r
      else
        r
  }

  /**
   * A new job object for snapshot entry `r`, linked to printer `p`; its times,
   * owner and state keep their initial values until the next pass.
   */
  function NewJob(oid: nat, r: RemoteJob, p: Printer): Job
  {
    Job(oid, r.uuid, r.name, Some(p.oid), 0, 0, InitialOwner, InitialJobState)
  }

  /** Updates a job in place from its snapshot entry. */
  function UpdateJob(j: Job, r: RemoteJob): (q: Job)
    ensures q.oid == j.oid && q.key == j.key && q.name == j.name && q.assignedPrinter == j.assignedPrinter
    ensures q.timeTotal == r.timeTotal && q.timeElapsed == r.timeElapsed
    ensures q.owner == r.owner && q.state == r.status
  {
    j.(timeTotal := r.timeTotal, timeElapsed := r.timeElapsed, owner := r.owner, state := r.status)
  }

  /** A second update from the same entry changes nothing. */
  lemma UpdateJobIdempotent(j: Job, r: RemoteJob)
    ensures UpdateJob(UpdateJob(j, r), r) == UpdateJob(j, r)
  {
  }

  /** The jobs updated in place: those whose key the snapshot still lists, in list order. */
  function UpdatedJobs(js: seq<Job>, index: map<Uuid, RemoteJob>): (r: seq<Job>)
    ensures |r| <= |js|
  {
    if |js| == 0 then []
    else if js[0].key in index then [UpdateJob(js[0], index[js[0].key])] + UpdatedJobs(js[1..], index)
    else UpdatedJobs(js[1..], index)
  }

  /** `q` is some job of `js` whose key the snapshot lists, updated from its entry. */
  ghost predicate JobUpdatedFrom(js: seq<Job>, index: map<Uuid, RemoteJob>, q: Job)
  {
    exists i :: 0 <= i < |js| && js[i].key in index && q == UpdateJob(js[i], index[js[i].key])
  }

  /** Every surviving job is an old job updated from its snapshot entry. */
  lemma {:induction false} UpdatedJobsFrom(js: seq<Job>, index: map<Uuid, RemoteJob>)
    ensures forall j :: 0 <= j < |UpdatedJobs(js, index)| ==> JobUpdatedFrom(js, index, UpdatedJobs(js, index)[j])
  {
    if |js| > 0 {
      var rest := UpdatedJobs(js[1..], index);
      UpdatedJobsFrom(js[1..], index);
      var r := UpdatedJobs(js, index);
      var off := if js[0].key in index then 1 else 0;
      assert r == (if js[0].key in index then [UpdateJob(js[0], index[js[0].key])] else []) + rest;
      forall j | 0 <= j < |r| ensures JobUpdatedFrom(js, index, r[j]) {
        if j < off {
          assert r[j] == UpdateJob(js[0], index[js[0].key]);
        } else {
          assert r[j] == rest[j - off];
          assert JobUpdatedFrom(js[1..], index, rest[j - off]);
          var i :| 0 <= i < |js[1..]| && js[1..][i].key in index &&
            rest[j - off] == UpdateJob(js[1..][i], index[js[1..][i].key]);
          assert js[i + 1] == js[1..][i];
        }
      }
    }
  }

  /** Keys of a concatenation of job lists. */
  lemma JobKeysConcat(a: seq<Job>, b: seq<Job>)
    ensures JobKeys(a + b) == JobKeys(a) + JobKeys(b)
  {
    forall k | k in JobKeys(a + b) ensures k in JobKeys(a) + JobKeys(b) {
      var j :| 0 <= j < |a + b| && (a + b)[j].key == k;
      if j < |a| { assert (a + b)[j] == a[j]; } else { assert (a + b)[j] == b[j - |a|]; }
    }
    forall k | k in JobKeys(a) + JobKeys(b) ensures k in JobKeys(a + b) {
      if k in JobKeys(a) {
        var j :| 0 <= j < |a| && a[j].key == k;
        assert (a + b)[j] == a[j];
      } else {
        var j :| 0 <= j < |b| && b[j].key == k;
        assert (a + b)[|a| + j] == b[j];
      }
    }
  }

  /** Concatenating two key-disjoint job lists with unique keys keeps keys unique. */
  lemma UniqueJobsConcat(a: seq<Job>, b: seq<Job>)
    requires UniqueJobKeys(a) && UniqueJobKeys(b) && JobKeys(a) !! JobKeys(b)
    ensures UniqueJobKeys(a + b)
  {
    forall i, j | 0 <= i < j < |a + b| ensures (a + b)[i].key != (a + b)[j].key {
      if j < |a| {
        assert (a + b)[i] == a[i] && (a + b)[j] == a[j];
      } else if i >= |a| {
        assert (a + b)[i] == b[i - |a|] && (a + b)[j] == b[j - |a|];
      } else {
        assert (a + b)[i] == a[i] && (a + b)[j] == b[j - |a|];
        assert a[i].key in JobKeys(a) && b[j - |a|].key in JobKeys(b);
      }
    }
  }

  /** The keys of a one-job list. */
  lemma JobKeysSingleton(j: Job)
    ensures JobKeys([j]) == {j.key}
  {
    assert [j][0] == j;
  }

  /** Every old job whose key the snapshot lists survives. */
  lemma {:induction false} UpdatedJobsCover(js: seq<Job>, index: map<Uuid, RemoteJob>)
    ensures JobKeys(js) * index.Keys <= JobKeys(UpdatedJobs(js, index))
  {
    if |js| > 0 {
      var rest := UpdatedJobs(js[1..], index);
      UpdatedJobsCover(js[1..], index);
      var r := UpdatedJobs(js, index);
      var head := if js[0].key in index then [UpdateJob(js[0], index[js[0].key])] else [];
      assert r == head + rest;
      JobKeysConcat(head, rest);
      if js[0].key in index { JobKeysSingleton(head[0]); }
      forall k | k in JobKeys(js) * index.Keys ensures k in JobKeys(r) {
        var i :| 0 <= i < |js| && js[i].key == k;
        if i > 0 {
          assert js[1..][i - 1] == js[i];
          assert k in JobKeys(js[1..]);
        }
      }
    }
  }

  /** Surviving jobs keep the old list's order, so they keep its keys unique. */
  lemma {:induction false} UpdatedJobsUnique(js: seq<Job>, index: map<Uuid, RemoteJob>)
    requires UniqueJobKeys(js)
    ensures UniqueJobKeys(UpdatedJobs(js, index))
  {
    if |js| > 0 {
      var rest := UpdatedJobs(js[1..], index);
      UpdatedJobsUnique(js[1..], index);
      if js[0].key in index {
        var head := [UpdateJob(js[0], index[js[0].key])];
        JobKeysSingleton(head[0]);
        UpdatedJobsFrom(js[1..], index);
        assert js[0].key !in JobKeys(rest);
        UniqueJobsConcat(head, rest);
      }
    }
  }

  /**
   * What reconciliation needs of the surviving jobs: unique keys, exactly the
   * old keys the snapshot still lists, each the same object as the old job of
   * that key, updated from its snapshot entry.
   */
  lemma UpdatedJobsSpec(js: seq<Job>, index: map<Uuid, RemoteJob>)
    requires UniqueJobKeys(js)
    ensures var r := UpdatedJobs(js, index);
      && UniqueJobKeys(r)
      && JobKeys(r) == JobKeys(js) * index.Keys
      && (forall i, j :: 0 <= i < |js| && 0 <= j < |r| && js[i].key == r[j].key ==>
            js[i].key in index && r[j] == UpdateJob(js[i], index[js[i].key]))
  {
    var r := UpdatedJobs(js, index);
    UpdatedJobsFrom(js, index);
    UpdatedJobsCover(js, index);
    UpdatedJobsUnique(js, index);
    forall i, j | 0 <= i < |js| && 0 <= j < |r| && js[i].key == r[j].key
      ensures js[i].key in index && r[j] == UpdateJob(js[i], index[js[i].key])
    {
      assert JobUpdatedFrom(js, index, r[j]);
      var i' :| 0 <= i' < |js| && js[i'].key in index && r[j] == UpdateJob(js[i'], index[js[i'].key]);
      assert js[i'].key == js[i].key;
    }
    forall k | k in JobKeys(r) ensures k in JobKeys(js) * index.Keys {
      var j :| 0 <= j < |r| && r[j].key == k;
      assert JobUpdatedFrom(js, index, r[j]);
      var i :| 0 <= i < |js| && js[i].key in index && r[j] == UpdateJob(js[i], index[js[i].key]);
    }
  }

  /**
   * The jobs constructed for new uuids, in order; a uuid whose printer is not
   * in the list is skipped and uses up no identity.
   */
  function AddedJobs(newIds: seq<Uuid>, index: map<Uuid, RemoteJob>, ps: seq<Printer>, nextId: nat): (r: seq<Job>)
    requires forall k :: k in newIds ==> k in index
    ensures |r| <= |newIds|
  {
    if |newIds| == 0 then []
    else
      match FindPrinter(ps, index[newIds[0]].printerUuid)
      case None => AddedJobs(newIds[1..], index, ps, nextId)
      case Some(p) => [NewJob(nextId, index[newIds[0]], p)] + AddedJobs(newIds[1..], index, ps, nextId + 1)
  }

  /** A snapshot job can be added: its printer is in the list. */
  predicate Placeable(r: RemoteJob, ps: seq<Printer>)
  {
    r.printerUuid in Keys(ps)
  }

  /**
   * `r` holds jobs built from entries of `newIds` whose printer exists: the
   * `i`-th is object `nextId + i`, linked to the first printer with that key.
   */
  ghost predicate BuiltFrom(r: seq<Job>, newIds: seq<Uuid>, index: map<Uuid, RemoteJob>, ps: seq<Printer>, nextId: nat)
  {
    forall i :: 0 <= i < |r| ==>
      && r[i].key in newIds && r[i].key in index && Placeable(index[r[i].key], ps)
      && r[i] == NewJob(nextId + i, index[r[i].key], FindPrinter(ps, index[r[i].key].printerUuid).value)
  }

  /** Skipping the first uuid keeps the later jobs built from the whole list. */
  lemma SkipBuilt(r: seq<Job>, newIds: seq<Uuid>, index: map<Uuid, RemoteJob>, ps: seq<Printer>, nextId: nat)
    requires |newIds| > 0 && BuiltFrom(r, newIds[1..], index, ps, nextId)
    ensures BuiltFrom(r, newIds, index, ps, nextId)
  {
    assert forall k :: k in newIds[1..] ==> k in newIds;
  }

  /** A job for the first uuid, numbered `nextId`, in front of jobs numbered from `nextId + 1`. */
  lemma ConsBuilt(j: Job, rest: seq<Job>, newIds: seq<Uuid>, index: map<Uuid, RemoteJob>, ps: seq<Printer>, nextId: nat)
    requires |newIds| > 0 && newIds[0] in index && index[newIds[0]].uuid == newIds[0]
    requires Placeable(index[newIds[0]], ps)
    requires j == NewJob(nextId, index[newIds[0]], FindPrinter(ps, index[newIds[0]].printerUuid).value)
    requires BuiltFrom(rest, newIds[1..], index, ps, nextId + 1)
    ensures BuiltFrom([j] + rest, newIds, index, ps, nextId)
  {
    var r := [j] + rest;
    assert r[0].key == newIds[0];
    forall i | 0 < i < |r|
      ensures r[i].key in newIds && r[i].key in index && Placeable(index[r[i].key], ps)
      ensures r[i] == NewJob(nextId + i, index[r[i].key], FindPrinter(ps, index[r[i].key].printerUuid).value)
    {
      assert r[i] == rest[i - 1];
      var m :| 0 <= m < |newIds[1..]| && newIds[1..][m] == rest[i - 1].key;
      assert newIds[m + 1] == r[i].key;
      assert nextId + 1 + (i - 1) == nextId + i;
    }
  }

  /** The added jobs are built from the new uuids whose printer exists, numbered from `nextId` in order. */
  lemma {:induction false} AddedJobsAt(newIds: seq<Uuid>, index: map<Uuid, RemoteJob>, ps: seq<Printer>, nextId: nat)
    requires forall k :: k in newIds ==> k in index
    requires forall k :: k in index ==> index[k].uuid == k
    ensures BuiltFrom(AddedJobs(newIds, index, ps, nextId), newIds, index, ps, nextId)
  {
    if |newIds| > 0 {
      var k0 := newIds[0];
      match FindPrinter(ps, index[k0].printerUuid)
      case None =>
        AddedJobsAt(newIds[1..], index, ps, nextId);
        SkipBuilt(AddedJobs(newIds, index, ps, nextId), newIds, index, ps, nextId);
      case Some(p) =>
        AddedJobsAt(newIds[1..], index, ps, nextId + 1);
        ConsBuilt(NewJob(nextId, index[k0], p), AddedJobs(newIds[1..], index, ps, nextId + 1), newIds, index, ps, nextId);
    }
  }

  /** Every new uuid whose printer exists is added. */
  lemma {:induction false} AddedJobsCover(newIds: seq<Uuid>, index: map<Uuid, RemoteJob>, ps: seq<Printer>, nextId: nat)
    requires forall k :: k in newIds ==> k in index
    requires forall k :: k in index ==> index[k].uuid == k
    ensures forall k :: k in newIds && Placeable(index[k], ps) ==> k in JobKeys(AddedJobs(newIds, index, ps, nextId))
  {
    if |newIds| > 0 {
      var r := AddedJobs(newIds, index, ps, nextId);
      var k0 := newIds[0];
      forall k | k in newIds && Placeable(index[k], ps) ensures k in JobKeys(r) {
        match FindPrinter(ps, index[k0].printerUuid)
        case None =>
          AddedJobsCover(newIds[1..], index, ps, nextId);
          assert k != k0;
          assert k in newIds[1..] by { assert newIds == [k0] + newIds[1..]; }
        case Some(p) =>
          var rest := AddedJobs(newIds[1..], index, ps, nextId + 1);
          if k == k0 {
            assert r[0].key == k;
          } else {
            AddedJobsCover(newIds[1..], index, ps, nextId + 1);
            assert k in newIds[1..] by { assert newIds == [k0] + newIds[1..]; }
            var j :| 0 <= j < |rest| && rest[j].key == k;
            assert r[j + 1] == rest[j];
          }
      }
    }
  }

  /**
   * What reconciliation needs of the added jobs: exactly the placeable new
   * uuids, each once, numbered from `nextId` in order.
   */
  lemma AddedJobsSpec(newIds: seq<Uuid>, index: map<Uuid, RemoteJob>, ps: seq<Printer>, nextId: nat)
    requires forall k :: k in newIds ==> k in index
    requires forall k :: k in index ==> index[k].uuid == k
    requires forall i, j :: 0 <= i < j < |newIds| ==> newIds[i] != newIds[j]
    ensures var r := AddedJobs(newIds, index, ps, nextId);
      && JobKeys(r) == (set k | k in newIds && Placeable(index[k], ps))
      && UniqueJobKeys(r)
      && (forall i :: 0 <= i < |r| ==> r[i].oid == nextId + i)
      && (forall i :: 0 <= i < |r| ==>
            r[i].key in newIds && Placeable(index[r[i].key], ps) &&
            r[i] == NewJob(nextId + i, index[r[i].key], FindPrinter(ps, index[r[i].key].printerUuid).value))
  {
    var r := AddedJobs(newIds, index, ps, nextId);
    AddedJobsAt(newIds, index, ps, nextId);
    AddedJobsCover(newIds, index, ps, nextId);
    AddedJobsUnique(newIds, index, ps, nextId);
  }

  /** Added jobs follow the order of the (duplicate-free) new uuids, so their keys are unique. */
  lemma {:induction false} AddedJobsUnique(newIds: seq<Uuid>, index: map<Uuid, RemoteJob>, ps: seq<Printer>, nextId: nat)
    requires forall k :: k in newIds ==> k in index
    requires forall k :: k in index ==> index[k].uuid == k
    requires forall i, j :: 0 <= i < j < |newIds| ==> newIds[i] != newIds[j]
    ensures UniqueJobKeys(AddedJobs(newIds, index, ps, nextId))
  {
    if |newIds| > 0 {
      var k0 := newIds[0];
      match FindPrinter(ps, index[k0].printerUuid)
      case None =>
        AddedJobsUnique(newIds[1..], index, ps, nextId);
      case Some(p) =>
        AddedJobsUnique(newIds[1..], index, ps, nextId + 1);
        AddedJobsAt(newIds[1..], index, ps, nextId + 1);
        var rest := AddedJobs(newIds[1..], index, ps, nextId + 1);
        var head := [NewJob(nextId, index[k0], p)];
        JobKeysSingleton(head[0]);
        assert k0 !in JobKeys(rest);
        UniqueJobsConcat(head, rest);
    }
  }

  /**
   * The uuids of the snapshot that no local job has, each once, in order of
   * first appearance.
   */
  function NewJobUuids(js: seq<Job>, remote: seq<RemoteJob>): (r: seq<Uuid>)
    ensures forall k :: k in r <==> k in JobUuids(remote) && k !in JobKeys(js)
    ensures forall i, j :: 0 <= i < j < |r| ==> r[i] != r[j]
  {
    var r := Enumerate(KeysOf(remote, RemoteJobUuid), JobUuids(remote) - JobKeys(js));
    assert forall k :: k in JobUuids(remote) ==> k in KeysOf(remote, RemoteJobUuid) by {
      forall k | k in JobUuids(remote) ensures k in KeysOf(remote, RemoteJobUuid) {
        var i :| 0 <= i < |remote| && remote[i].uuid == k;
        assert KeysOf(remote, RemoteJobUuid)[i] == k;
      }
    }
    r
  }

  /** The result of one job reconciliation; `changed` is whether `printJobsChanged` is emitted. */
  datatype JobSync = JobSync(jobs: seq<Job>, nextId: nat, changed: bool)

  /**
   * Reconciles the local job list with a snapshot against the (already
   * reconciled) printer list: jobs whose key the snapshot lacks are dropped,
   * the others are updated in place, new jobs with a known printer are added.
   * `printJobsChanged` is emitted exactly when some old job is removed or some
   * snapshot job is new, whether or not the new job could be added; at most
   * one identity is used per new uuid.
   */
  function UpdatePrintJobs(js: seq<Job>, nextId: nat, remote: seq<RemoteJob>, ps: seq<Printer>): (r: JobSync)
    ensures SignalsDifference(js, remote, r.changed)
    ensures nextId <= r.nextId <= nextId + |NewJobUuids(js, remote)|
  {
    var index := JobIndex(remote);
    var added := AddedJobs(NewJobUuids(js, remote), index, ps, nextId);
    JobSync(UpdatedJobs(js, index) + added, nextId + |added|, JobUuids(remote) != JobKeys(js))
  }

  /** `changed` holds exactly when some old job is removed or some snapshot job is new. */
  ghost predicate SignalsDifference(js: seq<Job>, remote: seq<RemoteJob>, changed: bool)
  {
    var d := Reconcile(JobKeys(js), JobUuids(remote));
    changed <==> d.removed != {} || d.added != {}
  }

  /** One new job uuid per snapshot uuid without a local job. */
  lemma NewJobUuidsCount(js: seq<Job>, remote: seq<RemoteJob>)
    ensures |NewJobUuids(js, remote)| == |JobUuids(remote) - JobKeys(js)|
  {
    var newIds := NewJobUuids(js, remote);
    assert (set k | k in newIds) == JobUuids(remote) - JobKeys(js);
    DistinctCard(newIds);
  }

  /** The new uuids of a snapshot whose printer is in the list: the jobs that get added. */
  ghost function PlaceableNew(js: seq<Job>, remote: seq<RemoteJob>, ps: seq<Printer>): set<Uuid>
  {
    set k | k in JobIndex(remote) && k !in JobKeys(js) && Placeable(JobIndex(remote)[k], ps)
  }

  /**
   * After reconciliation the job keys are the old keys the snapshot still
   * lists plus the new uuids whose printer exists, each once; a new job whose
   * printer is missing is not added.
   */
  lemma UpdatePrintJobsKeys(js: seq<Job>, nextId: nat, remote: seq<RemoteJob>, ps: seq<Printer>)
    requires UniqueJobKeys(js)
    ensures var r := UpdatePrintJobs(js, nextId, remote, ps).jobs;
      && JobKeys(r) == (JobKeys(js) * JobUuids(remote)) + PlaceableNew(js, remote, ps)
      && UniqueJobKeys(r)
  {
    var index := JobIndex(remote);
    var newIds := NewJobUuids(js, remote);
    var kept := UpdatedJobs(js, index);
    var added := AddedJobs(newIds, index, ps, nextId);
    UpdatedJobsSpec(js, index);
    AddedJobsSpec(newIds, index, ps, nextId);
    JobKeysConcat(kept, added);
    UniqueJobsConcat(kept, added);
  }

  /** A surviving job is the same object, updated in place from its snapshot entry. */
  lemma UpdatePrintJobsKeepsIdentity(js: seq<Job>, nextId: nat, remote: seq<RemoteJob>, ps: seq<Printer>)
    requires UniqueJobKeys(js)
    ensures var r := UpdatePrintJobs(js, nextId, remote, ps).jobs;
      forall i, j :: 0 <= i < |js| && 0 <= j < |r| && js[i].key == r[j].key ==>
        && js[i].key in JobIndex(remote)
        && r[j] == UpdateJob(js[i], JobIndex(remote)[js[i].key])
  {
    var index := JobIndex(remote);
    var newIds := NewJobUuids(js, remote);
    var kept := UpdatedJobs(js, index);
    var added := AddedJobs(newIds, index, ps, nextId);
    UpdatedJobsSpec(js, index);
    AddedJobsSpec(newIds, index, ps, nextId);
    var all := kept + added;
    forall i, j | 0 <= i < |js| && 0 <= j < |all| && js[i].key == all[j].key
      ensures js[i].key in index && all[j] == UpdateJob(js[i], index[js[i].key])
    {
      assert js[i].key in JobKeys(js);
      assert j < |kept|;
      assert all[j] == kept[j];
    }
  }

  /**
   * A job with a new key is a new object numbered from the old counter on,
   * linked to the first printer whose key is the job's printer uuid, and still
   * carrying its initial times, owner and state.
   */
  lemma UpdatePrintJobsAdds(js: seq<Job>, nextId: nat, remote: seq<RemoteJob>, ps: seq<Printer>)
    requires UniqueJobKeys(js)
    ensures var s := UpdatePrintJobs(js, nextId, remote, ps);
      forall j :: 0 <= j < |s.jobs| && s.jobs[j].key !in JobKeys(js) ==>
        && s.jobs[j].key in JobIndex(remote)
        && nextId <= s.jobs[j].oid < s.nextId
        && FindPrinter(ps, JobIndex(remote)[s.jobs[j].key].printerUuid).Some?
        && s.jobs[j] == NewJob(s.jobs[j].oid, JobIndex(remote)[s.jobs[j].key],
                               FindPrinter(ps, JobIndex(remote)[s.jobs[j].key].printerUuid).value)
  {
    var index := JobIndex(remote);
    var newIds := NewJobUuids(js, remote);
    var kept := UpdatedJobs(js, index);
    var added := AddedJobs(newIds, index, ps, nextId);
    UpdatedJobsSpec(js, index);
    AddedJobsSpec(newIds, index, ps, nextId);
    NewOnlyAdded(JobKeys(js), kept, added);
    forall j | 0 <= j < |added|
      ensures added[j].key in index && nextId <= added[j].oid < nextId + |added|
      ensures FindPrinter(ps, index[added[j].key].printerUuid).Some?
      ensures added[j] == NewJob(added[j].oid, index[added[j].key], FindPrinter(ps, index[added[j].key].printerUuid).value)
    {
    }
  }

  /** In `kept + added`, a job whose key was not known before is one of `added`. */
  lemma NewOnlyAdded(oldKeys: set<Uuid>, kept: seq<Job>, added: seq<Job>)
    requires JobKeys(kept) <= oldKeys
    ensures forall j :: 0 <= j < |kept + added| && (kept + added)[j].key !in oldKeys ==>
      j >= |kept| && (kept + added)[j] == added[j - |kept|]
  {
  }

  /** No new job of the snapshot has a known printer. */
  ghost predicate NothingAddable(js: seq<Job>, remote: seq<RemoteJob>, ps: seq<Printer>)
  {
    forall u :: u in JobIndex(remote) && u !in JobKeys(js) ==> !Placeable(JobIndex(remote)[u], ps)
  }

  /**
   * A snapshot whose only difference is a new job without a known printer
   * leaves the job keys as they were, yet the change signal is emitted; the
   * dropped job counts as new again on the next pass.
   */
  lemma DroppedJobStillSignals(js: seq<Job>, nextId: nat, remote: seq<RemoteJob>, ps: seq<Printer>, k: Uuid)
    requires UniqueJobKeys(js)
    requires JobKeys(js) <= JobUuids(remote)
    requires k in JobUuids(remote) && k !in JobKeys(js)
    requires NothingAddable(js, remote, ps)
    ensures var s := UpdatePrintJobs(js, nextId, remote, ps);
      JobKeys(s.jobs) == JobKeys(js) && s.changed && s.nextId == nextId
  {
    var s := UpdatePrintJobs(js, nextId, remote, ps);
    assert s.changed by { NewJobSignals(js, nextId, remote, ps, k); }
    assert s.nextId == nextId by { NothingPlaceableNothingAdded(js, nextId, remote, ps); }
    assert JobKeys(s.jobs) == JobKeys(js) by { NothingPlaceableKeepsKeys(js, nextId, remote, ps); }
  }

  /** A snapshot job with a key no local job has makes the change signal fire. */
  lemma NewJobSignals(js: seq<Job>, nextId: nat, remote: seq<RemoteJob>, ps: seq<Printer>, k: Uuid)
    requires k in JobUuids(remote) && k !in JobKeys(js)
    ensures UpdatePrintJobs(js, nextId, remote, ps).changed
  {
    assert JobUuids(remote) != JobKeys(js);
  }

  /** When no new job's printer is known, the job keys are the old keys the snapshot still lists. */
  lemma NothingPlaceableKeepsKeys(js: seq<Job>, nextId: nat, remote: seq<RemoteJob>, ps: seq<Printer>)
    requires UniqueJobKeys(js)
    requires NothingAddable(js, remote, ps)
    ensures JobKeys(UpdatePrintJobs(js, nextId, remote, ps).jobs) == JobKeys(js) * JobUuids(remote)
  {
    UpdatePrintJobsKeys(js, nextId, remote, ps);
    assert PlaceableNew(js, remote, ps) == {};
  }

  /** When no new job's printer is known, no identity is used. */
  lemma NothingPlaceableNothingAdded(js: seq<Job>, nextId: nat, remote: seq<RemoteJob>, ps: seq<Printer>)
    requires NothingAddable(js, remote, ps)
    ensures UpdatePrintJobs(js, nextId, remote, ps).nextId == nextId
  {
    var index := JobIndex(remote);
    var newIds := NewJobUuids(js, remote);
    AddedJobsSpec(newIds, index, ps, nextId);
    NoKeysNoJobs(AddedJobs(newIds, index, ps, nextId));
  }

  /** A job list without keys is empty. */
  lemma NoKeysNoJobs(js: seq<Job>)
    requires JobKeys(js) == {}
    ensures |js| == 0
  {
    if |js| > 0 {
      JobKeyListed(js, 0);
      assert false;
    }
  }

  /** The key of every job of a list is among the list's keys. */
  lemma JobKeyListed(js: seq<Job>, i: nat)
    requires i < |js|
    ensures js[i].key in JobKeys(js)
  {
  }

  /** Every job identity in the list was handed out before `bound`. */
  ghost predicate JobOidsBelow(js: seq<Job>, bound: nat)
  {
    forall i :: 0 <= i < |js| ==> js[i].oid < bound
  }

  /** No job object appears twice in the list. */
  ghost predicate DistinctJobOids(js: seq<Job>)
  {
    forall i, j :: 0 <= i < j < |js| ==> js[i].oid != js[j].oid
  }

  /** The jobs kept in place are objects of the old list, each once. */
  lemma UpdatedJobOids(js: seq<Job>, index: map<Uuid, RemoteJob>, bound: nat)
    requires UniqueJobKeys(js)
    requires JobOidsBelow(js, bound) && DistinctJobOids(js)
    ensures var kept := UpdatedJobs(js, index);
      JobOidsBelow(kept, bound) && DistinctJobOids(kept)
  {
    var kept := UpdatedJobs(js, index);
    UpdatedJobsFrom(js, index);
    UpdatedJobsUnique(js, index);
    forall j | 0 <= j < |kept| ensures kept[j].oid < bound {
      assert JobUpdatedFrom(js, index, kept[j]);
    }
    forall i, j | 0 <= i < j < |kept| ensures kept[i].oid != kept[j].oid {
      assert JobUpdatedFrom(js, index, kept[i]) && JobUpdatedFrom(js, index, kept[j]);
      var i' :| 0 <= i' < |js| && js[i'].key in index && kept[i] == UpdateJob(js[i'], index[js[i'].key]);
      var j' :| 0 <= j' < |js| && js[j'].key in index && kept[j] == UpdateJob(js[j'], index[js[j'].key]);
      assert kept[i].key != kept[j].key;
    }
  }

  /** Old job objects followed by objects numbered from the old counter on: all distinct, all below the new counter. */
  lemma ConcatJobOids(kept: seq<Job>, added: seq<Job>, nextId: nat)
    requires JobOidsBelow(kept, nextId) && DistinctJobOids(kept)
    requires forall i :: 0 <= i < |added| ==> added[i].oid == nextId + i
    ensures JobOidsBelow(kept + added, nextId + |added|) && DistinctJobOids(kept + added)
  {
    var all := kept + added;
    forall j | 0 <= j < |all| ensures all[j].oid < nextId + |added| {
      if j < |kept| { assert all[j] == kept[j]; } else { assert all[j] == added[j - |kept|]; }
    }
    forall i, j | 0 <= i < j < |all| ensures all[i].oid != all[j].oid {
      if j >= |kept| && i < |kept| {
        assert all[i] == kept[i] && all[j] == added[j - |kept|];
      } else if i >= |kept| {
        assert all[i] == added[i - |kept|] && all[j] == added[j - |kept|];
      } else {
        assert all[i] == kept[i] && all[j] == kept[j];
      }
    }
  }

  /**
   * Job identities stay below the allocation counter and no job object
   * appears twice, provided that held before; the counter only grows.
   */
  lemma UpdatePrintJobsOids(js: seq<Job>, nextId: nat, remote: seq<RemoteJob>, ps: seq<Printer>)
    requires UniqueJobKeys(js)
    requires JobOidsBelow(js, nextId) && DistinctJobOids(js)
    ensures var s := UpdatePrintJobs(js, nextId, remote, ps);
      JobOidsBelow(s.jobs, s.nextId) && DistinctJobOids(s.jobs) && nextId <= s.nextId
  {
    var index := JobIndex(remote);
    var newIds := NewJobUuids(js, remote);
    UpdatedJobOids(js, index, nextId);
    AddedJobsSpec(newIds, index, ps, nextId);
    ConcatJobOids(UpdatedJobs(js, index), AddedJobs(newIds, index, ps, nextId), nextId);
  }

  /** The queued view: jobs in state "queued" or "error", in list order. */
  function QueuedPrintJobs(js: seq<Job>): (r: seq<Job>)
    ensures forall j :: j in r <==> j in js && (j.state == QueuedState || j.state == ErrorState)
    ensures |r| <= |js|
  {
    if |js| == 0 then []
    else
      var r0 := QueuedPrintJobs(js[..|js| - 1]);
      var j := js[|js| - 1];
      assert js == js[..|js| - 1] + [j];
      if j.state == QueuedState || j.state == ErrorState then r0 + [j] else r0
  }

  /** The active view: jobs linked to a printer whose state is not "queued", in list order. */
  function ActivePrintJobs(js: seq<Job>): (r: seq<Job>)
    ensures forall j :: j in r <==> j in js && j.assignedPrinter.Some? && j.state != QueuedState
    ensures |r| <= |js|
  {
    if |js| == 0 then []
    else
      var r0 := ActivePrintJobs(js[..|js| - 1]);
      var j := js[|js| - 1];
      assert js == js[..|js| - 1] + [j];
      if j.assignedPrinter.Some? && j.state != QueuedState then r0 + [j] else r0
  }

  /**
   * The queued view keeps the list's order and multiplicity: it distributes
   * over concatenation and keeps a single job iff it is queued or failed.
   */
  lemma {:induction false} QueuedPrintJobsAppend(a: seq<Job>, b: seq<Job>)
    ensures QueuedPrintJobs(a + b) == QueuedPrintJobs(a) + QueuedPrintJobs(b)
    decreases |b|
  {
    if |b| == 0 {
      assert a + b == a;
    } else {
      var b0 := b[..|b| - 1];
      var x := b[|b| - 1];
      var fa, fb0, fx := QueuedPrintJobs(a), QueuedPrintJobs(b0), QueuedPrintJobs([x]);
      calc {
        QueuedPrintJobs(a + b);
        { assert a + b == (a + b0) + [x]; }
        QueuedPrintJobs((a + b0) + [x]);
        { QueuedPrintJobsSnoc(a + b0, x); }
        QueuedPrintJobs(a + b0) + fx;
        { QueuedPrintJobsAppend(a, b0); }
        (fa + fb0) + fx;
        { assert (fa + fb0) + fx == fa + (fb0 + fx); }
        fa + (fb0 + fx);
        { QueuedPrintJobsSnoc(b0, x); assert b == b0 + [x]; }
        fa + QueuedPrintJobs(b);
      }
    }
  }

  lemma QueuedPrintJobsSnoc(js: seq<Job>, j: Job)
    ensures QueuedPrintJobs(js + [j]) == QueuedPrintJobs(js) + QueuedPrintJobs([j])
  {
    assert (js + [j])[..|js + [j]| - 1] == js;
    QueuedPrintJobsOne(j);
  }

  /** A single job is kept iff it passes the filter. */
  lemma QueuedPrintJobsOne(j: Job)
    ensures QueuedPrintJobs([j]) == if j.state == QueuedState || j.state == ErrorState then [j] else []
  {
    assert [j][..0] == [];
  }

  /**
   * The active view keeps the list's order and multiplicity: it distributes
   * over concatenation and keeps a single job iff it is linked and not queued.
   */
  lemma {:induction false} ActivePrintJobsAppend(a: seq<Job>, b: seq<Job>)
    ensures ActivePrintJobs(a + b) == ActivePrintJobs(a) + ActivePrintJobs(b)
    decreases |b|
  {
    if |b| == 0 {
      assert a + b == a;
    } else {
      var b0 := b[..|b| - 1];
      var x := b[|b| - 1];
      var fa, fb0, fx := ActivePrintJobs(a), ActivePrintJobs(b0), ActivePrintJobs([x]);
      calc {
        ActivePrintJobs(a + b);
        { assert a + b == (a + b0) + [x]; }
        ActivePrintJobs((a + b0) + [x]);
        { ActivePrintJobsSnoc(a + b0, x); }
        ActivePrintJobs(a + b0) + fx;
        { ActivePrintJobsAppend(a, b0); }
        (fa + fb0) + fx;
        { assert (fa + fb0) + fx == fa + (fb0 + fx); }
        fa + (fb0 + fx);
        { ActivePrintJobsSnoc(b0, x); assert b == b0 + [x]; }
        fa + ActivePrintJobs(b);
      }
    }
  }

  lemma ActivePrintJobsSnoc(js: seq<Job>, j: Job)
    ensures ActivePrintJobs(js + [j]) == ActivePrintJobs(js) + ActivePrintJobs([j])
  {
    assert (js + [j])[..|js + [j]| - 1] == js;
    ActivePrintJobsOne(j);
  }

  /** A single job is kept iff it passes the filter. */
  lemma ActivePrintJobsOne(j: Job)
    ensures ActivePrintJobs([j]) == if j.assignedPrinter.Some? && j.state != QueuedState then [j] else []
  {
    assert [j][..0] == [];
  }

  /**
   * The two views overlap exactly on linked jobs in state "error", and every
   * linked job is in at least one of them.
   */
  lemma ViewsOverlap(js: seq<Job>)
    ensures forall j :: j in QueuedPrintJobs(js) && j in ActivePrintJobs(js) <==>
      j in js && j.assignedPrinter.Some? && j.state == ErrorState
    ensures forall j :: j in js && j.assignedPrinter.Some? ==> j in QueuedPrintJobs(js) || j in ActivePrintJobs(js)
  {
  }

  /**
   * A job added by reconciliation is in the active view and not in the queued
   * one until a later pass updates its state, whatever state the cluster reports.
   */
  lemma NewJobShowsActive(js: seq<Job>, nextId: nat, remote: seq<RemoteJob>, ps: seq<Printer>)
    requires UniqueJobKeys(js)
    ensures var r := UpdatePrintJobs(js, nextId, remote, ps).jobs;
      forall j :: 0 <= j < |r| && r[j].key !in JobKeys(js) ==>
        r[j] in ActivePrintJobs(r) && r[j] !in QueuedPrintJobs(r)
  {
    var r := UpdatePrintJobs(js, nextId, remote, ps).jobs;
    UpdatePrintJobsAdds(js, nextId, remote, ps);
    forall j | 0 <= j < |r| && r[j].key !in JobKeys(js)
      ensures r[j] in ActivePrintJobs(r) && r[j] !in QueuedPrintJobs(r)
    {
      assert r[j].state == InitialJobState && r[j].assignedPrinter.Some?;
      assert r[j] in r;
    }
  }
}
