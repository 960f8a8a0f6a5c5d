/**
 * The read side of the cloud output device: the rate-limited poll of the
 * cluster status, the handling of one status answer (printers first, then
 * jobs, against the reconciled printers), and the active printer.
 */
module Device {
  import opened Base
  import opened Diff
  import opened Materials
  import opened Printers
  import opened Jobs

  /** The device's authentication state, as the output-device base class names it. */
  datatype AuthState =
    | NotAuthenticated
    | AuthenticationRequested
    | Authenticated
    | AuthenticationDenied
    | AuthenticationReceived

  /** The one cloud call the read side makes. */
  datatype ApiCall = GetClusterStatus(clusterId: string)

  /** The change signals of the read side. */
  datatype Signal = PrintersChanged | PrintJobsChanged

  /** One answer of the status endpoint: printers and print jobs together. */
  datatype ClusterStatus = ClusterStatus(printers: seq<RemotePrinter>, printJobs: seq<RemoteJob>)

  /**
   * The read-side state. `nextId` hands out object identities to printers and
   * jobs alike. `lastResponseTime` is the time of the last network answer in
   * milliseconds, 0 before the first one; it is kept by the network layer.
   */
  datatype Cluster = Cluster(
    deviceId: string,
    printers: seq<Printer>,
    jobs: seq<Job>,
    nextId: nat,
    lastResponseTime: int,
    auth: AuthState)

  /** The polling interval, two seconds, in milliseconds. */
  const CheckClusterInterval := 2000

  /** A poll is skipped while the last answer is younger than the interval; no answer yet never throttles. */
  predicate Throttled(c: Cluster, now: int)
  {
    c.lastResponseTime != 0 && now - c.lastResponseTime < CheckClusterInterval
  }

  /** The result of one poll: the new state and the calls issued. */
  datatype Poll = Poll(cluster: Cluster, calls: seq<ApiCall>)

  /**
   * One poll. A throttled poll does nothing at all. Otherwise the
   * authentication state follows the account's login and, when logged in,
   * exactly one status request for this cluster is issued. Nothing but the
   * authentication state ever changes.
   */
  function Update(c: Cluster, now: int, loggedIn: bool): (r: Poll)
    ensures r.cluster == c.(auth := r.cluster.auth)
    ensures |r.calls| <= 1
    ensures |r.calls| == 1 <==> !Throttled(c, now) && loggedIn
    ensures forall call :: call in r.calls ==> call == GetClusterStatus(c.deviceId)
    ensures Throttled(c, now) ==> r.cluster == c
    ensures !Throttled(c, now) ==> (r.cluster.auth == Authenticated <==> loggedIn)
    ensures !Throttled(c, now) ==> (r.cluster.auth == NotAuthenticated <==> !loggedIn)
  {
    if Throttled(c, now) then Poll(c, [])
    else if loggedIn then Poll(c.(auth := Authenticated), [GetClusterStatus(c.deviceId)])
    else Poll(c.(auth := NotAuthenticated), [])
  }

  /**
   * Polls that come faster than the interval after an answer cost nothing:
   * any number of them leave the state as it was and issue no call.
   */
  lemma UpdateWithinInterval(c: Cluster, now: int, loggedIn: bool)
    requires c.lastResponseTime != 0
    requires now < c.lastResponseTime + CheckClusterInterval
    ensures Update(c, now, loggedIn) == Poll(c, [])
    ensures Update(Update(c, now, loggedIn).cluster, now, !loggedIn) == Poll(c, [])
  {
  }

  /** Once the interval has passed, a poll of a logged-in account asks for the status exactly once. */
  lemma UpdateAfterInterval(c: Cluster, now: int)
    requires c.lastResponseTime == 0 || now >= c.lastResponseTime + CheckClusterInterval
    ensures Update(c, now, true).calls == [GetClusterStatus(c.deviceId)]
    ensures Update(c, now, true).cluster.auth == Authenticated
    ensures Update(c, now, false).calls == [] && Update(c, now, false).cluster.auth == NotAuthenticated
  {
  }

  /** What the device keeps true between events. */
  ghost predicate Valid(c: Cluster)
  {
    && UniqueKeys(c.printers)
    && UniqueJobKeys(c.jobs)
    && OidsBelow(c.printers, c.nextId) && DistinctOids(c.printers)
    && JobOidsBelow(c.jobs, c.nextId) && DistinctJobOids(c.jobs)
  }

  /** The result of handling one status answer: the new state and the signals emitted, in order. */
  datatype StatusSync = StatusSync(cluster: Cluster, signals: seq<Signal>)

  /**
   * Handles one status answer: the printers are reconciled first, then the
   * jobs against the reconciled printers. `printersChanged` is emitted once
   * every time; `printJobsChanged` once when the job ids differ, after it.
   */
  function OnStatusCallFinished(c: Cluster, status: ClusterStatus, catalog: Catalog): (r: StatusSync)
    requires UniqueKeys(c.printers)
    ensures r.cluster.deviceId == c.deviceId && r.cluster.auth == c.auth
    ensures r.cluster.lastResponseTime == c.lastResponseTime
    ensures |r.signals| >= 1 && r.signals[0] == PrintersChanged
    ensures Count(r.signals, PrintersChanged) == 1
    ensures Count(r.signals, PrintJobsChanged) == (if JobUuids(status.printJobs) != JobKeys(c.jobs) then 1 else 0)
  {
    var ps := UpdatePrinters(c.printers, c.nextId, status.printers, catalog);
    var js := UpdatePrintJobs(c.jobs, ps.nextId, status.printJobs, ps.printers);
    SignalsCounted(js.changed);
    StatusSync(c.(printers := ps.printers, jobs := js.jobs, nextId := js.nextId), Signals(js.changed))
  }

  /** `printersChanged`, then `printJobsChanged` when the jobs changed. */
  function Signals(jobsChanged: bool): seq<Signal>
  {
    [PrintersChanged] + (if jobsChanged then [PrintJobsChanged] else [])
  }

  lemma SignalsCounted(jobsChanged: bool)
    ensures |Signals(jobsChanged)| >= 1 && Signals(jobsChanged)[0] == PrintersChanged
    ensures Count(Signals(jobsChanged), PrintersChanged) == 1
    ensures Count(Signals(jobsChanged), PrintJobsChanged) == if jobsChanged then 1 else 0
  {
    assert Count([PrintersChanged], PrintersChanged) == 1;
    assert Count([PrintersChanged], PrintJobsChanged) == 0;
    assert Count([PrintJobsChanged], PrintersChanged) == 0;
    assert Count([PrintJobsChanged], PrintJobsChanged) == 1;
    CountAppend([PrintersChanged], if jobsChanged then [PrintJobsChanged] else [], PrintersChanged);
    CountAppend([PrintersChanged], if jobsChanged then [PrintJobsChanged] else [], PrintJobsChanged);
  }

  /** Handling a status answer keeps the device valid. */
  lemma OnStatusCallFinishedValid(c: Cluster, status: ClusterStatus, catalog: Catalog)
    requires Valid(c)
    ensures Valid(OnStatusCallFinished(c, status, catalog).cluster)
  {
    var ps := UpdatePrinters(c.printers, c.nextId, status.printers, catalog);
    UpdatePrintersOids(c.printers, c.nextId, status.printers, catalog);
    UpdatePrintJobsKeys(c.jobs, ps.nextId, status.printJobs, ps.printers);
    assert JobOidsBelow(c.jobs, ps.nextId);
    UpdatePrintJobsOids(c.jobs, ps.nextId, status.printJobs, ps.printers);
    var js := UpdatePrintJobs(c.jobs, ps.nextId, status.printJobs, ps.printers);
    assert OidsBelow(ps.printers, js.nextId);
  }

  /**
   * After a status answer the printers are exactly the reported ones, and
   * every job is a reported one; a job added in this pass is linked to a
   * printer of the reconciled list.
   */
  lemma OnStatusCallFinishedMirrors(c: Cluster, status: ClusterStatus, catalog: Catalog)
    requires Valid(c)
    ensures var r := OnStatusCallFinished(c, status, catalog).cluster;
      && Keys(r.printers) == Uuids(status.printers)
      && JobKeys(r.jobs) <= JobUuids(status.printJobs)
      && forall j :: 0 <= j < |r.jobs| && r.jobs[j].key !in JobKeys(c.jobs) ==>
           exists i :: 0 <= i < |r.printers| && r.jobs[j].assignedPrinter == Some(r.printers[i].oid)
  {
    var ps := UpdatePrinters(c.printers, c.nextId, status.printers, catalog);
    var js := UpdatePrintJobs(c.jobs, ps.nextId, status.printJobs, ps.printers);
    UpdatePrintJobsKeys(c.jobs, ps.nextId, status.printJobs, ps.printers);
    UpdatePrintJobsAdds(c.jobs, ps.nextId, status.printJobs, ps.printers);
    forall j | 0 <= j < |js.jobs| && js.jobs[j].key !in JobKeys(c.jobs)
      ensures exists i :: 0 <= i < |ps.printers| && js.jobs[j].assignedPrinter == Some(ps.printers[i].oid)
    {
      var p := FindPrinter(ps.printers, JobIndex(status.printJobs)[js.jobs[j].key].printerUuid).value;
      var i :| 0 <= i < |ps.printers| && ps.printers[i] == p && p.key == JobIndex(status.printJobs)[js.jobs[j].key].printerUuid &&
        forall m :: 0 <= m < i ==> ps.printers[m].key != p.key;
    }
  }

  /** The printer the monitor page shows: the first one, if any. */
  function ActivePrinter(c: Cluster): (r: Option<Printer>)
    ensures r.None? <==> |c.printers| == 0
    ensures r.Some? ==> r.value in c.printers && r.value == c.printers[0]
  {
    if |c.printers| == 0 then None else Some(c.printers[0])
  }

  /**
   * The active printer is stable across status answers: while the snapshot
   * still reports it, it stays the active printer, as the same object.
   */
  lemma ActivePrinterStable(c: Cluster, status: ClusterStatus, catalog: Catalog)
    requires UniqueKeys(c.printers)
    requires ActivePrinter(c).Some? && ActivePrinter(c).value.key in Uuids(status.printers)
    ensures var a := ActivePrinter(OnStatusCallFinished(c, status, catalog).cluster);
      a.Some? && a.value.oid == ActivePrinter(c).value.oid && a.value.key == ActivePrinter(c).value.key
  {
    var ps := c.printers;
    var index := Index(status.printers);
    var kept := UpdatedSurvivors(ps, index, catalog);
    assert kept[0] == UpdatePrinter(ps[0], index[ps[0].key], catalog);
    var made := ConstructNew(NewUuids(ps, status.printers), index, c.nextId, catalog);
    assert (kept + made)[0] == kept[0];
  }
}
