/**
 * The write side of the cloud output device, as written: the admission gate
 * of `requestWrite`, the callback chain request-upload → upload-mesh →
 * request-print, the progress message slot and the two ways an upload ends.
 * API calls are modelled as issued requests with a handle; their answers are
 * stimuli naming that handle.
 */
module Upload {
  import opened Base
  import opened FileFormats

  /** The texts the device shows in its messages. */
  datatype Text = BlockedUploading | CouldNotExport | UploadError | WriteFailed

  /** The cloud calls of the write side. */
  datatype ApiRequest =
    | RequestUpload(jobName: string, fileSize: nat, contentType: string)
    | UploadMesh(jobId: string, size: nat)
    | RequestPrint(clusterId: string, jobId: string)

  /** An exception that leaves `requestWrite`. */
  datatype Failure =
    | FormatMissing          // no global stack: the `None` format is subscripted
    | MimeUnknown(mime: string)
    | NoFormatAvailable
    | FileNameMissing        // `None + "."`

  /** What the device does that can be observed, in order. */
  datatype Event =
    | WriteStarted
    | WriteError
    | WriteFinished
    | ErrorShown(text: Text)
    | SuccessShown
    | ProgressCreated(id: nat, initial: int)
    | ProgressSet(id: nat, progress: int)
    | ProgressShown(id: nat)
    | ProgressHidden(id: nat)
    | Requested(handle: nat, call: ApiRequest)
    | Raised(failure: Failure)

  /** The progress message: its identity and the progress it shows. */
  datatype ProgressMessage = ProgressMessage(id: nat, progress: int)

  /** The progress a freshly created message starts with. */
  const InitialProgress := -1

  /** What an outstanding request is waiting for. */
  datatype Stage =
    | AwaitJobCreated(size: nat)
    | AwaitMeshUpload(size: nat)
    | AwaitPrint

  /**
   * The write-side state: the gate, the progress message slot, the requests
   * still waiting for an answer, and the counter handing out request handles
   * and message identities.
   */
  datatype Uploader = Uploader(
    deviceId: string,
    sending: bool,
    progress: Option<ProgressMessage>,
    pending: map<nat, Stage>,
    nextId: nat)

  /** A state and the events that led to it from the previous one. */
  datatype Outcome = Outcome(u: Uploader, log: seq<Event>)

  function Initial(deviceId: string): Uploader
  {
    Uploader(deviceId, false, None, map[], 0)
  }

  /** Hides and drops the progress message, if there is one. */
  function ResetUploadProgress(u: Uploader): (r: Outcome)
    ensures r.u == u.(progress := None)
    ensures u.progress.None? ==> r.log == []
    ensures u.progress.Some? ==> r.log == [ProgressHidden(u.progress.value.id)]
  {
    match u.progress
    case None => Outcome(u, [])
    case Some(m) => Outcome(u.(progress := None), [ProgressHidden(m.id)])
  }

  /** Resetting twice is resetting once: the second reset does nothing. */
  lemma ResetUploadProgressIdempotent(u: Uploader)
    ensures ResetUploadProgress(ResetUploadProgress(u).u) == Outcome(ResetUploadProgress(u).u, [])
  {
  }

  /**
   * Shows `progress` in the progress message, creating the message (at
   * progress -1) only when there is none; an existing message is updated in
   * place and keeps its identity.
   */
  function UpdateUploadProgress(u: Uploader, progress: int): (r: Outcome)
    ensures r.u.progress.Some? && r.u.progress.value.progress == progress
    ensures u.progress.Some? ==> r.u.progress.value.id == u.progress.value.id && r.u.nextId == u.nextId
    ensures u.progress.None? ==> r.u.progress.value.id == u.nextId && r.u.nextId == u.nextId + 1
    ensures r.u.sending == u.sending && r.u.pending == u.pending
    ensures (exists id, p :: ProgressCreated(id, p) in r.log) <==> u.progress.None?
    ensures u.progress.None? ==> r.log[0] == ProgressCreated(u.nextId, InitialProgress)
    ensures |r.log| >= 2 && r.log[|r.log| - 1] == ProgressShown(r.u.progress.value.id)
  {
    match u.progress
    case None =>
      var id := u.nextId;
      Outcome(u.(progress := Some(ProgressMessage(id, progress)), nextId := id + 1),
              [ProgressCreated(id, InitialProgress), ProgressSet(id, progress), ProgressShown(id)])
    case Some(m) =>
      Outcome(u.(progress := Some(m.(progress := progress))), [ProgressSet(m.id, progress), ProgressShown(m.id)])
  }

  /**
   * Without a message, one is created at progress -1 under a fresh identity,
   * then set to the given progress, then shown.
   */
  lemma ProgressCreatedAtInitial(u: Uploader, progress: int)
    requires u.progress.None?
    ensures UpdateUploadProgress(u, progress).log ==
      [ProgressCreated(u.nextId, -1), ProgressSet(u.nextId, progress), ProgressShown(u.nextId)]
  {
  }

  /** Two progress updates use one message: the second creates nothing. */
  lemma UpdateUploadProgressOnce(u: Uploader, a: int, b: int)
    ensures var r1 := UpdateUploadProgress(u, a);
      var r2 := UpdateUploadProgress(r1.u, b);
      && r2.u.progress.value.id == r1.u.progress.value.id
      && r2.u.progress.value.progress == b
      && (forall id, p :: ProgressCreated(id, p) !in r2.log)
  {
  }

  /**
   * Ends an upload in error: the progress message is dropped, the error text
   * (when given) is shown, the gate is cleared and `writeError` is emitted.
   */
  function OnUploadError(u: Uploader, text: Option<Text>): (r: Outcome)
    ensures !r.u.sending && r.u.progress.None?
    ensures r.u.pending == u.pending && r.u.nextId == u.nextId
    ensures |r.log| >= 1 && r.log[|r.log| - 1] == WriteError
    ensures text.Some? ==> ErrorShown(text.value) in r.log
    ensures text.None? ==> forall t :: ErrorShown(t) !in r.log
  {
    var reset := ResetUploadProgress(u);
    var shown := if text.Some? then [ErrorShown(text.value)] else [];
    Outcome(reset.u.(sending := false), reset.log + shown + [WriteError])
  }

  /**
   * Ends an upload in success: the progress message is dropped, the success
   * message is shown, the gate is cleared and `writeFinished` is emitted.
   */
  function OnUploadSuccess(u: Uploader): (r: Outcome)
    ensures !r.u.sending && r.u.progress.None?
    ensures r.u.pending == u.pending && r.u.nextId == u.nextId
    ensures |r.log| >= 2 && r.log[|r.log| - 2..] == [SuccessShown, WriteFinished]
  {
    var reset := ResetUploadProgress(u);
    Outcome(reset.u.(sending := false), reset.log + [SuccessShown, WriteFinished])
  }

  /** Either end emits exactly one terminal signal, `writeFinished` or `writeError`, and leaves the gate open. */
  lemma UploadEndsOnce(u: Uploader, text: Option<Text>)
    ensures var e := OnUploadError(u, text);
      !e.u.sending && Count(e.log, WriteError) == 1 && Count(e.log, WriteFinished) == 0
    ensures var s := OnUploadSuccess(u);
      !s.u.sending && Count(s.log, WriteFinished) == 1 && Count(s.log, WriteError) == 0
  {
    var reset := ResetUploadProgress(u);
    var shown := if text.Some? then [ErrorShown(text.value)] else [];
    CountLast(reset.log + shown, WriteError, WriteError);
    CountLast(reset.log + shown, WriteError, WriteFinished);
    assert reset.log + [SuccessShown, WriteFinished] == (reset.log + [SuccessShown]) + [WriteFinished];
    CountLast(reset.log + [SuccessShown], WriteFinished, WriteFinished);
    CountLast(reset.log + [SuccessShown], WriteFinished, WriteError);
  }

  /** Issues a request, waiting for it under a fresh handle. */
  function Issue(u: Uploader, stage: Stage, call: ApiRequest): (r: Outcome)
    ensures r.u.pending == u.pending[u.nextId := stage] && r.u.nextId == u.nextId + 1
    ensures r.u.sending == u.sending && r.u.progress == u.progress
    ensures r.log == [Requested(u.nextId, call)]
  {
    Outcome(u.(pending := u.pending[u.nextId := stage], nextId := u.nextId + 1), [Requested(u.nextId, call)])
  }

  /**
   * Asks the cloud for an upload slot for a job of `size` bytes, under a fresh
   * handle that then waits for the slot; the gate and the progress message
   * are left alone.
   */
  function SendPrintJob(u: Uploader, jobName: string, contentType: string, size: nat): (r: Outcome)
    ensures r.u.sending == u.sending && r.u.progress == u.progress && r.u.deviceId == u.deviceId
    ensures r.u.nextId == u.nextId + 1
    ensures r.u.pending.Keys == u.pending.Keys + {u.nextId} && r.u.pending[u.nextId] == AwaitJobCreated(size)
    ensures forall h :: h in u.pending && h != u.nextId ==> r.u.pending[h] == u.pending[h]
    ensures r.log == [Requested(u.nextId, RequestUpload(jobName, size, contentType))]
  {
    Issue(u, AwaitJobCreated(size), RequestUpload(jobName, size, contentType))
  }

  /**
   * The upload slot was granted: the slot request is answered, and the mesh
   * of the size asked for is uploaded to the granted job under a fresh handle.
   */
  function OnPrintJobCreated(u: Uploader, handle: nat, jobId: string): (r: Outcome)
    requires handle in u.pending && u.pending[handle].AwaitJobCreated?
    ensures r.u.sending == u.sending && r.u.progress == u.progress && r.u.deviceId == u.deviceId
    ensures r.u.pending.Keys == (u.pending.Keys - {handle}) + {u.nextId}
    ensures r.u.pending[u.nextId] == AwaitMeshUpload(u.pending[handle].size)
    ensures r.log == [Requested(u.nextId, UploadMesh(jobId, u.pending[handle].size))]
  {
    var size := u.pending[handle].size;
    Issue(u.(pending := u.pending - {handle}), AwaitMeshUpload(size), UploadMesh(jobId, size))
  }

  /**
   * The mesh is uploaded: the upload is answered, and this cluster is asked to
   * print the job under a fresh handle.
   */
  function OnPrintJobUploaded(u: Uploader, handle: nat, jobId: string): (r: Outcome)
    requires handle in u.pending && u.pending[handle].AwaitMeshUpload?
    ensures r.u.sending == u.sending && r.u.progress == u.progress && r.u.deviceId == u.deviceId
    ensures r.u.pending.Keys == (u.pending.Keys - {handle}) + {u.nextId}
    ensures r.u.pending[u.nextId] == AwaitPrint
    ensures r.log == [Requested(u.nextId, RequestPrint(u.deviceId, jobId))]
  {
    Issue(u.(pending := u.pending - {handle}), AwaitPrint, RequestPrint(u.deviceId, jobId))
  }

  /** What `requestWrite` is handed: the outcome of the format choice, the writer lookup, the file name and the written size. */
  datatype WriteRequest = WriteRequest(format: FormatOutcome, writerFound: bool, fileName: Option<string>, size: nat)

  /** A request that gets as far as asking for an upload slot. */
  predicate Sendable(w: WriteRequest)
  {
    w.format.Chosen? && w.writerFound && w.fileName.Some?
  }

  /**
   * `requestWrite`, as written. A request while a job is being sent is turned
   * away through the upload-error path, which also clears the gate and drops
   * the progress message of the job in flight. Otherwise the gate is set and
   * `writeStarted` emitted before anything else; a failed format choice or a
   * missing file name raises with the gate still set, a missing writer ends
   * the write in error, and a sendable request asks for an upload slot named
   * after the file plus the format's extension.
   */
  function RequestWrite(u: Uploader, w: WriteRequest): (r: Outcome)
    ensures u.sending ==>
      && !r.u.sending && r.u.progress.None? && r.u.pending == u.pending && r.u.nextId == u.nextId
      && |r.log| >= 1 && r.log[|r.log| - 1] == WriteError && ErrorShown(BlockedUploading) in r.log
      && WriteStarted !in r.log
    ensures !u.sending ==> |r.log| >= 1 && r.log[0] == WriteStarted
    ensures !u.sending && Sendable(w) ==>
      && r.u.sending
      && r.u.pending == u.pending[u.nextId := AwaitJobCreated(w.size)]
      && r.log == [WriteStarted, Requested(u.nextId, RequestUpload(
           w.fileName.value + "." + w.format.format.extension, w.size, w.format.format.mimeType))]
    ensures !u.sending && !w.format.Chosen? ==> r.u == u.(sending := true) && EndsRaised(r.log)
    ensures !u.sending && w.format.Chosen? && w.writerFound && w.fileName.None? ==>
      r.u == u.(sending := true) && EndsRaised(r.log)
    ensures !u.sending && w.format.Chosen? && !w.writerFound ==>
      && !r.u.sending && r.u.progress.None? && r.u.pending == u.pending && r.u.nextId == u.nextId
      && |r.log| >= 1 && r.log[|r.log| - 1] == WriteError && ErrorShown(CouldNotExport) in r.log
      && forall h, c :: Requested(h, c) !in r.log
  {
    if u.sending then OnUploadError(u, Some(BlockedUploading))
    else
      var started := u.(sending := true);
      match w.format
      case NoGlobalStack => Outcome(started, [WriteStarted, Raised(FormatMissing)])
      case UnknownMime(m) => Outcome(started, [WriteStarted, Raised(MimeUnknown(m))])
      case NoFormats => Outcome(started, [WriteStarted, Raised(NoFormatAvailable)])
      case Chosen(f) =>
        if !w.writerFound then
          var e := OnUploadError(started, Some(CouldNotExport));
          Outcome(e.u, [WriteStarted] + e.log)
        else if w.fileName.None? then Outcome(started, [WriteStarted, Raised(FileNameMissing)])
        else
          var s := SendPrintJob(started, w.fileName.value + "." + f.extension, f.mimeType, w.size);
          Outcome(s.u, [WriteStarted] + s.log)
  }

  /** The log ends with an exception leaving `requestWrite`. */
  predicate EndsRaised(log: seq<Event>)
  {
    |log| >= 1 && log[|log| - 1].Raised?
  }

  /** The stimuli the write side reacts to. */
  datatype Stimulus =
    | Write(request: WriteRequest)
    | JobCreated(handle: nat, jobId: string)       // answer to the upload-slot request
    | MeshProgress(handle: nat, progress: int)     // progress of the mesh upload
    | MeshUploaded(handle: nat, jobId: string)     // the mesh upload finished
    | MeshFailed(handle: nat)                      // the mesh upload failed
    | PrintAccepted(handle: nat, clusterJobId: string)  // answer to the print request
    | RequestLost(handle: nat)                     // the slot or print request failed

  /** A stimulus can happen: a write request at any time, an answer only to an outstanding request of its kind. */
  predicate Enabled(u: Uploader, s: Stimulus)
  {
    match s
    case Write(_) => true
    case JobCreated(h, _) => h in u.pending && u.pending[h].AwaitJobCreated?
    case MeshProgress(h, _) => h in u.pending && u.pending[h].AwaitMeshUpload?
    case MeshUploaded(h, _) => h in u.pending && u.pending[h].AwaitMeshUpload?
    case MeshFailed(h) => h in u.pending && u.pending[h].AwaitMeshUpload?
    case PrintAccepted(h, _) => h in u.pending && u.pending[h].AwaitPrint?
    case RequestLost(h) => h in u.pending && (u.pending[h].AwaitJobCreated? || u.pending[h].AwaitPrint?)
  }

  /**
   * The device's reaction to one stimulus, as written. A lost slot or print
   * request has no error callback, so the device is never told: the request
   * is simply no longer outstanding.
   */
  function Step(u: Uploader, s: Stimulus): (r: Outcome)
    requires Enabled(u, s)
    ensures r.u.deviceId == u.deviceId && u.nextId <= r.u.nextId
    ensures !s.Write? && !u.sending ==> !r.u.sending
    ensures s.RequestLost? ==> r.log == [] && r.u.sending == u.sending && r.u.progress == u.progress
    ensures s.MeshFailed? || s.PrintAccepted? ==> !r.u.sending && r.u.progress.None?
    ensures s.JobCreated? || s.MeshUploaded? || s.MeshProgress? ==> r.u.sending == u.sending
  {
    match s
    case Write(w) => RequestWrite(u, w)
    case JobCreated(h, jobId) => OnPrintJobCreated(u, h, jobId)
    case MeshProgress(_, p) => UpdateUploadProgress(u, p)
    case MeshUploaded(h, jobId) => OnPrintJobUploaded(u, h, jobId)
    case MeshFailed(h) => OnUploadError(u.(pending := u.pending - {h}), Some(UploadError))
    case PrintAccepted(h, _) => OnUploadSuccess(u.(pending := u.pending - {h}))
    case RequestLost(h) => Outcome(u.(pending := u.pending - {h}), [])
  }

  /** A stimulus that cannot happen in the current state is not delivered. */
  function Deliver(u: Uploader, s: Stimulus): Outcome
  {
    if Enabled(u, s) then Step(u, s) else Outcome(u, [])
  }

  /** The stimuli applied one after another, with the events concatenated. */
  function Run(u: Uploader, ss: seq<Stimulus>): (r: Outcome)
    decreases |ss|
  {
    if |ss| == 0 then Outcome(u, [])
    else
      var first := Deliver(u, ss[0]);
      var rest := Run(first.u, ss[1..]);
      Outcome(rest.u, first.log + rest.log)
  }

  /**
   * A request turned away never asks for an upload slot and does not emit
   * `writeStarted`, yet it emits `writeError`, leaves the gate open and drops
   * the progress message, whoever it belonged to.
   */
  lemma BlockedRequest(u: Uploader, w: WriteRequest)
    requires u.sending
    ensures var r := RequestWrite(u, w);
      && !r.u.sending && r.u.progress.None? && r.u.pending == u.pending
      && WriteError in r.log && ErrorShown(BlockedUploading) in r.log
      && WriteStarted !in r.log
      && forall h, c :: Requested(h, c) !in r.log
  {
  }

  /** A request on an open gate sets it before any writer lookup and emits `writeStarted` first. */
  lemma AdmittedRequest(u: Uploader, w: WriteRequest)
    requires !u.sending
    ensures var r := RequestWrite(u, w);
      && r.log[0] == WriteStarted
      && (r.u.sending <==> w.format.Chosen? ==> w.writerFound)
  {
  }

  /** The mesh-upload answers end the write or move it on; a failed mesh upload ends it in error. */
  lemma MeshFailureEndsWrite(u: Uploader, h: nat)
    requires h in u.pending && u.pending[h].AwaitMeshUpload?
    ensures var r := Step(u, MeshFailed(h));
      !r.u.sending && r.u.progress.None? && h !in r.u.pending &&
      Count(r.log, WriteError) == 1 && Count(r.log, WriteFinished) == 0
  {
    UploadEndsOnce(u.(pending := u.pending - {h}), Some(UploadError));
  }

  /** An accepted print ends the write in success. */
  lemma PrintAcceptedEndsWrite(u: Uploader, h: nat, clusterJobId: string)
    requires h in u.pending && u.pending[h].AwaitPrint?
    ensures var r := Step(u, PrintAccepted(h, clusterJobId));
      !r.u.sending && r.u.progress.None? && h !in r.u.pending &&
      Count(r.log, WriteFinished) == 1 && Count(r.log, WriteError) == 0
  {
    UploadEndsOnce(u.(pending := u.pending - {h}), None);
  }

  /** Each request moves the job one stage on: slot, then mesh, then print, under fresh handles. */
  lemma ChainAdvances(u: Uploader, h: nat, jobId: string)
    requires forall k :: k in u.pending ==> k < u.nextId
    ensures h in u.pending && u.pending[h].AwaitJobCreated? ==>
      var r := Step(u, JobCreated(h, jobId));
      && h !in r.u.pending && r.u.pending[u.nextId] == AwaitMeshUpload(u.pending[h].size)
      && r.log == [Requested(u.nextId, UploadMesh(jobId, u.pending[h].size))]
      && r.u.sending == u.sending
    ensures h in u.pending && u.pending[h].AwaitMeshUpload? ==>
      var r := Step(u, MeshUploaded(h, jobId));
      && h !in r.u.pending && r.u.pending[u.nextId] == AwaitPrint
      && r.log == [Requested(u.nextId, RequestPrint(u.deviceId, jobId))]
      && r.u.sending == u.sending
  {
  }

  /**
   * A lost slot or print request leaves the gate as it was: when it was the
   * only request, the gate stays set with nothing left that could clear it
   * except another write request.
   */
  lemma LostRequestKeepsGate(u: Uploader, h: nat)
    requires h in u.pending && (u.pending[h].AwaitJobCreated? || u.pending[h].AwaitPrint?)
    ensures var r := Step(u, RequestLost(h));
      r.u.sending == u.sending && r.log == [] && r.u.pending == u.pending - {h}
  {
  }

  /** Handles stay below the counter. */
  ghost predicate HandlesFresh(u: Uploader)
  {
    (forall k :: k in u.pending ==> k < u.nextId) &&
    (u.progress.Some? ==> u.progress.value.id < u.nextId)
  }

  /** Every step keeps handles and message identities below the counter. */
  lemma StepHandlesFresh(u: Uploader, s: Stimulus)
    requires HandlesFresh(u) && Enabled(u, s)
    ensures HandlesFresh(Step(u, s).u)
  {
  }

  /** The number of writes the log reports as ended: `writeFinished` and `writeError` signals. */
  function Terminals(log: seq<Event>): (n: nat)
    ensures n <= |log|
  {
    if |log| == 0 then 0
    else (if log[0] == WriteFinished || log[0] == WriteError then 1 else 0) + Terminals(log[1..])
  }

  lemma {:induction false} TerminalsAppend(a: seq<Event>, b: seq<Event>)
    ensures Terminals(a + b) == Terminals(a) + Terminals(b)
    decreases |a|
  {
    if |a| == 0 {
      assert a + b == b;
    } else {
      assert (a + b)[1..] == a[1..] + b;
      TerminalsAppend(a[1..], b);
    }
  }

  /** The number of write requests among the stimuli. */
  function Writes(ss: seq<Stimulus>): (n: nat)
    ensures n <= |ss|
  {
    if |ss| == 0 then 0 else (if ss[0].Write? then 1 else 0) + Writes(ss[1..])
  }

  /** One for a set gate, zero for an open one. */
  function Busy(u: Uploader): nat
  {
    if u.sending then 1 else 0
  }

  /** A request the device can send on: a chosen format, a writer and a file name. */
  function SampleRequest(): (w: WriteRequest)
    ensures Sendable(w)
  {
    WriteRequest(Chosen(FileFormat(UfpMime, "ufp", false)), true, Some("job"), 100)
  }

  /**
   * Three write requests in a row: the second is turned away and clears the
   * gate, so the third is admitted while the first is still waiting for its
   * upload slot. Two uploads are in flight at once, three requests were
   * answered by one `writeError` and one set gate, and the first upload's
   * eventual end is the second signal for a write already answered.
   */
  lemma ConcurrentUploads()
    ensures var ss := [Write(SampleRequest()), Write(SampleRequest()), Write(SampleRequest())];
      var r := Run(Initial("cluster"), ss);
      && r.u.sending
      && r.u.pending == map[0 := AwaitJobCreated(100), 1 := AwaitJobCreated(100)]
      && Writes(ss) + Busy(Initial("cluster")) != Terminals(r.log) + Busy(r.u)
  {
    var w := SampleRequest();
    var u0 := Initial("cluster");
    var a := Deliver(u0, Write(w));
    assert a.u.pending == map[0 := AwaitJobCreated(100)] && a.u.sending && a.u.nextId == 1;
    var b := Deliver(a.u, Write(w));
    assert !b.u.sending && b.u.pending == a.u.pending && b.u.nextId == 1;
    var c := Deliver(b.u, Write(w));
    assert c.u.sending && c.u.pending == map[0 := AwaitJobCreated(100), 1 := AwaitJobCreated(100)];
    var ss := [Write(w), Write(w), Write(w)];
    assert ss[1..] == [Write(w), Write(w)] && ss[1..][1..] == [Write(w)];
    assert Run(c.u, []) == Outcome(c.u, []);
    assert Run(b.u, [Write(w)]) == Outcome(c.u, c.log);
    assert Run(a.u, [Write(w), Write(w)]) == Outcome(c.u, b.log + c.log);
    assert Writes([Write(w)]) == 1;
    assert Writes(ss) == 3;
    TerminalsAppend(b.log, c.log);
    TerminalsAppend(a.log, b.log + c.log);
    assert Terminals(a.log) == 0 && Terminals(c.log) == 0 && Terminals(b.log) == 1;
  }

  /**
   * An admitted write whose slot request fails is never answered: the gate
   * stays set with no request outstanding, so every later write is turned
   * away, and none of them can clear the gate for long.
   */
  lemma GateStuckAfterLostRequest()
    ensures var ss := [Write(SampleRequest()), RequestLost(0)];
      var r := Run(Initial("cluster"), ss);
      r.u.sending && r.u.pending == map[] && Terminals(r.log) == 0
  {
    var w := SampleRequest();
    var u0 := Initial("cluster");
    var a := Deliver(u0, Write(w));
    assert a.u.pending == map[0 := AwaitJobCreated(100)] && a.u.sending;
    var b := Deliver(a.u, RequestLost(0));
    assert b.u.sending && b.u.pending == map[] && b.log == [];
    var ss := [Write(w), RequestLost(0)];
    assert ss[1..] == [RequestLost(0)];
    assert Run(b.u, []) == Outcome(b.u, []);
    assert Run(a.u, [RequestLost(0)]) == Outcome(b.u, b.log);
    assert |a.log| == 2 && a.log[0] == WriteStarted && a.log[1].Requested?;
    assert Terminals(a.log[1..]) == 0;
    TerminalsAppend(a.log, b.log);
  }

  /** A write without a file name raises after `writeStarted`: the gate stays set and nothing is outstanding. */
  lemma GateStuckAfterRaise(u: Uploader, w: WriteRequest)
    requires !u.sending && u.pending == map[]
    requires w.format.Chosen? && w.writerFound && w.fileName.None?
    ensures var r := RequestWrite(u, w);
      r.u.sending && r.u.pending == map[] && Terminals(r.log) == 0
  {
  }
}
