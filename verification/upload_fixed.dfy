/**
 * The write side as its comments say it is meant to work: one upload at a
 * time. A request turned away leaves the write in flight alone, and every
 * failure after the gate is set, including a lost slot or print request,
 * ends the write through the upload-error path instead of escaping with the
 * gate still set.
 */
module GuardedUpload {
  import opened Base
  import opened FileFormats
  import opened Upload

  /**
   * `requestWrite` with the gate kept: a request while a job is being sent
   * shows the blocked message and is answered with `writeError`, touching
   * neither the gate nor the progress message; every failure of an admitted
   * request ends it in error.
   */
  function RequestWrite(u: Uploader, w: WriteRequest): (r: Outcome)
    ensures u.sending ==> r.u == u && r.log == [ErrorShown(BlockedUploading), WriteError]
    ensures !u.sending && Sendable(w) ==> r == Upload.RequestWrite(u, w)
    ensures !u.sending && !Sendable(w) ==>
      && !r.u.sending && r.u.pending == u.pending && r.u.progress.None?
      && |r.log| >= 2 && r.log[0] == WriteStarted && r.log[|r.log| - 1] == WriteError
  {
    if u.sending then Outcome(u, [ErrorShown(BlockedUploading), WriteError])
    else if Sendable(w) then Upload.RequestWrite(u, w)
    else
      var text := if w.format.NoFormats? then WriteFailed else CouldNotExport;
      var e := OnUploadError(u.(sending := true), Some(text));
      Outcome(e.u, [WriteStarted] + e.log)
  }

  /** The reaction to one stimulus; a lost slot or print request ends the write in error. */
  function Step(u: Uploader, s: Stimulus): (r: Outcome)
    requires Enabled(u, s)
    ensures !s.Write? && !s.RequestLost? ==> r == Upload.Step(u, s)
    ensures s.RequestLost? ==>
      && !r.u.sending && r.u.progress.None? && r.u.pending == u.pending - {s.handle}
      && |r.log| >= 1 && r.log[|r.log| - 1] == WriteError && ErrorShown(UploadError) in r.log
  {
    match s
    case Write(w) => RequestWrite(u, w)
    case RequestLost(h) => OnUploadError(u.(pending := u.pending - {h}), Some(UploadError))
    case _ => Upload.Step(u, s)
  }

  function Deliver(u: Uploader, s: Stimulus): Outcome
  {
    if Enabled(u, s) then Step(u, s) else Outcome(u, [])
  }

  function Run(u: Uploader, ss: seq<Stimulus>): Outcome
    decreases |ss|
  {
    if |ss| == 0 then Outcome(u, [])
    else
      var first := Deliver(u, ss[0]);
      var rest := Run(first.u, ss[1..]);
      Outcome(rest.u, first.log + rest.log)
  }

  /**
   * One upload at a time: the gate is set exactly while one request is
   * outstanding, a progress message exists only while the gate is set, and
   * handles and message identities stay below the counter.
   */
  ghost predicate SingleFlight(u: Uploader)
  {
    && (u.sending <==> |u.pending| == 1)
    && (!u.sending ==> u.pending == map[])
    && (u.progress.Some? ==> u.sending)
    && HandlesFresh(u)
  }

  lemma RemoveOnly(m: map<nat, Stage>, h: nat)
    requires |m| == 1 && h in m
    ensures m - {h} == map[]
  {
    if k :| k in m - {h} {
      assert {h, k} <= m.Keys;
      assert |{h, k}| == 2;
      SubsetCard({h, k}, m.Keys);
      assert false;
    }
  }

  lemma SubsetCard(a: set<nat>, b: set<nat>)
    requires a <= b
    ensures |a| <= |b|
  {
    assert b == a + (b - a);
  }

  lemma ReplaceOnly(m: map<nat, Stage>, h: nat, k: nat, s: Stage)
    requires |m| == 1 && h in m
    ensures |(m - {h})[k := s]| == 1
  {
    RemoveOnly(m, h);
    assert (m - {h})[k := s] == map[k := s];
  }

  /** Every step keeps one upload at a time. */
  lemma StepSingleFlight(u: Uploader, s: Stimulus)
    requires SingleFlight(u) && Enabled(u, s)
    ensures SingleFlight(Step(u, s).u)
  {
    StepHandlesFreshFixed(u, s);
    match s
    case Write(w) =>
      if !u.sending && Sendable(w) {
        assert u.pending[u.nextId := AwaitJobCreated(w.size)] == map[u.nextId := AwaitJobCreated(w.size)];
      }
    case JobCreated(h, _) =>
      ReplaceOnly(u.pending, h, u.nextId, AwaitMeshUpload(u.pending[h].size));
    case MeshProgress(_, _) =>
    case MeshUploaded(h, _) =>
      ReplaceOnly(u.pending, h, u.nextId, AwaitPrint);
    case MeshFailed(h) =>
      RemoveOnly(u.pending, h);
    case PrintAccepted(h, _) =>
      RemoveOnly(u.pending, h);
    case RequestLost(h) =>
      RemoveOnly(u.pending, h);
  }

  lemma StepHandlesFreshFixed(u: Uploader, s: Stimulus)
    requires HandlesFresh(u) && Enabled(u, s)
    ensures HandlesFresh(Step(u, s).u)
  {
    if !s.Write? && !s.RequestLost? {
      StepHandlesFresh(u, s);
    }
  }

  /**
   * Every write request is answered by exactly one `writeFinished` or
   * `writeError`, counting the write in flight as the one still to be
   * answered.
   */
  lemma StepAnswers(u: Uploader, s: Stimulus)
    requires SingleFlight(u) && Enabled(u, s)
    ensures (if s.Write? then 1 else 0) + Busy(u) == Terminals(Step(u, s).log) + Busy(Step(u, s).u)
  {
    match s
    case Write(w) =>
      if u.sending {
        assert Terminals([WriteError]) == 1;
      } else if Sendable(w) {
        var r := Step(u, s);
        assert |r.log| == 2 && r.log[0] == WriteStarted && r.log[1].Requested?;
        assert Terminals(r.log[1..]) == 0;
      } else {
        var text := if w.format.NoFormats? then WriteFailed else CouldNotExport;
        ErrorAnswers(u.(sending := true), Some(text));
        TerminalsAppend([WriteStarted], OnUploadError(u.(sending := true), Some(text)).log);
      }
    case JobCreated(h, _) =>
    case MeshProgress(_, p) =>
      ProgressAnswersNothing(u, p);
    case MeshUploaded(h, _) =>
    case MeshFailed(h) =>
      ErrorAnswers(u.(pending := u.pending - {h}), Some(UploadError));
    case PrintAccepted(h, _) =>
      SuccessAnswers(u.(pending := u.pending - {h}));
    case RequestLost(h) =>
      ErrorAnswers(u.(pending := u.pending - {h}), Some(UploadError));
  }

  lemma {:induction false} NoTerminals(log: seq<Event>)
    requires forall i :: 0 <= i < |log| ==> log[i] != WriteFinished && log[i] != WriteError
    ensures Terminals(log) == 0
    decreases |log|
  {
    if |log| > 0 {
      NoTerminals(log[1..]);
    }
  }

  lemma ResetAnswersNothing(u: Uploader)
    ensures Terminals(ResetUploadProgress(u).log) == 0
  {
  }

  lemma ErrorAnswers(u: Uploader, text: Option<Text>)
    ensures Terminals(OnUploadError(u, text).log) == 1
  {
    var reset := ResetUploadProgress(u);
    var shown := if text.Some? then [ErrorShown(text.value)] else [];
    ResetAnswersNothing(u);
    assert Terminals(shown) == 0;
    assert Terminals([WriteError]) == 1;
    TerminalsAppend(reset.log, shown);
    TerminalsAppend(reset.log + shown, [WriteError]);
  }

  lemma SuccessAnswers(u: Uploader)
    ensures Terminals(OnUploadSuccess(u).log) == 1
  {
    var reset := ResetUploadProgress(u);
    ResetAnswersNothing(u);
    assert Terminals([SuccessShown, WriteFinished]) == 1;
    TerminalsAppend(reset.log, [SuccessShown, WriteFinished]);
  }

  lemma ProgressAnswersNothing(u: Uploader, p: int)
    ensures Terminals(UpdateUploadProgress(u, p).log) == 0
  {
    var r := UpdateUploadProgress(u, p);
    NoTerminals(r.log);
  }

  /**
   * Over any sequence of stimuli, one upload at a time holds throughout and
   * every write request is answered exactly once, except the one still in
   * flight at the end.
   */
  lemma {:induction false} RunAnswers(u: Uploader, ss: seq<Stimulus>)
    requires SingleFlight(u)
    ensures SingleFlight(Run(u, ss).u)
    ensures Writes(ss) + Busy(u) == Terminals(Run(u, ss).log) + Busy(Run(u, ss).u)
    decreases |ss|
  {
    if |ss| > 0 {
      var first := Deliver(u, ss[0]);
      if Enabled(u, ss[0]) {
        StepSingleFlight(u, ss[0]);
        StepAnswers(u, ss[0]);
      } else {
        assert !ss[0].Write?;
      }
      RunAnswers(first.u, ss[1..]);
      TerminalsAppend(first.log, Run(first.u, ss[1..]).log);
    }
  }

  /** The device starts with one upload at a time. */
  lemma InitialSingleFlight(deviceId: string)
    ensures SingleFlight(Initial(deviceId))
  {
  }

  /** The three requests that let two uploads run at once in the written code leave the first upload alone here. */
  lemma NoConcurrentUploads()
    ensures var r := Run(Initial("cluster"), [Write(SampleRequest()), Write(SampleRequest()), Write(SampleRequest())]);
      r.u.sending && r.u.pending == map[0 := AwaitJobCreated(100)]
  {
    var w := SampleRequest();
    var a := Deliver(Initial("cluster"), Write(w));
    assert a.u.sending && a.u.pending == map[0 := AwaitJobCreated(100)];
    var b := Deliver(a.u, Write(w));
    assert b.u == a.u;
    var c := Deliver(b.u, Write(w));
    assert c.u == a.u;
    var ss := [Write(w), Write(w), Write(w)];
    assert ss[1..] == [Write(w), Write(w)] && ss[1..][1..] == [Write(w)];
    assert Run(c.u, []) == Outcome(c.u, []);
    assert Run(b.u, [Write(w)]) == Outcome(c.u, c.log);
    assert Run(a.u, [Write(w), Write(w)]) == Outcome(c.u, b.log + c.log);
  }
}
