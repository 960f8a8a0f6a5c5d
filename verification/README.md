# Cloud output device of the UM3 network printing plugin, in Dafny

This project models the core of Cura's cloud output device
(`plugins/UM3NetworkPrinting/src/Cloud/CloudOutputDevice.py`). The device
stands for one remote Ultimaker cluster and does two things:

- **Read side.** Each poll is skipped within two seconds of the last answer
  (before any answer it is never skipped); otherwise it asks for the cluster
  status while the account is logged in. Each answer reconciles the local printer list and
  then the local print-job list with the snapshot:
  - keys that disappeared are dropped;
  - keys seen before are updated in place, as the same object;
  - new keys are constructed.

  Printer updates apply the `"disabled"` override and touch only extruders
  that have a reported configuration. They re-resolve an extruder's material
  only when its guid changed, and prefer read-only material groups, smallest
  name first. A new job is added only when its printer is known. The monitor
  page reads two job views, "queued" and "active", and the active printer.
- **Write side.** `requestWrite` holds an admission gate. An upload is a
  chain of three cloud calls: upload slot, mesh upload, print request. A
  progress message is created once, updated in place and then dropped. An
  upload ends through one success path or one error path. The write format
  comes from the machine's `file_formats` metadata, with UFP put first for
  firmware 4.4 and later.

Objects are immutable datatypes. Operations are pure functions that return the
new state together with the signals or events they emit, in order.

- **Object identity.** Printer and job models, progress messages and API
  request handles are identified by an `oid`. The `oid` comes from a counter,
  so "the same object" and "a new object" can be stated.
- **Remote calls.** Every cloud call is an issued request with a handle. Its
  answer is a stimulus that names the handle.
- **Time.** Time is in integer milliseconds.

| file | module | models |
|---|---|---|
| `base.dfy` | `Base` | options, lexicographic string order (Python's `sorted` on names), counting |
| `diff.dfy` | `Diff` | `{x.uuid: x for x in xs}` (last entry wins), the removed/new/updated split, order of new keys |
| `materials.dfy` | `Materials` | `_createMaterialOutputModel` |
| `printers.dfy` | `Printers` | `_updatePrinters`, `_addPrinter`, `_updatePrinter` |
| `jobs.dfy` | `Jobs` | `_updatePrintJobs`, `_addPrintJob`, `_updateUM3PrintJobOutputModel`, `queuedPrintJobs`, `activePrintJobs` |
| `device.dfy` | `Device` | `_update`, `_onStatusCallFinished`, `activePrinter` |
| `fileformats.dfy` | `FileFormats` | `_determineFileFormat` |
| `upload.dfy` | `Upload` | `requestWrite`, `_sendPrintJob`, `_onPrintJobCreated`, `_onPrintJobUploaded`, `_updateUploadProgress`, `_resetUploadProgress`, `_onUploadError`, `_onUploadSuccess`, as written |
| `upload_fixed.dfy` | `GuardedUpload` | the write side with the admission gate working as its comment says (see Findings) |

`Upload` follows the code as written. A write request turned away by the gate
goes through `_onUploadError`, which clears the gate and hides the progress
message of the upload in flight. `GuardedUpload` models what the comment at
line 100 says of the gate ("We only allow a single upload at a time"): a
request turned away leaves the upload in flight alone.

## Model

| member | source | states |
|---|---|---|
| Diff.KeyIndex | plugins/UM3NetworkPrinting/src/Cloud/CloudOutputDevice.py:231-232 | the dict built from a list has exactly the list's keys, and a repeated key maps to its last entry |
| Diff.Reconcile | plugins/UM3NetworkPrinting/src/Cloud/CloudOutputDevice.py:234-236 | removed plus updated is exactly the local key set, new plus updated is exactly the remote one, and the three are pairwise disjoint |
| Diff.ReconcileCovers | plugins/UM3NetworkPrinting/src/Cloud/CloudOutputDevice.py:234-236 | every key seen on either side falls in one of removed, new or updated |
| Diff.Enumerate | plugins/UM3NetworkPrinting/src/Cloud/CloudOutputDevice.py:241-242 | the new keys are processed each exactly once, and exactly the wanted ones |
| Diff.EnumerateInOrder | plugins/UM3NetworkPrinting/src/Cloud/CloudOutputDevice.py:241-242 | the new keys are processed in order of their first appearance in the snapshot, the order the model fixes for the set iteration |
| Materials.WithReadOnly | plugins/UM3NetworkPrinting/src/Cloud/CloudOutputDevice.py:281-282 | the filter keeps exactly the groups with the given read-only flag |
| Materials.WithReadOnlySplits | plugins/UM3NetworkPrinting/src/Cloud/CloudOutputDevice.py:281-282 | the read-only and writable filters together account for every group |
| Materials.WithReadOnlyAppend | plugins/UM3NetworkPrinting/src/Cloud/CloudOutputDevice.py:281-282 | filtering two group lists joined is joining the two filtered lists: the filter keeps list order and repeats |
| Materials.MinByName | plugins/UM3NetworkPrinting/src/Cloud/CloudOutputDevice.py:284-289 | `sorted(..., key=name)[0]` is a group of the list whose name no other group's name precedes, and the first such in list order |
| Materials.FirstByNameUnique | plugins/UM3NetworkPrinting/src/Cloud/CloudOutputDevice.py:284-289 | the first group after a stable sort by name is determined uniquely |
| Materials.ChooseGroup | plugins/UM3NetworkPrinting/src/Cloud/CloudOutputDevice.py:280-289 | there is no group iff the list is empty; with any read-only group the choice is the first read-only one by name, otherwise the first writable one by name |
| Materials.CreateMaterial | plugins/UM3NetworkPrinting/src/Cloud/CloudOutputDevice.py:276-306 | the guid is always the remote guid; with a group, type, brand, colour and name come from the chosen group's container; without one they come from the remote fields, and the name is "Empty" iff the remote type is "empty", else "Unknown" |
| Printers.Index | plugins/UM3NetworkPrinting/src/Cloud/CloudOutputDevice.py:231 | the remote printers keyed by uuid: exactly the snapshot's uuids, each mapped to the last snapshot entry with that uuid |
| Printers.BlankExtruders | plugins/UM3NetworkPrinting/src/Cloud/CloudOutputDevice.py:250-252 | a new printer model gets one extruder per reported configuration, each in its initial state |
| Printers.NewPrinter | plugins/UM3NetworkPrinting/src/Cloud/CloudOutputDevice.py:250-252 | a constructed printer model has the given identity, the reported firmware version, the initial state, and one extruder per reported configuration, each in its initial state |
| Printers.UpdateExtruder | plugins/UM3NetworkPrinting/src/Cloud/CloudOutputDevice.py:269-273 | the hotend id is always set; the active material is replaced by the resolved one iff there is none or its guid differs, and is otherwise the same object |
| Printers.UpdateExtruders | plugins/UM3NetworkPrinting/src/Cloud/CloudOutputDevice.py:262-273 | the extruder list keeps its length; only indices below both lengths are updated, and the rest are untouched |
| Printers.UpdatePrinter | plugins/UM3NetworkPrinting/src/Cloud/CloudOutputDevice.py:256-273 | the same object with the same firmware version, showing key, name, type and state from the snapshot (`"disabled"` when not enabled), with its extruder list neither replaced nor resized |
| Printers.UpdatePrinterMaterials | plugins/UM3NetworkPrinting/src/Cloud/CloudOutputDevice.py:271-273 | an updated extruder's material is the old one when the guid matched, and the freshly resolved one otherwise |
| Printers.UpdatePrinterIdempotent | plugins/UM3NetworkPrinting/src/Cloud/CloudOutputDevice.py:256-273 | updating twice from the same snapshot entry is updating once |
| Printers.NewUuids | plugins/UM3NetworkPrinting/src/Cloud/CloudOutputDevice.py:235 | the new ids are exactly the remote uuids without a local printer, each once |
| Printers.SurvivorsSpec | plugins/UM3NetworkPrinting/src/Cloud/CloudOutputDevice.py:238-245 | after removal and in-place update, the keys are exactly the old keys the snapshot still lists, each once, and each printer is the old object of that key updated from its entry |
| Printers.ConstructNewSpec | plugins/UM3NetworkPrinting/src/Cloud/CloudOutputDevice.py:241-254 | the constructed printers have exactly the new keys, are numbered from the counter in order, have one extruder per configuration, and show their snapshot entry |
| Printers.UpdatePrinters | plugins/UM3NetworkPrinting/src/Cloud/CloudOutputDevice.py:230-247 | afterwards the printer keys are exactly the snapshot's uuids, each once, and the identity counter advances by exactly the number of snapshot uuids that had no printer (one construction per new uuid); which object each key holds is stated by the lemmas below |
| Printers.ReconciledMirrors | plugins/UM3NetworkPrinting/src/Cloud/CloudOutputDevice.py:238-245 | the survivors followed by the constructed printers hold each snapshot uuid exactly once |
| Printers.NewUuidsCount | plugins/UM3NetworkPrinting/src/Cloud/CloudOutputDevice.py:235 | the new uuids, enumerated once each, are as many as the set difference of snapshot uuids and local keys |
| Printers.UpdatePrintersOrder | plugins/UM3NetworkPrinting/src/Cloud/CloudOutputDevice.py:238-242 | every printer seen before comes ahead of every new one, since new printers are appended after the removals |
| Printers.UpdatePrintersKeepsIdentity | plugins/UM3NetworkPrinting/src/Cloud/CloudOutputDevice.py:244-245 | a printer whose key is on both sides is the same object afterwards, updated in place and never reconstructed |
| Printers.UpdatePrintersConstructsNew | plugins/UM3NetworkPrinting/src/Cloud/CloudOutputDevice.py:241-254 | a printer with a new key is a new object whose identity was never handed out, with one extruder per reported configuration |
| Printers.UpdatePrintersReflects | plugins/UM3NetworkPrinting/src/Cloud/CloudOutputDevice.py:230-273 | every printer afterwards shows what its snapshot entry reports |
| Printers.SurvivorsReflect | plugins/UM3NetworkPrinting/src/Cloud/CloudOutputDevice.py:244-245 | every printer kept in place shows what its snapshot entry reports |
| Printers.MadeReflect | plugins/UM3NetworkPrinting/src/Cloud/CloudOutputDevice.py:249-254 | every constructed printer shows what its snapshot entry reports |
| Printers.SurvivorsMatch | plugins/UM3NetworkPrinting/src/Cloud/CloudOutputDevice.py:244-245 | a kept printer sharing a key with an old printer is that old printer, updated from its entry |
| Printers.SurvivorsWithin | plugins/UM3NetworkPrinting/src/Cloud/CloudOutputDevice.py:238-239 | no kept printer has a key the snapshot dropped or a key that was not local |
| Printers.UpdatePrintersOids | plugins/UM3NetworkPrinting/src/Cloud/CloudOutputDevice.py:237-254 | no printer object appears twice and none claims an identity not yet handed out |
| Jobs.JobIndex | plugins/UM3NetworkPrinting/src/Cloud/CloudOutputDevice.py:309 | the remote jobs keyed by uuid: exactly the snapshot's uuids, each mapped to the last snapshot entry with that uuid |
| Jobs.FindPrinter | plugins/UM3NetworkPrinting/src/Cloud/CloudOutputDevice.py:330-331 | `next(...)` finds nothing iff no printer has the key, and otherwise finds the first printer in list order that has it |
| Jobs.UpdateJob | plugins/UM3NetworkPrinting/src/Cloud/CloudOutputDevice.py:340-345 | the same job object, with the same key, name and printer link, showing the snapshot's times, owner and status |
| Jobs.UpdateJobIdempotent | plugins/UM3NetworkPrinting/src/Cloud/CloudOutputDevice.py:340-345 | updating a job twice from the same entry is updating it once |
| Jobs.NewJobUuids | plugins/UM3NetworkPrinting/src/Cloud/CloudOutputDevice.py:318 | the new job ids are exactly the snapshot uuids without a local job, each once |
| Jobs.AddedJobs | plugins/UM3NetworkPrinting/src/Cloud/CloudOutputDevice.py:329-338 | at most one job is added per new uuid (a uuid whose printer is missing adds none); which jobs, in which order and numbering, is stated by `Jobs.AddedJobsSpec` |
| Jobs.UpdatedJobsSpec | plugins/UM3NetworkPrinting/src/Cloud/CloudOutputDevice.py:315-322 | the surviving jobs are exactly the old keys the snapshot lists, each once, each the old object updated from its entry |
| Jobs.AddedJobsSpec | plugins/UM3NetworkPrinting/src/Cloud/CloudOutputDevice.py:318-338 | the added jobs are exactly the new uuids whose printer is known, each once, numbered from the counter |
| Jobs.UpdatePrintJobsKeys | plugins/UM3NetworkPrinting/src/Cloud/CloudOutputDevice.py:308-322 | afterwards the job keys are (old keys ∩ snapshot ids) ∪ (new ids whose printer is known), each once |
| Jobs.UpdatePrintJobsKeepsIdentity | plugins/UM3NetworkPrinting/src/Cloud/CloudOutputDevice.py:321-322 | a surviving job is the same object, updated in place from its entry |
| Jobs.UpdatePrintJobsAdds | plugins/UM3NetworkPrinting/src/Cloud/CloudOutputDevice.py:329-338 | a job with a new key is a fresh object linked to the first printer with the job's printer uuid, still at its initial times, owner and state |
| Jobs.UpdatePrintJobs | plugins/UM3NetworkPrinting/src/Cloud/CloudOutputDevice.py:308-327 | `printJobsChanged` is emitted iff some old job was removed or some snapshot job is new (the two id sets differ), and at most one identity is handed out per new uuid; keys, identities and links are stated by the lemmas below |
| Jobs.NewJobUuidsCount | plugins/UM3NetworkPrinting/src/Cloud/CloudOutputDevice.py:318 | the new job uuids, enumerated once each, are as many as the set difference of snapshot uuids and local keys |
| Jobs.DroppedJobStillSignals | plugins/UM3NetworkPrinting/src/Cloud/CloudOutputDevice.py:318-338 | when the only new job has no known printer, the job list keeps its keys and the counter, yet the change signal is emitted |
| Jobs.UpdatePrintJobsOids | plugins/UM3NetworkPrinting/src/Cloud/CloudOutputDevice.py:314-338 | no job object appears twice and none claims an identity not yet handed out |
| Jobs.QueuedPrintJobs | plugins/UM3NetworkPrinting/src/Cloud/CloudOutputDevice.py:196-199 | a job is in the queued view iff it is in the list with state "queued" or "error" |
| Jobs.ActivePrintJobs | plugins/UM3NetworkPrinting/src/Cloud/CloudOutputDevice.py:202-205 | a job is in the active view iff it is in the list, linked to a printer, and not "queued" |
| Jobs.QueuedPrintJobsAppend | plugins/UM3NetworkPrinting/src/Cloud/CloudOutputDevice.py:196-199 | the queued view of two lists joined is the two views joined: the filter keeps list order and repeats |
| Jobs.ActivePrintJobsAppend | plugins/UM3NetworkPrinting/src/Cloud/CloudOutputDevice.py:202-205 | the active view of two lists joined is the two views joined: the filter keeps list order and repeats |
| Jobs.ViewsOverlap | plugins/UM3NetworkPrinting/src/Cloud/CloudOutputDevice.py:196-205 | the views share exactly the linked jobs in state "error", and every linked job is in one of them |
| Jobs.NewJobShowsActive | plugins/UM3NetworkPrinting/src/Cloud/CloudOutputDevice.py:336-338 | a job added in this pass is in the active view and not the queued one, whatever state the cluster reports, because it is not updated in the same pass |
| Device.Update | plugins/UM3NetworkPrinting/src/Cloud/CloudOutputDevice.py:214-221 | within two seconds of the last answer the poll changes nothing of the cluster state and calls nothing; otherwise the state becomes Authenticated iff logged in, and exactly one status request for this cluster is issued iff logged in, with the rest of the cluster state kept |
| Device.UpdateWithinInterval | plugins/UM3NetworkPrinting/src/Cloud/CloudOutputDevice.py:214-215 | any number of polls inside the interval leave the device unchanged and call nothing |
| Device.UpdateAfterInterval | plugins/UM3NetworkPrinting/src/Cloud/CloudOutputDevice.py:217-220 | after the interval, or before any answer, a logged-in poll asks for the status exactly once |
| Device.OnStatusCallFinished | plugins/UM3NetworkPrinting/src/Cloud/CloudOutputDevice.py:225-228 | printers are reconciled before jobs; `printersChanged` is emitted exactly once and first, and `printJobsChanged` once iff the job id sets differ |
| Device.OnStatusCallFinishedValid | plugins/UM3NetworkPrinting/src/Cloud/CloudOutputDevice.py:225-228 | handling an answer keeps keys unique and object identities distinct and allocated |
| Device.OnStatusCallFinishedMirrors | plugins/UM3NetworkPrinting/src/Cloud/CloudOutputDevice.py:225-228 | afterwards the printer keys are the snapshot's printers, every job is a snapshot job, and every new job is linked to a printer of the reconciled list |
| Device.ActivePrinter | plugins/UM3NetworkPrinting/src/Cloud/CloudOutputDevice.py:413-416 | there is no active printer iff there are no printers, and otherwise it is the first |
| Device.ActivePrinterStable | plugins/UM3NetworkPrinting/src/Cloud/CloudOutputDevice.py:413-416 | while the snapshot still reports the active printer, it remains the active printer, as the same object |
| FileFormats.Split | plugins/UM3NetworkPrinting/src/Cloud/CloudOutputDevice.py:151 | `str.split(";")` gives at least one piece, none containing the separator |
| FileFormats.SplitJoin | plugins/UM3NetworkPrinting/src/Cloud/CloudOutputDevice.py:151 | joining the pieces with ";" gives the entry back |
| FileFormats.JoinSplit | plugins/UM3NetworkPrinting/src/Cloud/CloudOutputDevice.py:151 | splitting the join of separator-free pieces gives the pieces back |
| FileFormats.Strip | plugins/UM3NetworkPrinting/src/Cloud/CloudOutputDevice.py:152 | the stripped string is no longer than the original, and begins and ends with a non-space |
| FileFormats.StripCutsOnlySpace | plugins/UM3NetworkPrinting/src/Cloud/CloudOutputDevice.py:152 | stripping keeps a contiguous slice and removes only whitespace on either side |
| FileFormats.StripIdempotent | plugins/UM3NetworkPrinting/src/Cloud/CloudOutputDevice.py:152 | stripping twice is stripping once |
| FileFormats.MachinePreference | plugins/UM3NetworkPrinting/src/Cloud/CloudOutputDevice.py:151-152 | one preference per piece of the metadata entry, so never none, and each is that piece stripped, in order |
| FileFormats.Preferences | plugins/UM3NetworkPrinting/src/Cloud/CloudOutputDevice.py:153-155 | UFP is put in front iff the machine does not list it and the firmware is 4.4 or later; otherwise the machine's list is used unchanged |
| FileFormats.Lookup | plugins/UM3NetworkPrinting/src/Cloud/CloudOutputDevice.py:158-161 | the comprehension succeeds iff every preferred type is writable, giving the formats in preference order; otherwise it fails on the first unwritable type |
| FileFormats.DetermineFileFormat | plugins/UM3NetworkPrinting/src/Cloud/CloudOutputDevice.py:138-166 | no answer iff there is no global stack; otherwise a format is chosen iff every preferred type is writable, and it is the writable format of the first preferred type (the last one listed for that type); else the reported type is the first preferred one that cannot be written, as the comprehension at line 161 stops there |
| FileFormats.DetermineFileFormatNeverEmpty | plugins/UM3NetworkPrinting/src/Cloud/CloudOutputDevice.py:163-165 | with a global stack the empty-list error cannot be raised |
| FileFormats.UfpPreferred | plugins/UM3NetworkPrinting/src/Cloud/CloudOutputDevice.py:153-155 | with firmware 4.4 or later and every type writable, UFP is chosen when the machine does not list it |
| Upload.ResetUploadProgress | plugins/UM3NetworkPrinting/src/Cloud/CloudOutputDevice.py:377-380 | an existing progress message is hidden and dropped; with none, nothing happens; nothing else changes |
| Upload.ResetUploadProgressIdempotent | plugins/UM3NetworkPrinting/src/Cloud/CloudOutputDevice.py:377-380 | a second reset does nothing |
| Upload.UpdateUploadProgress | plugins/UM3NetworkPrinting/src/Cloud/CloudOutputDevice.py:364-375 | the message shows the given progress and is shown last; it is created, at progress -1 and under a fresh identity, iff there was none, and otherwise keeps its identity |
| Upload.ProgressCreatedAtInitial | plugins/UM3NetworkPrinting/src/Cloud/CloudOutputDevice.py:365-375 | with no message yet, a fresh message is created at progress -1, then set to the given progress, then shown, and nothing else is emitted |
| Upload.UpdateUploadProgressOnce | plugins/UM3NetworkPrinting/src/Cloud/CloudOutputDevice.py:364-375 | a second update reuses the first update's message and creates none |
| Upload.OnUploadError | plugins/UM3NetworkPrinting/src/Cloud/CloudOutputDevice.py:382-394 | the gate is cleared, the progress message dropped, the text shown iff given, and the log ends with `writeError` |
| Upload.OnUploadSuccess | plugins/UM3NetworkPrinting/src/Cloud/CloudOutputDevice.py:396-408 | the gate is cleared, the progress message dropped, and the log ends with the success message then `writeFinished` |
| Upload.UploadEndsOnce | plugins/UM3NetworkPrinting/src/Cloud/CloudOutputDevice.py:382-408 | either end emits exactly one of `writeFinished` and `writeError`, and never the other |
| Upload.RequestWrite | plugins/UM3NetworkPrinting/src/Cloud/CloudOutputDevice.py:113-135 | a request on a set gate emits no `writeStarted`, shows the "blocked" error, clears the gate, drops the progress message and ends with `writeError`; otherwise `writeStarted` comes first, a failed format choice or missing file name raises with the gate set and nothing else changed, a missing writer shows the "could not export" error, clears the gate, asks for nothing and ends with `writeError`, and a sendable request asks for a slot named file name + "." + extension with the format's mime type and the written size |
| Upload.BlockedRequest | plugins/UM3NetworkPrinting/src/Cloud/CloudOutputDevice.py:116-119 | a request turned away never asks for a slot and emits no `writeStarted`, yet it emits `writeError`, clears the gate and drops the progress message |
| Upload.AdmittedRequest | plugins/UM3NetworkPrinting/src/Cloud/CloudOutputDevice.py:121-130 | on an open gate `writeStarted` is emitted first, and the gate stays set unless a chosen format has no writer |
| Upload.ChainAdvances | plugins/UM3NetworkPrinting/src/Cloud/CloudOutputDevice.py:347-362 | a granted slot issues the mesh upload, and an uploaded mesh issues the print request for this cluster; each goes under a fresh handle, and the gate is left alone |
| Upload.SendPrintJob | plugins/UM3NetworkPrinting/src/Cloud/CloudOutputDevice.py:347-355 | exactly one upload-slot request is issued, under a fresh handle, with the job name, byte count and content type; the gate, the progress message and every other outstanding request are left alone |
| Upload.OnPrintJobCreated | plugins/UM3NetworkPrinting/src/Cloud/CloudOutputDevice.py:357-359 | the answered slot request is retired and exactly one mesh upload of the same byte count is issued under a fresh handle; the gate and the progress message are left alone |
| Upload.OnPrintJobUploaded | plugins/UM3NetworkPrinting/src/Cloud/CloudOutputDevice.py:361-362 | the answered mesh upload is retired and exactly one print request for this cluster is issued under a fresh handle; the gate and the progress message are left alone |
| Upload.Step | plugins/UM3NetworkPrinting/src/Cloud/CloudOutputDevice.py:355-408 | the counter never goes back; no answer sets the gate; a lost request emits nothing and leaves gate and progress message as they were; a failed mesh upload or accepted print clears both; answers along the chain leave the gate alone |
| Upload.MeshFailureEndsWrite | plugins/UM3NetworkPrinting/src/Cloud/CloudOutputDevice.py:357-359 | a failed mesh upload ends the write with exactly one `writeError` and clears the gate |
| Upload.PrintAcceptedEndsWrite | plugins/UM3NetworkPrinting/src/Cloud/CloudOutputDevice.py:361-362 | an accepted print request ends the write with exactly one `writeFinished` and clears the gate |
| Upload.LostRequestKeepsGate | plugins/UM3NetworkPrinting/src/Cloud/CloudOutputDevice.py:355 | a failed slot or print request has no callback: the gate stays as it was and nothing is emitted |
| Upload.StepHandlesFresh | plugins/UM3NetworkPrinting/src/Cloud/CloudOutputDevice.py:347-375 | request handles and message identities stay below the counter |
| Upload.ConcurrentUploads | plugins/UM3NetworkPrinting/src/Cloud/CloudOutputDevice.py:116-119 | three write requests in a row leave two uploads in flight at once |
| Upload.GateStuckAfterLostRequest | plugins/UM3NetworkPrinting/src/Cloud/CloudOutputDevice.py:355 | after a lost slot request the gate stays set with no request outstanding and no end signal emitted |
| Upload.GateStuckAfterRaise | plugins/UM3NetworkPrinting/src/Cloud/CloudOutputDevice.py:135 | a write without a file name raises with the gate set, nothing outstanding and no end signal emitted |
| GuardedUpload.RequestWrite | plugins/UM3NetworkPrinting/src/Cloud/CloudOutputDevice.py:113-135 | a request turned away leaves the gate and the progress message untouched; every failure of an admitted request ends it in error; a sendable request behaves as written |
| GuardedUpload.Step | plugins/UM3NetworkPrinting/src/Cloud/CloudOutputDevice.py:382-394 | a lost request ends the write through the upload-error path: gate cleared, progress message dropped, request retired, error shown and `writeError` last; every other answer behaves as written |
| GuardedUpload.StepSingleFlight | plugins/UM3NetworkPrinting/src/Cloud/CloudOutputDevice.py:100-101 | one upload at a time: the gate is set exactly while one request is outstanding, and a progress message exists only while it is set |
| GuardedUpload.RunAnswers | plugins/UM3NetworkPrinting/src/Cloud/CloudOutputDevice.py:382-408 | over any run, every write request is answered by exactly one `writeFinished` or `writeError`, except the one still in flight |
| GuardedUpload.NoConcurrentUploads | plugins/UM3NetworkPrinting/src/Cloud/CloudOutputDevice.py:100-101 | the three requests that start two uploads as written leave only the first upload in flight |

## Left out

- Qt signals, properties and slots. Signals are entries of an emitted sequence, and properties are pure functions.
- The QML paths, the interface texts and the monitor-page stubs other than `activePrinter` (`setActivePrinter`, the camera URL, `receivedPrintJobs`). They carry no logic. `_onApiError` does nothing.
- The HTTP transport of the cloud API client. Calls are issued requests, and their answers are stimuli. A failed status request triggers no reconciliation and is not modelled.
- The material manager and its containers are a catalog: a map from guid to material groups with their metadata. `getMetaDataEntry` on a missing key is not modelled.
- The global stack and the application's writable formats are inputs. The firmware version comparison is a boolean "firmware 4.4 or later", because version parsing lives outside this file.
- The file writers and the written stream are a "writer found" flag and a byte count. The bytes themselves are not modelled.
- `Printers.UpdatePrinters`, `Device.OnStatusCallFinished`: require the local printer keys to be unique. The code keeps them unique itself (`Device.OnStatusCallFinishedValid`), but a list built elsewhere with duplicates is not covered.
- The initial field values of printer, extruder and job models (empty hotend, no material, state "unknown" for printers, empty state and owner and zero times for jobs) come from model classes outside this file. They are constants of the model.
- `FileFormats.IsSpace`: covers the whitespace characters Python's `str.isspace` knows, by code point. Unicode normalisation is not modelled.
- The order in which Python iterates the set of new ids is unspecified. The model adds new printers and jobs in order of first appearance in the snapshot.
- `Device.Update`: the base-class `super()._update()` (line 213), which runs on every poll, throttled or not, is not modelled. It belongs to the output-device base class outside this file, so the model states nothing about what it changes.
- Logging and message lifetimes, dismissability and timers. Only which message was created, set, shown or hidden is kept.

## Findings

| source | as written | input that shows it | evidently intended | confidence | as-written member | corrected member |
|---|---|---|---|---|---|---|
| plugins/UM3NetworkPrinting/src/Cloud/CloudOutputDevice.py:116-119 | a write request on a set gate goes through `_onUploadError`, which clears `_sending_job` and hides the progress message of the upload in flight | three write requests while the first is still waiting for its upload slot: the third is admitted and two uploads run at once | turn the request away and leave the upload in flight alone ("We only allow a single upload at a time", line 100) | not executed; high | Upload.ConcurrentUploads | GuardedUpload.StepSingleFlight |
| plugins/UM3NetworkPrinting/src/Cloud/CloudOutputDevice.py:355 | `requestUpload` (and `requestPrint`, line 362) get no error callback, so a failure there never reaches `_onUploadError` | a write whose upload-slot request fails: the gate stays set forever and every later write is turned away | end the write through the upload-error path | not executed; high | Upload.GateStuckAfterLostRequest | GuardedUpload.RunAnswers |
| plugins/UM3NetworkPrinting/src/Cloud/CloudOutputDevice.py:135 | the exceptions after the gate is set (no file name, no global stack, an unwritable preferred type) leave `requestWrite` with `_sending_job` still true | `requestWrite` with the default `file_name=None` and a writer found | end the write in error so that the gate is cleared | not executed; medium | Upload.GateStuckAfterRaise | GuardedUpload.RequestWrite |

`FileFormats.DetermineFileFormatNeverEmpty` also shows that the
`WriteRequestFailedError` for an empty format list (line 165) cannot be
raised. Splitting always yields at least one preference, so the lookup either
succeeds or fails on an unwritable type first.
