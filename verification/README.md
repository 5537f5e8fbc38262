# Verification model of the sysmon agent

A Dafny model of the resident parts of the agent: the state machines that run for as long
as the service does, and the bookkeeping algorithms around them. Objects that the agent
updates under a lock are classes whose methods are the critical sections, so their
invariants hold however goroutines interleave; algorithms over slices are loops over
arrays or sequences, proved against specification functions. Devices, pipes, files, the
service manager and the clock appear as objects whose operations may fail, with or
without having had their effect, and time never runs backwards. Claims about whole runs
are lemmas over logs of the steps taken.

| file | subject |
|---|---|
| CameraJournal.dfy | the camera toggle and its write-ahead journal |
| LhmDaemon.dfy | the client of the LibreHardwareMonitor bridge process |
| Delivery.dfy, Lanes.dfy | newest-wins delivery to subscribers; the merge of the sampler's lanes |
| History.dfy | the ring of peak buckets, in values and in heap cells |
| PeerIds.dfy, PeerTurns.dfy, PeerRegistry.dfy, PeerScan.dfy | ids of the host list, whom a scan lists, what it does to the list, when one may start |
| UpdateSwap.dfy, UpdateGate.dfy, SemVer.dfy | the binary swap with rollback, one update at a time, the version order |
| ProcessTree.dfy, Apps.dfy, Members.dfy, TopN.dfy, AppsView.dfy, AgentCost.dfy, Rows.dfy | launchers, app rows and their members, the selection of rows, both for apps, the agent's own cost |
| SingleFlight.dfy, BoundedReads.dfy | sharing one collection; reads that may hang |
| TokenUsage.dfy | daily token totals |
| Text.dfy, Options.dfy | the pieces of the string library the algorithms use; optional values |

## Where the code does less than its comments say

Each of these is proved, with the condition under which the promise does hold.

- Restore drops records by id alone: the other records survive exactly if no two share an
  id (`CameraJournal.DropKeepsOthersIff`, `CameraJournal.SharedIdLosesARecord`).
- A snapshot can be published after one that contains more passes, and go back in time:
  exactly when a lane stores its copy while another lane's older copy is still to come
  (`Lanes.Sampler.Publish`, `Lanes.Overtaken`).
- Storing a snapshot and broadcasting it are separate critical sections. A subscriber is sent a
  snapshot twice exactly if it came between the two (`Delivery.SentTwiceIff`,
  `Delivery.SameSnapshotTwice`). Once nothing is on its way, the newest value of a subscriber
  that was there is the stored snapshot exactly if no other snapshot was on its way when the
  last one stored was broadcast (`Delivery.AtRestIff`, `Delivery.LastStoreLastIff`,
  `Delivery.OlderSnapshotLast`), so always while no lane stores between another's store and
  broadcast (`Delivery.Hub.NewestIsStoredIfSerial`).
- The slow lane's patch after a panic leaves the platform and the hardware names alone: a
  lane's fields come from one pass exactly if its last pass did not panic
  (`Lanes.UntornIff`, `Lanes.Torn`).
- The exited-children counter is read before the lock is taken, so overlapping passes can
  charge the same nanoseconds twice: when every pass can charge, exactly if there are four
  readings in lock order of which the first and the third lie below the second and the
  fourth (`AgentCost.ChargedTwiceIff`, `AgentCost.SwappedReadsChargeTwice`); never while
  readings do not fall (`AgentCost.NoNanosecondTwice`).
- Of a pass with distinct PIDs min(rows, 5n) rows are picked, and all of them are shown, so
  that every column has its leaders, exactly if those are at most 30. At n = 15 that means at
  most 30 processes (`TopN.SelectTopProcesses`), and for every larger number there is a
  pass whose leader by memory is missing (`TopN.MemoryLeaderIsLost`).
- Pre-release identifiers of a dash and zeros are read as the number zero, and numbers
  beyond an int as words; all other valid identifiers are ordered as section 11 of Semantic
  Versioning 2.0.0 says (`SemVer.AgreesIffPlain`, `SemVer.DashZeroIsNotOrdered`).
- A swap that cannot remove a stale backup leaves the service stopped. Once the service has
  stopped that is the only way to end with the old binary at its path and no start attempted,
  unless the old binary is the beginning of the new one
  (`UpdateSwap.Machine.ApplyVerifiedSwap`, in `StaysDown`). A swap after a failed rollback
  deletes the only good binary (`UpdateSwap.SwapAfterFailedRollback`).
- A host is listed twice exactly if two listed candidates share a machine name
  (`PeerRegistry.Registry.List`), and its id then changes from scan to scan
  (`PeerRegistry.SharedNameChangesIds`).
- A scan keeps the ids of all listed hosts exactly if the ids it finds are distinct
  (`PeerRegistry.Registry.ApplyScan`). They are while no known host is skipped as a duplicate
  instance and none is listed twice; otherwise a host can lose its id
  (`PeerRegistry.SkippedHostLosesItsId`).
- App rows have names that differ, and not only in letter case, exactly if no two keys of the
  pass differ only by spaces around them (`Apps.NamesApartIff`); every column then has its
  leaders among the picked rows (`AppsView.ShowApps`). Otherwise an app can hide the leader of
  a column (`AppsView.AnAppIsHidden`).

## Model

| member | source | states |
|---|---|---|
| `CameraJournal.CrashSafety` | device_activity.go:252-353 | over every permitted run, and at every prefix of it (a crash may follow any effect), each camera the agent switched off and has not re-enabled has a record on disk, and an agent that accepts commands holds in memory exactly what is on disk |
| `CameraJournal.StepKeepsSafe` | device_activity.go:252-353 | one permitted effect, successful or not, keeps that invariant |
| `CameraJournal.RestartRecovers` | device_activity.go:115-137 | after a crash at any point, a restarted agent has a record in memory for every camera it owes, or refuses control; it does not refuse a readable journal when every listed camera has an id and an identity |
| `CameraJournal.OwnJournalLoads` | device_activity.go:115-137 | an agent never writes a journal it would refuse: through any toggles, failures, restarts and outside changes, while backends list cameras with ids and identities |
| `CameraJournal.DisabledElsewhereStaysOff` | device_activity.go:302-353 | a camera that somebody else disabled is never switched on and never recorded, through any toggles, failures, restarts and changes of other cameras, until somebody else switches it on |
| `CameraJournal.DropKeepsOthersIff` | device_activity.go:328-333 | dropping a restored record by id alone keeps the other records exactly when no two records share an id |
| `CameraJournal.SharedIdLosesARecord` | device_activity.go:328-337 | a whole toggle with a shared id, the second camera's own restore failing, that ends with a camera off, owed, and no record of it |
| `CameraJournal.TogglingTwiceIsIdentity` | device_activity.go:302-353 | all cameras off and recorded, then all recorded ones back on, is the starting state |
| `CameraJournal.Host.SetCamera` | device_activity.go:91-95 | switching a camera may fail with or without having had its effect; success means that it has the wanted state |
| `CameraJournal.Host.Replace` | device_activity.go:252-285 | writing the journal replaces the whole file or nothing, and only in a way the protocol permits |
| `CameraJournal.Host.PrepareRestore` | device_activity.go:305-311 | preparing a restore may switch on some of the recorded cameras and no other |
| `CameraJournal.Manager.constructor` | device_activity.go:115-137 | a (re)start loads what the file holds and refuses control if it cannot |
| `CameraJournal.Manager.SaveJournal` | device_activity.go:252-285 | after each write memory and disk agree, whether or not it succeeded |
| `CameraJournal.Manager.RestoreOne` | device_activity.go:324-337 | one record: nothing if its camera is not listed, else its camera on and no longer owed, then the record dropped; a refusal keeps the record |
| `CameraJournal.Manager.DisableOne` | device_activity.go:341-351 | one camera: recorded on disk first, then off; without a record it is not touched |
| `CameraJournal.Manager.Restore` | device_activity.go:303-338 | every record has its turn whatever becomes of the others: its camera is tried exactly if listed, the record is gone exactly if that worked, and the failures are the missing cameras and the failed effects; only a failed write of the journal ends the loop; undisturbed, what was switched is on and nothing else changed |
| `CameraJournal.Manager.Disable` | device_activity.go:339-353 | every enabled camera has its turn whatever becomes of the others: recorded first, and tried exactly if recorded; only a failed write ends the loop; undisturbed, what was switched is off and nothing else changed |
| `CameraJournal.Manager.Apply` | device_activity.go:287-377 | one toggle: refuses with a journal error and then touches nothing; only a failed listing or nothing to do stops it; otherwise it does all that restore or disable promise; fault-free it turns all off or all recorded ones back on |
| `CameraJournal.RestoredWell` | device_activity.go:303-338 | a restore without a failure has switched on every recorded camera and emptied the journal; it has none when every recorded camera is listed and nothing fails |
| `CameraJournal.Manager.ToggleTwice` | device_activity.go:287-377 | two fault-free toggles from an empty journal return every camera to its starting state |
| `LhmDaemon.CrowdedMeans` | lhm_bridge_windows.go:255-288 | at every moment of a run with a clean verdict at most one bridge process is alive |
| `LhmDaemon.JammedMeans` | lhm_bridge_windows.go:290-303 | at every moment each process has at most one unanswered request |
| `LhmDaemon.HastyMeans` | lhm_bridge_windows.go:255-288 | any two starts are at least the restart backoff apart |
| `LhmDaemon.OverdueMeans` | lhm_bridge_windows.go:362-382 | between two enumerations (start or rescan) at most 240 plain full reads are answered, however osd reads interleave |
| `LhmDaemon.StaleMeans` | lhm_bridge_windows.go:213-253 | every delivered answer belongs to the request of the call it was delivered to, and nothing starts after Close |
| `LhmDaemon.Machine.ReadLine` | lhm_bridge_windows.go:305-342 | the next line of a process answers its oldest unanswered request; on a timeout the abandoned reader may still swallow one |
| `LhmDaemon.Daemon.ReadRequest` | lhm_bridge_windows.go:213-243 | keeps all of the above; a result is the answer to the line this very call wrote, of the right kind and with the right deadline, at once or after one start; `backoff` only while the clock is short of it; without a failed operation there is a result; a failure leaves no process, one more failure and a backoff from now; a disabled daemon does nothing |
| `LhmDaemon.Daemon.EnsureAlive` | lhm_bridge_windows.go:255-270 | answers `backoff` only while the clock is short of it, and otherwise tries exactly one start of a process that is not there; alive exactly if it reports no error |
| `LhmDaemon.Daemon.StartLocked` | lhm_bridge_windows.go:270-288 | a start is cold and counts as an enumeration; a failed one counts and sets the backoff from now |
| `LhmDaemon.Daemon.RequestLocked` | lhm_bridge_windows.go:290-303 | what comes back is the line just written's answer, or nothing exactly if an operation failed |
| `LhmDaemon.Daemon.HandleFailure` | lhm_bridge_windows.go:344-348 | the process is gone, the failure counted and the next start put off by exactly the backoff from now |
| `LhmDaemon.Daemon.RecordFailure` | lhm_bridge_windows.go:350-360 | only a daemon that never succeeded is disabled, at the sixth failure in a row |
| `LhmDaemon.Daemon.HandleSuccess` | lhm_bridge_windows.go:362-382 | success ends the cold phase and the failure streak; a rescan is due exactly after 240 plain reads or half an hour, osd reads do not count, a rescan starts over |
| `LhmDaemon.Daemon.Teardown` | lhm_bridge_windows.go:384-392 | kills the one process, if any, and changes nothing else |
| `LhmDaemon.Daemon.Close` | lhm_bridge_windows.go:245-253 | disabled for good, with no process left |
| `History.HistoryIsAPeakFold` | history.go:77-130 | after any run of samples the points are exactly the buckets touched since the last backward step and still retained, ascending, on the step grid, each field the peak of its bucket |
| `History.PeakIsGreatest` | history.go:156-168 | the peak is at least every rounded finite reading of its bucket |
| `History.PeakIsAttained` | history.go:156-168 | the peak is one of those readings, and absent when there is none |
| `History.RoundsToNearest` | metrics.go:835-853 | rounding gives a whole number of hundredths at most half a hundredth away, of two the one farther from zero |
| `History.NearestIsRound` | metrics.go:835-853 | and there is only one such number |
| `History.RoundIsMonotone` | metrics.go:835-853 | rounding keeps the order |
| `History.PeakIsNearGreatest` | history.go:156-168 | the peak is the greatest finite raw reading of its bucket, rounded, so within 0.005 of it |
| `History.PointsShowReadings` | history.go:77-130 | after any run every shown value is within 0.005 of the greatest finite reading of its bucket since the epoch, and a value is missing only without one |
| `History.ReadingsAre` | history.go:99-118 | which reading each field takes; the disk is both rates together |
| `History.EpochMeans` | history.go:92-96 | from the epoch on the buckets never step back |
| `History.AtMostKeepOverStep` | history.go:121-130 | with a retention of n steps at most n points ever exist |
| `History.RaiseAllAt` | history.go:99-118 | each field is raised by its own reading and by no other; slow fields only while fresh |
| `History.MetricsHistory.Observe` | history.go:77-119 | the heap version takes exactly the step of the value version, overwriting cells in place |
| `History.MetricsHistory.Peak` | history.go:156-168 | one pointer field: allocate, overwrite or leave alone, without touching any other |
| `History.MetricsHistory.TrimLocked` | history.go:121-130 | drops exactly the leading points outside the retention window |
| `History.MetricsHistory.Open` | history.go:88-97 | a later bucket opens, an earlier one starts over, the same one stays open |
| `History.MetricsHistory.Snapshot` | history.go:134-154 | the copy shows the points from cells of its own |
| `History.CopyCells` | history.go:170-176 | every pointer is copied to a distinct fresh cell with the same value |
| `History.SnapshotIsFrozen` | history.go:132-154 | a snapshot handed out is never changed by any number of later samples |
| `Delivery.Channel.CoalesceSend` | sampler.go:404-421 | with a receiver taking values at any moment the sender never waits, the value given last is never lost except to a newer one, and the receiver gets a subsequence in order |
| `Delivery.Channel.TrySend` | sampler.go:408-412 | a send goes through exactly when the channel is empty, and never on a closed one |
| `Delivery.Channel.Take` | sampler.go:404-421 | a receive delivers the pending value, after everything received before |
| `Delivery.Hub.Subscribe` | sampler.go:452-472 | a new subscriber is sent the current snapshot, if any, before every later broadcast |
| `Delivery.Hub.Cancel` | sampler.go:463-470 | cancelling removes and closes once; again it does nothing |
| `Delivery.Hub.Store` | sampler.go:371-375 | the first half of publishing: the snapshot is the lane's, to be broadcast later |
| `Delivery.Hub.Broadcast` | sampler.go:377-402 | the second half: every open subscriber is sent what the lane stored; no send hits a closed channel |
| `Delivery.AllTracked` | sampler.go:371-377 | at every moment of every run a stored snapshot is in the hands of one lane or was broadcast, once |
| `Delivery.Channel.NewestIsSentLast` | sampler.go:404-421 | what a receiver has or gets next is what was sent last |
| `Delivery.SentTwiceIff` | sampler.go:371-377 | over every run, a subscriber is sent a snapshot twice exactly if it came between the store and the broadcast of the one it found, and that broadcast has come |
| `Delivery.Hub.RepeatsIff` | sampler.go:452-462 | the same of the values a channel was sent, when stored snapshots differ |
| `Delivery.AtRestIff` | sampler.go:371-377 | once nothing is on its way, what a subscriber was sent last is the stored snapshot exactly if nothing was broadcast since it came or the last store was broadcast last |
| `Delivery.LastStoreLastIff` | sampler.go:371-377 | the last store was broadcast last exactly if no other snapshot was on its way when it was broadcast |
| `Delivery.SerialIsInOrder` | sampler.go:371-377 | while no lane stores between another's store and broadcast, broadcasts come in the order of the stores |
| `Delivery.Hub.NewestIsStoredIff` | sampler.go:371-377 | once nothing is on its way, the newest value of a channel is the stored snapshot exactly under that condition |
| `Delivery.Hub.NewestIsStoredIfSerial` | sampler.go:371-377 | and always while no lane stores between another's store and broadcast |
| `Delivery.SameSnapshotTwice` | sampler.go:371-377 | a run in which one subscriber is sent the same snapshot twice |
| `Delivery.OlderSnapshotLast` | sampler.go:371-377 | a run in which two lanes store in order and broadcast the other way round, and the newest value is the older |
| `Lanes.FromOnePass` | sampler.go:354-362 | every field comes from the last pass of the lane that owns it that set it, on Linux and on Windows |
| `Lanes.UntornIff` | collector_linux.go:366-387 | all the fields of a lane come from one pass exactly if the lane's last pass did not panic |
| `Lanes.Torn` | collector_linux.go:366-387 | a run that publishes the message of a panicked slow pass beside the CPU name of the pass before |
| `Lanes.LastIsLast` | sampler.go:354-362 | the pass named is the lane's last one, or its last that did not panic |
| `Lanes.Sampler.Patch` | sampler.go:349-362 | the working snapshot gains one pass; slow fields count as fresh exactly if the slow pass they come from is within the window |
| `Lanes.Sampler.Publish` | sampler.go:364-375 | what is published is the initial snapshot with some prefix of the passes; order is kept exactly when no copy still under way holds fewer passes |
| `Lanes.Sampler.Abandon` | sampler.go:366-369 | a copy that cannot be encoded is dropped; its readings stay in the working snapshot |
| `Lanes.Sampler.PublishedFromOnePass` | sampler.go:349-375 | in every snapshot ever published each field is from the last pass, among a prefix of the passes, of its lane that set it |
| `Lanes.Overtaken` | sampler.go:361-375 | a run in which a published snapshot goes back in passes and in time |
| `PeerIds.SlugIsClean` | peers.go:624-644 | every slug is non-empty, of lowercase letters, digits and single inner dashes, and at most 48 long |
| `PeerIds.SlugSpellsTheName` | peers.go:624-636 | before the cut a slug spells exactly the letters and digits of the name, in order |
| `PeerIds.SlugSpells` | peers.go:624-644 | a slug spells the letters and digits of the name itself, capitals made small by a table, all of them unless it had to be cut, and is `host` only where there are none |
| `PeerIds.PeerIDSlug` | peers.go:624-644 | the one-pass buffer loop computes the slug of the lowered name |
| `PeerIds.FreeId` | peers.go:615-620 | the suffix search ends with the first numbered form that is free |
| `PeerIds.NumberedForms` | peers.go:615-620 | the forms tried are base, base-2, base-3 and so on |
| `PeerIds.KeepIds` | peers.go:602-609 | the first pass keeps an id exactly if it is present, not reserved, not an earlier record's, and its record stands in the list once |
| `PeerIds.AssignPeerIDs` | peers.go:601-622 | kept ids stay; the other records, where they first stand, get the first form of their slug that no record had and none before has; any list, repeats included |
| `PeerIds.AssignedIds` | peers.go:601-622 | different records get different ids, non-empty, not `local`, and clean if the ids found were |
| `PeerIds.StableIff` | peers.go:598-622 | all ids found are left alone exactly if they are distinct and not reserved |
| `PeerIds.KeepsIff` | peers.go:602-609 | one record's id is left alone exactly if it is kept by the first pass |
| `PeerTurns.DisplayName` | peers.go:584-596 | the candidate's own name if explicit or from the tailnet, else the host name trimmed and lowered, else the address |
| `PeerTurns.PickCheckResult` | peers.go:465-477 | the first base in preference order that answered, else the preferred base's error |
| `PeerTurns.SeenMeans` | peers.go:516-521 | an instance was seen exactly if an earlier candidate answered with it and it is not this agent |
| `PeerTurns.TurnsMean` | peers.go:512-555 | a key is listed exactly if one of its candidates is not skipped and is configured, answered or known |
| `PeerTurns.DistinctTurnsIff` | peers.go:512-555 | the loop lists no key twice exactly if no two listed candidates share one |
| `PeerTurns.UpMeans` | peers.go:537-548 | a host ends online exactly if the last of its candidates that was not skipped answered |
| `PeerTurns.WhoIsListed` | peers.go:510-566 | a known host misses the list exactly if it was a candidate and all its candidates were skipped |
| `PeerRegistry.SortByName` | peers.go:567 | the same records by name, those of one name in the order they had |
| `PeerRegistry.Registry.constructor` | peers.go:210-235 | an empty registry satisfies the invariant |
| `PeerRegistry.Registry.Update` | peers.go:522-548 | one candidate's record: created unless it is a tailnet peer that never answered, brought up to date by an answer, only taken offline by a failure; no other record changes |
| `PeerRegistry.Registry.Find` | peers.go:522-531 | a record is created only for a configured peer or one that answered |
| `PeerRegistry.Registry.Gather` | peers.go:512-555 | the candidate loop lists exactly the specified turns, in their order, and forgets nothing |
| `PeerRegistry.Registry.AddOffline` | peers.go:556-566 | known tailnet hosts outside the scan are listed, offline |
| `PeerRegistry.Registry.List` | peers.go:510-569 | for any candidates: a known host is listed unless all its candidates were skipped, online exactly if the last of the others answered, configured hosts first and the others by name; and no record is listed twice exactly if no two listed candidates share a key |
| `PeerRegistry.Registry.Identify` | peers.go:570 | different listed hosts get different ids, assigned from those found |
| `PeerRegistry.Registry.Publish` | peers.go:571-575 | the lookup by id and the list are in bijection |
| `PeerRegistry.Registry.KeepIff` | peers.go:598-609 | every listed host keeps the id it had exactly if the ids found are distinct |
| `PeerRegistry.Registry.SettledAreDistinct` | peers.go:570 | on a list without repeats settled ids are distinct |
| `PeerRegistry.Registry.AllListedIsSettled` | peers.go:570-575 | when every known host is listed their ids are settled |
| `PeerRegistry.Registry.ApplyScan` | peers.go:505-582 | a whole scan, whatever the candidates, keeps the invariant, forgets no host, makes the list above, keeps every id exactly if the ids found are distinct, which settled ids on a list without repeats are, and settles all ids when no known host is skipped |
| `PeerRegistry.SharedNameChangesIds` | peers.go:512-570 | two scans in which two agents share a machine name: the record is listed twice and its id changes |
| `PeerRegistry.SkippedHostLosesItsId` | peers.go:516-521 | three scans: a host is skipped, a new one of the same slug gets its id, and when both are listed one of them loses it |
| `PeerScan.AtMostOneScan` | peers.go:291-305 | at every moment of every run at most one scan is under way |
| `PeerScan.ScansAreSpaced` | peers.go:259-305 | n scans after the first take more than n minimum intervals, however often hosts are listed or looked up |
| `PeerScan.StoredIsFresh` | peers.go:291-305 | a result that was stored is no older than its scan's start |
| `PeerScan.ScanGate.StartScanLocked` | peers.go:291-305 | joins the scan under way, or starts one |
| `PeerScan.ScanGate.Hosts` | peers.go:256-279 | a scan starts exactly when none is under way and the result is too old; first calls and refreshes wait, others never do |
| `PeerScan.ScanGate.Resolve` | peers.go:652-675 | an unknown id sets off a scan at most once an interval and waits for the one under way |
| `PeerScan.ScanGate.Apply` | peers.go:581 | the result's time is stored while the scan is still under way |
| `PeerScan.ScanGate.Release` | peers.go:297-302 | whoever waited finds a result from that scan |
| `UpdateSwap.Machine.ApplyVerifiedSwap` | update_swap.go:69-113 | at every moment, every partial copy included, the old binary is at its path or at the backup until the new one is live and was ready; the outcome is exactly what the failed operations, in order, make of it, and without any it is success, with the verified bytes running and nothing left over; each error says truthfully where the old bytes are and whether they were started; after the stop only a stuck stale backup ends with the old binary at its path and no start attempted; the staged file survives every error |
| `UpdateSwap.Machine.MoveAside` | update_swap.go:75-91 | stop, clear the stale backup, move the live binary; a stale backup that cannot be removed leaves the service stopped, and a binary that cannot be moved is started again |
| `UpdateSwap.Machine.Install` | update_swap.go:93-112 | copy, start, wait until ready, and roll back exactly if one of these failed |
| `UpdateSwap.Machine.Tidy` | update_swap.go:104-112 | after a success the backup and the staged file are gone unless removing them failed, which is no error |
| `UpdateSwap.Machine.Launch` | update_swap.go:93-103 | what was copied is at most a beginning of the new binary; success means all of it runs and was ready |
| `UpdateSwap.Machine.Rollback` | update_swap.go:120-134 | `rolled back` means the old bytes are live and the backup is gone; `rollback failed` means a stop, a removal or a rename failed and they are still at the backup |
| `UpdateSwap.Machine.CopyFileContents` | update_swap.go:136-158 | whatever happens only the destination changes, and success means it equals the source |
| `UpdateSwap.Machine.RemoveFile` | update_swap.go:81-83 | the live path is written only while the service is known to be stopped |
| `UpdateSwap.Machine.Rename` | update_swap.go:84-88 | a rename moves the bytes or changes nothing |
| `UpdateSwap.SwapAfterFailedRollback` | update_swap.go:79-88 | a second swap after a failed rollback deletes the only good copy, as the swap trusts the live binary |
| `SemVer.ParseSemver` | update.go:720-747 | the loop computes the parsing specification |
| `SemVer.TagRoundTrip` | update.go:720-747 | parsing the tag of a version gives the version back |
| `SemVer.FormIsRead` | update.go:720-747 | any tag of one to three numbers, with or without a v, a pre-release and build metadata, is read as that: missing numbers are zero, build metadata is ignored, a fourth number is refused |
| `SemVer.ComparePrerelease` | update.go:776-802 | the loop computes the list order by identifiers |
| `SemVer.CompareSemver` | update.go:749-770 | the early returns compute the order of versions |
| `SemVer.CmpIsAnOrder` | update.go:749-821 | the comparison is antisymmetric, total and transitive, also where one step is strict, for pre-release lists of any length |
| `SemVer.NewerIsAStrictOrder` | update.go:823-847 | on arbitrary strings `newer` is irreflexive, asymmetric and transitive |
| `SemVer.CmpIsSection11` | update.go:749-802 | plain versions are ordered as section 11 says: by the first difference of the numbers, a pre-release below its release, then by its identifiers |
| `SemVer.NewerIsSection11` | update.go:823-847 | a tag is newer than another exactly if section 11 puts its version above the other's |
| `SemVer.IsVersionNewer` | update.go:832-847 | the method computes that relation |
| `SemVer.ClassifiedIffPlain` | update.go:804-810 | an identifier is read as section 11 reads it exactly if it is plain: no number beyond an int, no dash followed by zeros |
| `SemVer.AgreesWhenPlain` | update.go:772-802 | on plain identifiers of any list length the order is that of section 11 |
| `SemVer.AgreesIffPlain` | update.go:772-810 | a pre-release is compared as section 11 says with every plain one exactly when it is plain itself |
| `SemVer.DashZeroIsNotOrdered` | update.go:804-810 | 1.0.0-0 and 1.0.0--0 compare as equal, where section 11 orders them |
| `SemVer.ValueInjective` | update.go:804-810 | numbers without leading zeros are equal only if their digits are |
| `UpdateGate.UpdateChecker.Begin` | update.go:354-369 | an update is claimed exactly if updates are on, the build is known, the host supports it and none is under way |
| `UpdateGate.UpdateChecker.Finish` | update.go:370-440 | accepted exactly if newer, complete, downloaded, of the published checksum in either case, staged and launched; otherwise the slot is free again |
| `UpdateGate.UpdateChecker.OneHelper` | update.go:124-130 | in the life of an agent at most one helper is launched, and then the slot stays taken |
| `AgentCost.AgentSubtree` | agent_cost.go:141-171 | exactly the processes reachable from the agent by parent links, one row per PID, the agent first, also with cycles and repeated PIDs |
| `AgentCost.SubtreeByRow` | agent_cost.go:141-171 | with distinct PIDs, exactly the reachable rows |
| `AgentCost.ClosedHoldsAll` | agent_cost.go:156-169 | a set closed under children that holds the agent holds every descendant |
| `AgentCost.FullTreeCovers` | agent_cost.go:158 | stopping as soon as the tree has as many rows as the pass misses nothing |
| `AgentCost.ChargesTelescope` | agent_cost.go:90-100 | over any calls, what was charged and what was missed make up the counter's rise plus its falls; without falls the charges stay within the rise |
| `AgentCost.ChargedTwiceIff` | agent_cost.go:90-130 | when every pass can charge, some nanosecond is charged twice exactly if there are readings a, b, c, d, in lock order, with both a and c below both b and d |
| `AgentCost.TwiceMeansRisesAgain` | agent_cost.go:90-130 | whatever the passes, a nanosecond charged twice was risen across at both charges, with a lower reading between them |
| `AgentCost.NoNanosecondTwice` | agent_cost.go:127-130 | while readings do not fall, no nanosecond is part of two charges, whichever passes could charge |
| `AgentCost.SwappedReadsChargeTwice` | agent_cost.go:90-100 | a run with swapped readings that charges a nanosecond twice |
| `AgentCost.ShareIsTime` | agent_cost.go:127-130 | the percentage added stands for exactly the charged CPU time |
| `AgentCost.AgentCostTracker.Measure` | agent_cost.go:90-138 | the cost is the subtree's total plus the share of the counter's rise since the last call, capped at the whole host, with the subtree's members |
| `Rows.SumProcessField` | processes.go:92-110 | the total of what was reported, and unknown exactly if nothing was |
| `Rows.TotalAddsUp` | processes.go:92-110 | that total is the sum of the reported values, each row once |
| `Text.LessIsByFirstDifference` | process_tree.go:170-175 | strings are ordered by the first difference, a proper prefix first |
| `Text.LowerByTable` | processes.go:130-131 | lower-casing makes capitals small and leaves everything else |
| `Text.TrimMeans` | processes.go:130-131 | trimming takes spaces from both ends and leaves none there |
| `ProcessTree.AnnotateProcessTree` | process_tree.go:90-120 | in place, every row gets the parent, child count, parent name and launcher that the specification says |
| `ProcessTree.ClearParents` | process_tree.go:95-102 | parents that are the row itself or not in the pass are cleared, nothing else changes |
| `ProcessTree.ClearingCloses` | process_tree.go:95-102 | after clearing, every parent names another row that is present |
| `ProcessTree.ClearingKeeps` | process_tree.go:95-102 | a parent that is another row of the pass is kept |
| `ProcessTree.CountChildren` | process_tree.go:106-114 | child counts and parent names are those of the links |
| `ProcessTree.KidsAddUp` | process_tree.go:106-114 | child counts add up to the number of rows with a parent |
| `ProcessTree.KidsAreByPid` | process_tree.go:106-114 | with distinct PIDs a row's children are the rows whose parent PID is its PID, and they have its name as parent name |
| `ProcessTree.LauncherIndex` | process_tree.go:122-148 | the walk with its chain and seen map computes the launcher |
| `ProcessTree.SetLaunchers` | process_tree.go:115-119 | every row gets its launcher's name and PID while rows are being rewritten |
| `ProcessTree.WalkIsLine` | process_tree.go:125-140 | on an ancestry shorter than the bound the walk visits all of it |
| `ProcessTree.LauncherIsTopProgram` | process_tree.go:122-148 | the launcher is the root-most non-boundary process among the row and its ancestors, or the row itself |
| `ProcessTree.TopMeans` | process_tree.go:142-147 | root-most: a program with none above it |
| `ProcessTree.LauncherIsOutermost` | process_tree.go:122-148 | a launcher is not in the boundary table and every ancestor above it is, unless the row and all its ancestors are, when it is the row itself |
| `ProcessTree.LauncherIsItsOwn` | process_tree.go:122-148 | a launcher is its own launcher |
| `ProcessTree.LauncherIsInherited` | process_tree.go:122-148 | a row has its parent's launcher when that is a program, and is its own otherwise |
| `Apps.AggregateByApp` | processes.go:46-90 | one row per key in order of appearance, each with the size, the totals and the members of exactly its group, named after it |
| `Apps.GroupsPartition` | processes.go:46-90 | group sizes add up to the rows, and unclamped totals to the pass total, for every field |
| `Apps.GroupMeans` | processes.go:58-72 | a row is in a group exactly if it has the group's key |
| `Apps.OneAppPerRow` | processes.go:58-72 | a row is in exactly one app, that of its launcher whatever its own name, and without a launcher that of its name |
| `Apps.OrderIsByAppearance` | processes.go:64-66 | keys that appear first in earlier rows come earlier |
| `Apps.SharesAreCapped` | processes.go:78-84 | an app's CPU share is its group's total, but never more than the whole, and known exactly if some process reported |
| `Apps.DisplayIsAStem` | processes.go:67-70 | an app is shown under the first stem of its group that is not empty |
| `Apps.NameTellsKey` | processes.go:58-77 | the shown name of an app, lowered, is its key without the spaces around it |
| `Apps.NamesApartIff` | processes.go:58-77 | names differ, and not only in letter case, exactly if no two keys of the pass differ only by spaces around them |
| `Apps.TwoNamesCollide` | processes.go:68-77 | otherwise two keys can show one name: `a.exe` and `a .exe` |
| `AppsView.ShowApps` | processes.go:46-90 | grouping and selecting together: every column has its leaders among the picked apps if names differ, which they do when no two keys differ only by spaces, the CPU column always, and all such apps are shown when at most 30 |
| `AppsView.AnAppIsHidden` | processes.go:188-223 | among any other idle processes, the app that leads by memory is not shown because a busier one has its name |
| `Members.AppMembers` | process_tree.go:152-180 | the loop over counts and first names, a map ranged over in any order, the sort and the cut compute the summary |
| `Members.OneSummary` | process_tree.go:163-179 | the order in which the map is ranged over does not show |
| `Members.MostNumerousFirst` | process_tree.go:168-179 | most numerous first, those of one count by name; what is not shown is at most as numerous as everything that is |
| `Members.FirstNameMeans` | process_tree.go:153-161 | an executable is shown under the name its first row has |
| `Members.SummaryAddsUpIff` | process_tree.go:152-180 | the counts shown add up to the rows exactly if there are at most six executables |
| `TopN.SelectTop` | processes.go:147-223 | the picked rows hold the true top n by CPU, and by every column when ids tell rows apart, and are then min(rows, columns times n); the result holds the top n by CPU and all picked rows exactly if they are at most 30 |
| `TopN.Consider` | processes.go:160-174 | one column's walk picks n new rows, or all there are, and its true top n: always for the first column, for later ones when ids tell rows apart |
| `TopN.ColumnsAre` | processes.go:174-179 | the five columns: CPU, memory, GPU memory, GPU and both disk rates together |
| `TopN.LeadersStay` | processes.go:175-179 | later columns lose no earlier column's leaders |
| `TopN.CutKeepsLeaders` | processes.go:180-185 | the cut keeps the leaders by CPU |
| `TopN.AllKeptIfFew` | processes.go:184 | every picked row survives exactly if at most 30 were picked |
| `TopN.PickedCount` | processes.go:160-179 | with distinct ids exactly min(rows, columns times n) rows are picked |
| `TopN.LeaderIsLost` | processes.go:256-267 | once more than fit are picked, the leader of another column is lost if it is lowest by CPU |
| `TopN.MemoryLeaderIsLost` | processes.go:147-186 | for every size of pass above 30 (and 5n above 30) a pass whose leader by memory is not in the result |
| `TopN.Trim` | processes.go:256-267 | what is dropped is never above what is kept |
| `TopN.SelectTopProcesses` | processes.go:147-186 | for processes with distinct PIDs: min(rows, 5n) are picked, and with 5n above 30 all of them are shown exactly if the pass has at most 30 processes, so that each of the five columns has its leaders |
| `TopN.SelectTopApps` | processes.go:188-223 | the same for apps, where names tell them apart |
| `SingleFlight.AtMostOneCollection` | collector.go:85-121 | in every run at most one inner collection is under way at any moment |
| `SingleFlight.FollowerGetsTheJoinedResult` | collector.go:86-97 | a follower gets exactly the result of the collection that was running when it joined |
| `SingleFlight.NeverStuck` | collector.go:103-117 | after any end everyone waiting can leave and the next request can start |
| `SingleFlight.RecordedBetween` | collector.go:109-116 | a result that is there later was recorded in between, and is never overwritten |
| `SingleFlight.Collector.Enter` | collector.go:85-101 | join the collection under way, or lead a new one |
| `SingleFlight.Collector.Finish` | collector.go:103-117 | the leader's deferred function publishes the outcome and frees the collector |
| `SingleFlight.Collector.Collect` | collector.go:85-121 | a whole request among any steps of others: whether the inner collector returns, fails or panics, a leader's collection has ended and the collector is free before it returns; a follower returns what it joined, or nothing when cancelled |
| `SingleFlight.Collector.Leave` | collector.go:88-97 | a follower leaves with the joined collection's outcome, or with nothing only when cancelled |
| `BoundedReads.AtMostOneOutstanding` | bounded_reads.go:31-58 | in every run at most one read of a key is outstanding |
| `BoundedReads.LastIsMostRecent` | bounded_reads.go:44-53 | `last` is the most recently finished read of the key, and absent exactly if none has finished |
| `BoundedReads.AnswersAreOwnOrLast` | bounded_reads.go:60-82 | every answer is the caller's own read's result or what the key's most recently finished read produced |
| `BoundedReads.NothingMeansNone` | bounded_reads.go:75-81 | `not ok` is reported only if no read of the key had finished |
| `BoundedReads.ResultsAreKept` | bounded_reads.go:44-56 | a result is what its read finished with |
| `BoundedReads.Reads.Start` | bounded_reads.go:31-58 | returns the key's outstanding read, or starts one |
| `BoundedReads.Reads.Return` | bounded_reads.go:44-55 | what the read came to is set before anybody can see it |
| `BoundedReads.Reads.Finish` | bounded_reads.go:49-52 | under the lock the read stops being pending and becomes the last one |
| `BoundedReads.Reads.Result` | bounded_reads.go:60-82 | a closed read's own outcome, else the last one's, else nothing |
| `TokenUsage.ScanClaude` | token_usage.go:96-168 | each day's total is the exact total, or the largest int64 if that is more |
| `TokenUsage.ScanTranscript` | token_usage.go:121-166 | the loop over one transcript keeps the totals and the keys seen |
| `TokenUsage.RepeatsAddNothing` | token_usage.go:144-152 | repeating responses that were read adds nothing to any day |
| `TokenUsage.DayTotalIsSum` | token_usage.go:121-166 | a day's total is the sum of all counts over the first line of each response of the week, lines being of one response by request id, else message id, else their own id |
| `TokenUsage.FourCounts` | token_usage.go:155-160 | the four counts of a line are added up, negative ones as zero |
| `TokenUsage.KeysMeans` | token_usage.go:138-152 | a key counts as seen exactly if an earlier response in range has it |
| `TokenUsage.SumNonNegativeTokens` | token_usage.go:318-326 | the sum of the positive values, saturating |
| `TokenUsage.SaturatingTokenAdd` | token_usage.go:328-333 | addition that sticks at the largest int64 |
| `TokenUsage.ScanCodex` | token_usage.go:204-260 | each day's total is the exact sum of that day's deltas over all files, saturating |
| `TokenUsage.ScanSession` | token_usage.go:221-261 | the loop over one file with its running counter |
| `TokenUsage.DeltasAreRunEnds` | token_usage.go:246-251 | the deltas of a counter add up to the last values of its maximal non-decreasing runs |
| `TokenUsage.DaysHoldTheRuns` | token_usage.go:222-260 | when all lines are in range, the days together hold exactly those values |

## Left out

- HTTP routes, the relay to other agents, event-stream framing, TLS and origin checks.
- Parsers of external output and the choice of fields they fill: the loops are given decoded
  rows, lines and readings.
- CameraJournal: `cameraState`, which only counts cameras for display, and the fields of the
  control result other than success.
- Sampling loops, their intervals, demand tracking and parking (sampler.go:220-339), and the
  fallback for collectors without lanes (sampler.go:380-394).
- Lanes: the derived fields that `finishMetrics` adds, and the fact that history is told of a
  copy between its two critical sections; `History` takes the samples in whatever order they
  come.
- PeerRegistry.Registry.Update: the source, address, error, version and check time of an entry,
  which are copied from the candidate, the answer and the clock.
- PeerRegistry: the tailnet status shown with the list.
- PeerTurns.DisplayName: cutting an address to the first label of its host; the address is given
  so cut.
- SemVer, PeerIds, Apps, ProcessTree: lower-casing and trimming cover ASCII letters and the spaces of
  Latin-1, not all of Unicode.
- ProcessTree: the table of boundary names is a parameter.
- TopN.SortBy: the order among rows with equal CPU, which the source leaves to map iteration.
- TopN.SelectTop: where rows share an id, only the CPU column is claimed to keep its leaders.
- Rows.SumProcessField: rounding and overflow of floating-point sums, which
  are exact reals here.
- UpdateSwap: durability below an atomic rename, the reboot-time removal of the backup, and a
  service manager that restarts the service by itself.
- UpdateGate: SHA-256, the download and the enabled setter.
- SingleFlight.Collector.Collect: an inner collector that ends its goroutine without returning or
  panicking, and one that never ends.
- `cachedMetricsCollector` (collector.go:32-54), a time-to-live check.
- TokenUsage: finding and decoding the transcripts, the calendar (days are numbered), the
  newest-event time and the quota rows.
- Fairness of scheduling and real timers: a step may always be delayed, and a wait may always
  end by its deadline.
