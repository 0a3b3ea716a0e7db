# Verification model of the dispatcher's virtual machine core

The dispatcher of Virtuozzo keeps its picture of virtual machines in step with libvirt. This
project models the parts of it that carry the logic and proves what they guarantee over every
input, every order of events and every run:

- **Block jobs** (`BlockJobs`, `BlockJobOutcomes`, `BlockActivity`). A counter collects the
  asynchronous job events of several disks, completes once, and then says which jobs to finish
  and which to abort. Copy and rebase are all or nothing; merge is per disk.
- **Reactions** (`Reactions`). The queue of one machine's reactions: the head stays queued while
  it runs, so a non-empty queue doubles as "a runner is alive".
- **Registry** (`Registry`, `RegistryRuns`) and **start-up reconciliation** (`Breeding`). The maps
  of defined, undeclared and booked machines, and the routine that makes them match libvirt.
- **Backup disks** (`BackupDevice`, `BackupReplay`). The difference of two configurations as a
  script of events, and what carrying the script out does.
- **Command batches** (`CommandBatch`). Redo steps with an undo stack.
- **Event callbacks** (`CallbackHub`, `CallbackRuns`, `CallbackNotices`). Two-phase removal of the
  sockets and timeouts libvirt registers, and who can notify until then.
- **Crash window**, **USB transfer** and **bridge number** (`CrashWindow`, `UsbTransfer`,
  `BridgeNumber`). Three algorithms of the libvirt layer.

What the source updates in place is a class here, its methods proved against functions on values;
the guarantees are lemmas about those functions and about runs of them. A lock-protected or
queued protocol is a state machine whose steps are what happens under one hold of the lock or in
one turn of the event loop. `Results` holds the SDK's result codes: a negative code is a failure.

Seven properties one might expect turn out not to hold of the code without a condition; each is
stated with the condition:

- A reset does not always complete a merge. It does unless something is pending while the journal
  has as many names as the request has components (`MergeResetCompletes`); that needs the success of
  a disk nobody asked for (`MergeKnownNamesComplete`), and `MergeResetStuck` is such a run.
- One failure of a copy or rebase ends the request at once exactly if the targets and the names
  that succeeded before are as many as the components (`FailureStrikes`); distinct targets and no
  success of a disk nobody asked for are enough (`FailureCompletes`).
- Copy and rebase are all or nothing only while the activity is watched: the launcher ignores a
  tracker that could not register, and stopping then commits and aborts nothing
  (`WatchedActivity`, `UnwatchedActivity`).
- A bridge candidate is new before the counter wraps exactly when no bridge is called
  `br4294967295` (`CandidatesAreNew`).
- A registry reset, which drops its lock between items, may book a uuid that was defined meanwhile
  (`DefineDuringReset`). The three maps stay disjoint all along a run of split resets and other
  operations exactly when no reset books such a uuid (`SplitBooking`).
- A listed machine survives the reconciliation exactly if it is not undeclared and its booking or
  the directory, as they are before, let it be defined (`SurvivesExactly`). An undeclared one is
  dropped even when libvirt and the directory both list it.
- The crash window decides as the full history does for a constant limit. With limits that change
  from crash to crash it does so all along exactly if, at every crash, no more times are stored
  than the limit, or the second stored one is less than a day old, or no switch is due
  (`ChangedLimits`); so a limit that is only ever raised is safe (`RaisedLimits`), and
  `ShrunkLimitMisses` is a run in which a lowered one misses a switch.

## Model

| member | source | states |
|---|---|---|
| BlockJobs.Completion.Occur | Dispatcher/Dispatcher/CDspLibvirt.h:336-340 | each call of the one-shot completion is counted |
| BlockJobs.Meter.constructor | Dispatcher/Dispatcher/CDspLibvirt.h:352-363 | every target is pending, and an empty list completes at once |
| BlockJobs.Meter.SetStatus | Dispatcher/Dispatcher/CDspLibvirt_p.h:1137-1155 | a failure turns exactly the pending and successful components failed, whatever the order or repetition in the list; a success never overwrites; a merge notes successes only |
| BlockJobs.Meter.AccountOne | Dispatcher/Dispatcher/CDspLibvirtAgent.cpp:2595-2602 | only a pending name has an effect, and emptying the pending set completes |
| BlockJobs.Meter.Account | Dispatcher/Dispatcher/CDspLibvirtAgent.cpp:2268-2282 | one report journals and strikes the same names in every order of the journal's keys |
| BlockJobs.Meter.ResetPending | Dispatcher/Dispatcher/CDspLibvirtAgent.cpp:2604-2614 | cancelling a copy of the pending set while it shrinks has one result, whatever the order |
| BlockJobs.Meter.Read | Dispatcher/Dispatcher/CDspLibvirtAgent.cpp:2245-2266 | the code and the batch are those of the journal, component by component |
| BlockJobOutcomes.CompletionOnce | Dispatcher/Dispatcher/CDspLibvirtAgent.cpp:2595-2614 | in every run of all three strategies the completion occurs at most once, exactly when the pending set is first empty, and the pending set only shrinks |
| BlockJobOutcomes.AtomicJournal | Dispatcher/Dispatcher/CDspLibvirt_p.h:1137-1155 | in every run either no component is failed or every component is journaled with the first failure seen |
| BlockJobOutcomes.FirstFailureSticks | Dispatcher/Dispatcher/CDspLibvirt_p.h:1146-1154 | the first failure never changes afterwards |
| BlockJobOutcomes.AwaitingSuccess | Dispatcher/Dispatcher/CDspLibvirtAgent.cpp:2268-2282 | before anything fails, exactly the targets without an accounted success are pending |
| BlockJobOutcomes.FailureStrikes | Dispatcher/Dispatcher/CDspLibvirtAgent.cpp:2268-2282 | in every run a failed report leaves nothing pending iff the targets and the names that succeeded are as many as the components; otherwise it strikes the one name |
| BlockJobOutcomes.FailureCompletes | Dispatcher/Dispatcher/CDspLibvirtAgent.cpp:2268-2282 | with distinct targets and no stray success, one failure completes an atomic counter at once |
| BlockJobOutcomes.AllOrNothing | Dispatcher/Dispatcher/CDspLibvirtAgent.cpp:2246-2282 | once completed, reading a copy or rebase gives commits for all with success or aborts for all with the first failure |
| BlockJobOutcomes.StopIsAllOrNothing | Dispatcher/Dispatcher/CDspLibvirtAgent.cpp:2604-2614 | after every run a reset completes an atomic counter and makes its outcome all or nothing, a cancellation if jobs were pending |
| BlockJobOutcomes.RefusedLaunchAborts | Dispatcher/Dispatcher/CDspLibvirt_p.h:1165-1176 | a refused launch ends in aborts for everything however its reports interleave with job events |
| BlockJobOutcomes.MergePerDisk | Dispatcher/Dispatcher/CDspLibvirtAgent.cpp:2306-2334 | exactly the components with an accounted success are finished, each before its own sweep, and the code is success iff there is one |
| BlockJobOutcomes.MergeIgnoresFailures | Dispatcher/Dispatcher/CDspLibvirtAgent.cpp:2329-2334 | whatever the journal holds, a merge does nothing about a disk that failed |
| BlockJobOutcomes.MergeResetCompletes | Dispatcher/Dispatcher/CDspLibvirtAgent.cpp:2604-2614 | a reset of a merge leaves nothing pending, except that it changes nothing if the journal has as many names as the request has components |
| BlockJobOutcomes.MergeFailureNoticed | Dispatcher/Dispatcher/CDspLibvirtAgent.cpp:2268-2282 | in every run a report to a merge strikes its own disk and no other; a failure is overlooked exactly under the same guard, a success never |
| BlockJobOutcomes.MergeResetStuck | Dispatcher/Dispatcher/CDspLibvirtAgent.cpp:2271-2281 | two disks and the success of a third one: the reset leaves a disk pending and nothing completes |
| BlockJobOutcomes.MergeKnownNamesComplete | Dispatcher/Dispatcher/CDspLibvirtAgent.cpp:2604-2614 | if only requested disks succeed, a reset completes the merge |
| BlockActivity.Tracker.Start | Dispatcher/Dispatcher/CDspLibvirtAgent.cpp:2638-2669 | it succeeds exactly when idle with a counter, a domain and both registrations; a failure leaves no registration behind, and the counter is reset exactly if only the first one was made |
| BlockActivity.Tracker.Release | Dispatcher/Dispatcher/CDspLibvirtAgent.cpp:2677-2681 | both tickets are given back, which resets the counter once |
| BlockActivity.Tracker.Stop | Dispatcher/Dispatcher/CDspLibvirtAgent.cpp:2671-2688 | both registrations go, and the product is that of the counter after a reset |
| BlockActivity.StartActivity | Dispatcher/Dispatcher/CDspLibvirtAgent.cpp:2765-2780 | jobs are launched whether or not the tracker could register; the activity is watched iff both registrations were made, and its counter is already reset iff only the first was |
| BlockActivity.UnwatchedActivity | Dispatcher/Dispatcher/CDspLibvirtAgent.cpp:2661-2780 | without both registrations the jobs are launched and stopping performs nothing; the completion has occurred all the same iff there is nothing to do or one registration was made |
| BlockActivity.Launch | Dispatcher/Dispatcher/CDspLibvirtAgent.cpp:2765-2781 | the first refused atomic launch ends the loop and is reported for every component; a merge launches all and reports each refusal for its own disk |
| BlockActivity.StopActivity | Dispatcher/Dispatcher/CDspLibvirtAgent.cpp:2713-2725 | the outcome after a reset is performed and returned, or nothing is performed |
| BlockActivity.WatchedActivity | Dispatcher/Dispatcher/CDspLibvirtAgent.cpp:2713-2725 | stopping a watched copy or rebase after any run commits every disk or aborts every disk |
| Reactions.Demonstrator.Show | Dispatcher/Dispatcher/CDspLibvirt.cpp:1768-1779 | the reaction goes to the end, and a runner starts only if the queue was empty |
| Reactions.Demonstrator.PeekHead | Dispatcher/Dispatcher/CDspLibvirt.cpp:1745-1749 | one hold of the mutex: a runner takes the head to execute but leaves it queued, and ends on an empty queue; it is the Peek step of the interleaved runs |
| Reactions.Demonstrator.DequeueHead | Dispatcher/Dispatcher/CDspLibvirt.cpp:1751-1754 | the next hold: only the head that was executed leaves, and the runner goes on exactly if reactions remain, so a runner is alive iff the queue is non-empty |
| Reactions.Demonstrator.RunShell | Dispatcher/Dispatcher/CDspLibvirt.cpp:1738-1756 | the runner ends with the queue empty and everything shown finished in order, also what reactions show themselves |
| Reactions.OneRunner | Dispatcher/Dispatcher/CDspLibvirt.cpp:1738-1779 | in every interleaving a runner is alive iff something is queued, there is never a second one, none finds the queue empty, and finished plus queued is what was shown, in order |
| Reactions.EarlierFinished | Dispatcher/Dispatcher/CDspLibvirt.cpp:1746-1754 | what executes comes right after everything shown before it has finished |
| Reactions.FinishesInTurn | Dispatcher/Dispatcher/CDspLibvirt.cpp:1738-1779 | a reaction shown at any moment of a run finishes after everything shown before it and before everything shown later |
| Reactions.Drains | Dispatcher/Dispatcher/CDspLibvirt.cpp:1742-1755 | runners take at most two steps for each show, and exactly then everything shown has finished |
| Reactions.NeverStuck | Dispatcher/Dispatcher/CDspLibvirt.cpp:1738-1779 | while something is queued a runner can take a step, so a finite number of shows drains |
| Reactions.Demonstrator.SetState | Dispatcher/Dispatcher/CDspLibvirt.cpp:1798-1819 | a new state is stored and shown as itself, RESTORING as the preparation of a switch; a repeated one changes nothing |
| Reactions.Demonstrator.ChangeAndShow | Dispatcher/Dispatcher/CDspLibvirt.cpp:1826-1835 | the state is swapped in and the reaction shown only on a change |
| Reactions.AnnouncedNext | Dispatcher/Dispatcher/CDspLibvirt.cpp:1798-1835 | a requested state is a change iff it differs from the one before it, the first one iff it differs from the stored state |
| Reactions.StatesDelivered | Dispatcher/Dispatcher/CDspLibvirt.cpp:1738-1835 | in every interleaving the states told to clients so far are a prefix of the requested states without repetitions, and all of them when the entry is idle |
| Registry.Actual.Find | Dispatcher/Dispatcher/CDspRegistry.cpp:606-615 | only defined machines are found |
| Registry.Actual.Declare | Dispatcher/Dispatcher/CDspRegistry.cpp:617-636 | ALREADY_REGISTERED iff defined, DOUBLE_INIT iff booked, else SUCCESS, which brings an undeclared machine back and books any other uuid with its place; the invariant kept |
| Registry.Actual.Undeclare | Dispatcher/Dispatcher/CDspRegistry.cpp:638-654 | SUCCESS iff defined, which moves the machine, or booked, which drops the booking; otherwise FILE_NOT_FOUND and no change |
| Registry.Actual.Create | Dispatcher/Dispatcher/CDspRegistry.cpp:448-465 | a new machine exists iff some user keeps the directory |
| Registry.Actual.Define | Dispatcher/Dispatcher/CDspRegistry.cpp:660-682 | the booking is consumed, a kept machine is stored again, a declared one gets its directory and home, any other the default directory; the code is decided by the maps and the users' directories |
| Registry.Actual.Undefine | Dispatcher/Dispatcher/CDspRegistry.cpp:684-701 | the uuid leaves the defined map, or else the undeclared one, and only in the first case the directory |
| Registry.Actual.Reset | Dispatcher/Dispatcher/CDspRegistry.cpp:703-730 | every formerly defined machine ends at the home the directory names last, and the maps are those of the whole item list |
| Registry.Actual.Snapshot | Dispatcher/Dispatcher/CDspRegistry.cpp:732-736 | defined and undeclared uuids, each once |
| RegistryRuns.AlwaysDisjoint | Dispatcher/Dispatcher/CDspRegistry.cpp:617-736 | in every run of whole operations the three maps stay pairwise disjoint and store no null machine |
| RegistryRuns.SplitResetApart | Dispatcher/Dispatcher/CDspRegistry.cpp:703-730 | defined and undeclared stay disjoint even if resets are split and interleaved with anything |
| RegistryRuns.SplitIsReset | Dispatcher/Dispatcher/CDspRegistry.cpp:703-730 | the split steps of one undisturbed reset are the whole reset |
| RegistryRuns.SplitBooking | Dispatcher/Dispatcher/CDspRegistry.cpp:703-730 | in runs that split resets and interleave them with anything, the three maps stay disjoint at every step iff no step books a uuid that is defined or undeclared by then |
| RegistryRuns.DefineDuringReset | Dispatcher/Dispatcher/CDspRegistry.cpp:705-728 | a definition in the middle of a reset leaves a uuid both defined and booked, with two machines |
| RegistryRuns.ResetMeaning | Dispatcher/Dispatcher/CDspRegistry.cpp:703-730 | what a reset makes of any uuid, in terms of the directory and the maps before; a new booking is what its first item declares |
| RegistryRuns.UndeclareDeclare | Dispatcher/Dispatcher/CDspRegistry.cpp:617-654 | withdrawing and declaring again gives the same machine and state back, iff it was defined |
| RegistryRuns.DeclareDefine | Dispatcher/Dispatcher/CDspRegistry.cpp:617-682 | an unknown uuid declared and then defined is a new machine at the place declared iff a user keeps its directory, and the declaration is used up |
| RegistryRuns.ResetDefine | Dispatcher/Dispatcher/CDspRegistry.cpp:660-730 | a defined machine the directory lists comes back as the same object at the directory's home |
| Breeding.System.Add | Dispatcher/Dispatcher/CDspLibvirt.cpp:1857-1868 | a fresh entry exists iff the uuid is new, not empty and definable; otherwise the domain map is unchanged |
| Breeding.System.Remove | Dispatcher/Dispatcher/CDspLibvirt.cpp:1844-1855 | the entry leaves the domain map and is shown the change to UNKNOWN, if it is one, and then its removal from the registry; its queue and runner are those of these shows |
| Breeding.Expel | Dispatcher/Dispatcher/CDspLibvirt.cpp:477-482 | exactly the defined machines of another server are taken out of what libvirt lists; undeclared ones have no configuration to look at |
| Breeding.UndefineInTurn | Dispatcher/Dispatcher/CDspLibvirt.cpp:1844-1855 | whatever happens to the entry before and after its removal, it leaves the registry only when everything shown before has finished, in order, and before anything shown later |
| Breeding.AddListed | Dispatcher/Dispatcher/CDspLibvirt.cpp:484-490 | exactly the definable uuids are added, and exactly they leave the list of the rest |
| Breeding.DropRest | Dispatcher/Dispatcher/CDspLibvirt.cpp:491-503 | every uuid of the rest is in none of the maps afterwards and nothing else changes; exactly those defined or definable lose their directory item |
| Breeding.Reconcile | Dispatcher/Dispatcher/CDspLibvirt.cpp:459-513 | defined uuids, domain-map uuids and the valid listed uuids that can be restored are the same; every other known uuid is in none of the maps; kept machines are the same objects; exactly the machines not kept that the directory lists, or that were defined while the default directory has a user, lose their directory item |
| Breeding.SurvivesExactly | Dispatcher/Dispatcher/CDspLibvirt.cpp:484-490 | a uuid survives iff libvirt lists it, it is not undeclared, and its booking, its listed machine, its first directory item or the default directory, as they are before the reset, let it be defined |
| Breeding.UndeclaredNeverSurvives | Dispatcher/Dispatcher/CDspLibvirt.cpp:476-503 | an undeclared machine is never added |
| BackupDevice.Partition | Dispatcher/Dispatcher/CDspBackupDevice.cpp:112-118 | in place, a permutation with everything in range first |
| BackupDevice.Difference.constructor | Dispatcher/Dispatcher/CDspBackupDevice.cpp:112-118 | both lists are partitioned by the other's indices and keep their disks |
| BackupDevice.Check | Dispatcher/Dispatcher/CDspBackupDevice.cpp:232-262 | the code is that of a changed URL of a common disk, else of two new disks sharing a path |
| BackupDevice.Difference.GetNovel | Dispatcher/Dispatcher/CDspBackupDevice.cpp:120-130 | the tail after the partition is exactly the new disks without an old partner |
| BackupDevice.Difference.GetRemoved | Dispatcher/Dispatcher/CDspBackupDevice.cpp:132-142 | the tail after the partition is exactly the old disks without a new partner |
| BackupDevice.Difference.GetUpdated | Dispatcher/Dispatcher/CDspBackupDevice.cpp:144-167 | an event for exactly the common disks whose enabled state differs |
| BackupDevice.Difference.FindPartner | Dispatcher/Dispatcher/CDspBackupDevice.cpp:153-155 | the search for a common disk's partner never hits the end |
| BackupDevice.RunBatch | Dispatcher/Dispatcher/CDspBackupDevice.cpp:98-107 | a prefix is carried out up to the first failed visit, whose code is returned |
| BackupReplay.AllMembers | Dispatcher/Dispatcher/CDspBackupDevice.cpp:692-719 | the disks compared are exactly those with a backup URL, no index twice if it was not |
| BackupReplay.EmittedOnce | Dispatcher/Dispatcher/CDspBackupDevice.cpp:120-142 | set-ups and removals are emitted for exactly the disks whose index is absent from the other list, each once |
| BackupReplay.UpdatedOnce | Dispatcher/Dispatcher/CDspBackupDevice.cpp:612-622 | for a common disk the new one is enabled once, disabled once, or neither, by whether it was and is enabled |
| BackupReplay.ScriptExactly | Dispatcher/Dispatcher/CDspBackupDevice.cpp:583-622 | whatever order the partitions leave, the script holds exactly the set-ups, enablings, disablings and removals the two configurations call for, each once |
| BackupReplay.InPhases | Dispatcher/Dispatcher/CDspBackupDevice.cpp:188-208 | new disks are served first, then those that stay, and removals come last |
| BackupReplay.Validated | Dispatcher/Dispatcher/CDspBackupDevice.cpp:232-262 | a partner with another URL path is reported first, then two new disks of different index sharing a non-empty path; otherwise success |
| BackupReplay.ScriptMeaning | Dispatcher/Dispatcher/CDspBackupDevice.cpp:583-622 | replaying the script takes {old index -> enabled} to exactly {new index -> enabled} |
| BackupReplay.Transition.Replace | Dispatcher/Dispatcher/CDspBackupDevice.cpp:188-198 | a prefix of the replacing script is carried out, all of it iff it succeeds; nothing if validation fails |
| BackupReplay.Transition.Remove | Dispatcher/Dispatcher/CDspBackupDevice.cpp:200-208 | the same for the removing script |
| BackupReplay.SetDifference | Dispatcher/Dispatcher/CDspBackupDevice.cpp:778-792 | success takes the old configuration's attached disks to the new one's; a failed visit leaves a prefix; a failed validation changes nothing |
| CommandBatch.Batch.AddBatch | Dispatcher/Dispatcher/CDspInstrument.cpp:42-45 | the other batch's items are appended |
| CommandBatch.Batch.AddItem | Dispatcher/Dispatcher/CDspInstrument.cpp:47-50 | the item is appended |
| CommandBatch.Batch.Execute | Dispatcher/Dispatcher/CDspInstrument.cpp:52-72 | state, undo list and code are those of the batch run forward and, on a failure, back |
| CommandBatch.Batch.Rollback | Dispatcher/Dispatcher/CDspInstrument.cpp:74-81 | the undos run latest first and the list is empty afterwards |
| CommandBatch.ExecuteMeaning | Dispatcher/Dispatcher/CDspInstrument.cpp:52-72 | success iff there is something to do and every redo succeeds in turn, and then the state all redos lead to; the code is the first failure's, or else the last redo's |
| CommandBatch.ExecuteThenRollback | Dispatcher/Dispatcher/CDspInstrument.cpp:52-81 | a failed execution restores the state; a successful one is undone by a rollback |
| CommandBatch.RoundTrip | Dispatcher/Dispatcher/CDspInstrument.cpp:52-81 | execution and two rollbacks leave the state found |
| CommandBatch.ReversibleJoin | Dispatcher/Dispatcher/CDspInstrument.cpp:42-45 | a joined batch is reversible iff its parts are where they run |
| CommandBatch.JoinedAllOrNothing | Dispatcher/Dispatcher/CDspInstrument.cpp:42-72 | a failure in the second part of a joined batch undoes the first part as well |
| CallbackHub.Hub.AddSocket | Dispatcher/Dispatcher/CDspLibvirt.cpp:882-885 | a new socket notifies nothing and owes nothing, and nothing else changes |
| CallbackHub.Hub.AddTimeout | Dispatcher/Dispatcher/CDspLibvirt.cpp:877-880 | a new timeout notifies nothing and owes nothing, and nothing else changes |
| CallbackHub.Hub.SetOpaque | Dispatcher/Dispatcher/CDspLibvirt.cpp:887-903 | the socket is looked for before the timeout |
| CallbackHub.Hub.SetEvents | Dispatcher/Dispatcher/CDspLibvirt.cpp:905-910 | a socket still in the map may notify afterwards, and nothing else changes |
| CallbackHub.Hub.SetInterval | Dispatcher/Dispatcher/CDspLibvirt.cpp:912-917 | a timeout still in the map may notify afterwards iff the interval is not negative, and nothing else changes |
| CallbackHub.Hub.Remove | Dispatcher/Dispatcher/CDspLibvirt.cpp:919-944 | objects move disarmed to a new sweeper, or the id's sweeper is released |
| CallbackHub.Hub.TimerMapped | Dispatcher/Dispatcher/CDspLibvirt.cpp:1029-1039 | the pets are freed and the sweeper's id is removed again |
| CallbackHub.Hub.TimerDying | Dispatcher/Dispatcher/CDspLibvirt.cpp:1029-1039 | the same for a sweeper that was released before its timer fired |
| CallbackRuns.RemovedOnce | Dispatcher/Dispatcher/CDspLibvirt.cpp:877-1039 | in every run an id is in at most one of the three maps and its free callback has run at most once, never while it is in the socket or timeout map |
| CallbackRuns.NoLateNotification | Dispatcher/Dispatcher/CDspLibvirt.cpp:919-944 | nothing can notify for an id once a removal of it was processed |
| CallbackRuns.RegisteredUntilRemoved | Dispatcher/Dispatcher/CDspLibvirt.cpp:959-985 | an issued id with nothing pending is kept until it is removed |
| CallbackRuns.FreedInTheEnd | Dispatcher/Dispatcher/CDspLibvirt_p.h:114-121 | a free callback passed to an add call has run exactly once when its id is removed and every sweeper is gone |
| CallbackRuns.SweepersDrain | Dispatcher/Dispatcher/CDspLibvirt.cpp:919-927 | sweepers drain although a timer may create another one: at most two timer events and deletions for each handled message, and none is left iff no sweeper is |
| CallbackRuns.SweptInTheEnd | Dispatcher/Dispatcher/CDspLibvirt.cpp:1029-1039 | from any reachable state with a promised id removed, letting timers and deletions run out in any order takes a bounded number of them and runs its free callback exactly once |
| CallbackNotices.SettingsTakeEffect | Dispatcher/Dispatcher/CDspLibvirt.cpp:905-917 | events enable a socket in the map whatever they are; an interval enables a timeout in the map iff it is not negative |
| CallbackNotices.NotifiesUntilRemoved | Dispatcher/Dispatcher/CDspLibvirt.cpp:877-985 | in every run an issued id with nothing pending and no removal processed can notify, a timeout iff the last interval set is not negative |
| CallbackNotices.FreedWasPassed | Dispatcher/Dispatcher/CDspLibvirt_p.h:114-145 | in every run only free callbacks passed to an add call have run |
| CrashWindow.Primary.React | Dispatcher/Dispatcher/CDspLibvirt.cpp:1660-1683 | uncounted crashes change nothing; a counted one is stored, the oldest time goes when there are too many, and a switch clears all |
| CrashWindow.WindowRefinesHistory | Dispatcher/Dispatcher/CDspLibvirt.cpp:1660-1683 | with a constant limit the window is the last `limit` counted times, never more, and switches exactly when the full history does |
| CrashWindow.PlainDifference | Dispatcher/Dispatcher/CDspLibvirt.cpp:1674-1676 | with a clock that does not run backwards the switch comes iff n >= limit and the n-th and the (n - limit + 1)-th crash are less than a day apart |
| CrashWindow.RightExactly | Dispatcher/Dispatcher/CDspLibvirt.cpp:1667-1675 | one decision on the stored times, for any limit: it is what the last `limit` of them call for iff no more are stored than the limit, or the second is less than a day old, or no switch is due; a switch never comes too early |
| CrashWindow.ChangedLimits | Dispatcher/Dispatcher/CDspLibvirt.cpp:1660-1683 | for any limits from crash to crash, the window and the full history agree on every crash of a run iff that condition held at every counted one |
| CrashWindow.RaisedLimits | Dispatcher/Dispatcher/CDspLibvirt.cpp:1660-1683 | if the limit is never lowered, the window switches exactly when the full history does |
| CrashWindow.ShrunkLimitMisses | Dispatcher/Dispatcher/CDspLibvirt.cpp:1671-1672 | a run of four crashes after which the full history switches and the window, its limit lowered from three to two, does not |
| UsbTransfer.Collect | Dispatcher/Dispatcher/CDspLibvirt.cpp:2299-2308 | under each name with something stored is exactly what is stored for that name, in order, and nothing is lost |
| UsbTransfer.GatheredOf | Dispatcher/Dispatcher/CDspLibvirt.cpp:2301-2308 | what is gathered under a name belongs to that name and is all that does |
| UsbTransfer.Distribute | Dispatcher/Dispatcher/CDspLibvirt.cpp:2309-2322 | each identity takes one matching list or nothing, no list twice, and what is left over plus what is placed is everything |
| UsbTransfer.Transfer | Dispatcher/Dispatcher/CDspLibvirt.cpp:2297-2329 | success conserves the multiset of associations; each identity holds all that was stored for one name judged the same device, or nothing, and every name is placed once; failure leaves the destination untouched; if no identity matches two names, success iff every name is recognised |
| BridgeNumber.DecimalRoundTrip | Dispatcher/Dispatcher/CDspLibvirtAgent.cpp:3698-3702 | the number printed into a name is the number read back |
| BridgeNumber.Last | Dispatcher/Dispatcher/CDspLibvirtAgent.cpp:3695-3699 | in 32-bit arithmetic the next number is one past the greatest suffix that counts, and 0 without any |
| BridgeNumber.Define | Dispatcher/Dispatcher/CDspLibvirtAgent.cpp:3695-3713 | candidates are consecutive from the first and asked for as br and the number; refused ones are passed, and the first other attempt ends the search with its code |
| BridgeNumber.CandidatesAreNew | Dispatcher/Dispatcher/CDspLibvirtAgent.cpp:3700-3709 | no candidate before the wrap is an existing name iff no bridge is called br4294967295 |
| BridgeNumber.SmallSuffixes | Dispatcher/Dispatcher/CDspLibvirtAgent.cpp:3695-3709 | with every suffix below the greatest number, the first candidate is the greatest suffix plus one (0 without bridges) and no candidate before the wrap exists |

## Left out

- libvirt, XML translation, QEMU and the file system: calls into them are parameters that say how they end.
- The values of the SDK's result codes: the header is not part of this model, only sign and identity of codes are used.
- The moment libvirt frees an event callback: deregistering is taken to reset the counter before it returns.
- BlockActivity.Tracker.Start: the numbers libvirt issues are parameters, because the library chooses them.
- BlockActivity.Launch: reports are returned as a list, because the counter's thread receives them later; every interleaving of them is covered by the lemma on refused launches.
- The second overload of Entry::setState, which runs its action at once, and several threads calling setState of one entry: stores and shows may then interleave in another order than the one delivered.
- Reactions.Demonstrator.RunShell: what reactions show is given as a finite list, because a reaction that always shows another one never ends.
- BackupDevice.Partition: the order std::partition leaves inside its two parts is unspecified, so nothing is claimed about it.
- Transition::plant, the deferred detach of EditVm, image creation and removal: a visit is a step with a status and an effect on which disks are attached.
- Breeding.Reconcile: the last loop, which refreshes configurations and states, is not modelled, because it changes none of the maps; whether a configuration belongs to another server is a parameter.
- Registry.Actual.Undefine: the directory's answer is not modelled, because the source only logs it.
- A definition in the middle of a reset is outside the disjointness of all three maps; `SplitBooking` says exactly which runs break it.
- The wrap-around of the 32-bit callback id generator and the destruction of the hub itself.
- CrashWindow.Primary.React: a limit of 0 is excluded, because the source then reads the front of an empty list.
- BridgeNumber.Define: the search over names that libvirt refuses for ever is cut where the list of attempts ends; the earlier checks for an existing bridge over the same card are not modelled.
- What QString::toUInt makes of a text that is not just digits is an arbitrary function.
- Serialising the USB preferences to text and back is taken to keep them.
- Login, permissions, command dispatch, tasks, statistics, settings, logging: plumbing or tables that would only add easy members.
