# dawos-agent: a verified model of its core

dawos-agent edits `accel-ppp.conf`, applies new configurations under a rollback timer, matches
sessions to address pools, runs scheduled jobs and publishes events. This project models those
cores in Dafny and proves what they guarantee. The loops are methods proved against functions on
lines; objects the agent updates in place are classes; concurrent protocols are step functions,
one step for each stretch of code between two suspension points, and their theorems range over
every run.

## The configuration file

- `Text`, `TextMeaning`, `Patterns`: lines, trimming, key recognition, numbers, the fixed
  patterns, and which texts they accept.
- `Sections`: one engine for all editors. An `Editor` says which lines it owns in which section;
  `Edited` is the one-pass meaning of "replace what is there, inject what is missing when the
  section ends". Frame, commutation, presence and idempotence are proved once, for every editor.
  A mask is an editor that owns everything another one replaces or writes; the frame theorems are
  about the lines outside a mask, so they hold for an editor that writes lines it does not
  recognise itself.
- `KeyLines`: the last-wins readers and the editors of `key=value` lines.
- `ConnectionLimits`, `PadoDelay`, `PppoeRuntime`, `PppoeInterfaces`, `IpPool`, `Radius`: the six
  services. Each scanning loop is a method whose result is the engine's.
- `SettingsMeaning`, `RadiusServers`, `InterfaceLookup`: what the readers report, told from the
  lines of the file without the functions that compute it.
- `Readings`: what every reader sees after every editor, and that editors of different settings
  commute for all readers.
- `Validator`, `ValidatorMeaning`, `ValidatorReport`, `ValidityKept`: the validator, its
  declarative meaning, its report issue by issue, and which edits keep a valid file valid. The
  validator wants a closing bracket in a header and the editors do not.

The services recognise keys in two ways, by an anchored pattern and by cutting at the first
equals sign; `Text.MatchKeyIffHasKey` proves that they agree.

## The guarded apply

`ConfigManager` holds the file, the backups, the loaded configuration, the two module globals,
the rollback tasks and the apply that holds the lock. `GuardedApply` proves what the code does in
every interleaving, and `BackupsKept` what each request leaves in the backup directory.
`RepairedApply` is a variant that keeps the documented promise: the old timer is cancelled before
the checkpoint, a timer owns the content it restores, and a confirmation is refused once
restoring has begun.

The code and its documentation disagree here, and the model follows the code. Each point has a
run that shows it and a condition that can be told when the apply takes the lock or when the
confirmation arrives. The conditions are about all interleavings with confirmations, timers,
restores, reloads and the playbooks, but not with other requests that write the file; what those
change is told step by step (`ExpiryRestoresLatestCheckpoint`).

- Starting the timer clears the checkpoint just taken, so an expiry restores nothing
  (`ExpiryKeepsNewConfig`). `ExpiryRevertsIff`: the promise of an expiry is kept in all
  interleavings exactly if the apply changed nothing. `SomeExpiryRevertsIff`: for an apply that
  changes something it is kept in some interleaving exactly if an older task could still write
  at the lock; if none could, `ExpiryKeepsContent` says that it is broken in each.
- A playbook's checkpoint takes the place of the one just cleared, and the expiry restores that
  (`PlaybookTakesOver`): the applied content itself, unless a request has written in between.
- The old timer may fire between the next apply's write and its timer start
  (`ConfirmedButReverted`). `ConfirmedInForceIff`: an apply that changes the configuration and is
  confirmed is in force afterwards exactly if no task could still write at the lock.
- A confirmation is accepted while the file has been restored already (`ConfirmedTooLate`).
  `ConfirmationInTimeIff` says when a rollback still changes the daemon afterwards, and
  `ConfirmationKeepsIff` when the confirmation keeps its promise.
- A failed reload leaves the new file in place with no timer (`FailedReloadLeavesNoGuard`).
  `TimerStartsIff` and `ReloadDecidesIff` say what the reload decides, and `OldTimerAfterFailure`
  what an older timer restores right after a failure.

Other places where the code does not do what one might expect, each with an input and its exact
condition:

- A repeated `[pppoe]` header multiplies the interface list (`PppoeInterfaces.TwoHeaders`), and
  the binding `interface=,` is lost by the next rebuild (`EmptyBindingIsLost`), which leaves a
  bare `interface=` line behind: `RoundTripIff`, `RebuildKeepsRest`, `ListedAfterAdd`,
  `RemoveUndoesAdd`.
- An edit reports success when its section is missing, and changes nothing
  (`ConfigEdit.NoSectionSucceeds`, `ConfigEdit.NoSectionSucceedsIff`).
- Interface lines written with capitals or blanks are listed, but `get_interface_limit` does not
  find them unless another line of the name is plainly written (`Readings.ListedButNotFound`,
  `Readings.ListedAndFound`, `Readings.ReadersAgreeIff`).
- A range with a final line feed is accepted, but the pool is not listed as asked
  (`IpPool.FinalLineFeed`, `IpPool.AddedAsAskedIff`). The request pattern refuses such a range
  (dawos_agent/constants.py:39), so only a direct caller of `add_pool` can bring it in.
- Pools that share a name count a session several times (`PoolDetail.CountedTwice`,
  `PoolDetail.SessionsConserved`).
- The service name `300.1.1.1` turns a valid file into an invalid one
  (`ValidityKept.ServiceNameSpoils`, `ValidityKept.RuntimeValidIff`).

## Pools, scheduler, events, scanners, retries

- `Ipv4`, `PoolDetail`: networks as sets of addresses, first-match assignment, conservation.
- `Scheduler`, `SchedulerRuns`: names, registrations, loops and runs, with runs that outlive their
  registration; what each step changes, and what the steps come to over whole runs.
- `EventBus`, `ControlProtocol`: the bus as an object, delivery histories, and the connections
  that change their subscriptions.
- `StatScan`, `StatMeaning`, `StatRadius`, `Stat`: the two scans of `show stat`, their meaning line
  by line, and the parsers. `Retry`: the retry loop. `Powers`: powers of two.

## Model

| member | source | states |
|---|---|---|
| Text.SplitUnlines | dawos_agent/services/connection_limits.py:148-149 | lines written to a file are the lines read back |
| Text.MatchKeyIffHasKey | dawos_agent/services/connection_limits.py:52-68 | the anchored key pattern and the cut at the first equals sign accept the same trimmed lines and give the same value |
| Text.WrittenKeyLine | dawos_agent/services/connection_limits.py:121-136 | a written line carries its key and the trimmed value |
| Text.SplitMeaning | dawos_agent/services/connection_limits.py:186-192 | splitting gives the only pieces without a separator that join to the text |
| TextMeaning.StripMeaning | dawos_agent/services/config_validator.py:81 | trimming takes off exactly the listed blanks around a text |
| TextMeaning.LinesMeaning | dawos_agent/services/config_validator.py:77-79 | a line ends at the first of the listed breaks, and a carriage return with a line feed is one |
| TextMeaning.IntMeaning | dawos_agent/services/connection_limits.py:190-192 | `int` succeeds exactly on a sign and groups of digits with single underscores, with their number |
| Sections.VisibleEdited | dawos_agent/services/pppoe.py:72-133 | every editor keeps, in order, every line outside a mask of it |
| Sections.ReaderUndisturbed | dawos_agent/services/connection_limits.py:73-155 | a reader that looks at no line in the mask of an editor gets the same lines before and after the edit |
| Sections.EditorsCommute | dawos_agent/services/pado_delay.py:69-141 | two editors with disjoint masks, run in either order, give texts that agree outside each of the masks |
| Sections.OnlyWritten | dawos_agent/services/pado_delay.py:104-138 | the owned lines of an edited section are lines the editor wrote: no old value survives |
| Sections.WrittenPresent | dawos_agent/services/pado_delay.py:104-138 | whatever is to be written is in the section, however often the header repeats |
| Sections.EditTwice | dawos_agent/services/pppoe.py:72-133 | running an editor on its own result changes nothing |
| Sections.NoSectionNoEdit | dawos_agent/services/ip_pool.py:100-124 | without the section the lines stay as they are |
| Sections.HeaderCountEdit | dawos_agent/services/pppoe.py:72-133 | an edit keeps the number of headers of every section |
| Sections.SplitEditText | dawos_agent/services/pppoe.py:130-133 | the text written reads back as the edited lines |
| KeyLines.OtherKeyUndisturbed | dawos_agent/services/pppoe_config.py:112-197 | a key that is not updated reads as before |
| KeyLines.UpdateReadBack | dawos_agent/services/pppoe_config.py:112-197 | an updated key reads back as set, or as absent if it was deleted |
| ConfigEdit.EditFileLines | dawos_agent/services/config_manager.py:100-137 | after an edit the file holds the edited lines, or the old ones if the write was refused; it is not refused if the section exists |
| ConfigEdit.WritableIff | dawos_agent/services/config_manager.py:117-123 | a content passes the write checks exactly if it has an opening bracket |
| ConfigEdit.NoSectionSucceedsIff | dawos_agent/services/connection_limits.py:73-155 | without the section an edit succeeds exactly if the file itself passes the write checks, and changes no line |
| ConfigEdit.NoSectionSucceeds | dawos_agent/services/connection_limits.py:73-155 | on a file with only a `[modules]` header any `[pppoe]` edit reports success and changes nothing |
| ConnectionLimits.GetLimits | dawos_agent/services/connection_limits.py:20-70 | the scanning loop finds the last value of each limit in all `[pppoe]` sections |
| ConnectionLimits.EditLimits | dawos_agent/services/connection_limits.py:100-148 | the loop with its two flags is the editor of the given limits |
| ConnectionLimits.SetLimits | dawos_agent/services/connection_limits.py:73-155 | refusals, and the whole new state of file and backups |
| SettingsMeaning.BodyMeaning | dawos_agent/services/connection_limits.py:50-68 | a reader of a section sees, in order, exactly the lines whose latest header is that section in any case |
| SettingsMeaning.LimitsMeaning | dawos_agent/services/connection_limits.py:20-70 | each limit is the number of the latest line that gives it one, in `[pppoe]` or for the timeout in `[common]` and `[general]`; else 0 |
| SettingsMeaning.DelayMeaning | dawos_agent/services/pado_delay.py:20-66 | delay and threshold are the numbers of the latest `pado-delay` and `pado-delay-sessions` lines; else 0 |
| SettingsMeaning.RuntimeMeaning | dawos_agent/services/pppoe_config.py:34-109 | the names are the values of the latest lines, and the verbosity that value if it is all digits; else 0 |
| SettingsMeaning.RadiusMeaning | dawos_agent/services/radius.py:70-132 | each scalar is the value of the latest line of `[radius]`, with the fallbacks 3, 3 and 0 for the numbers |
| RadiusServers.ServerMeaning | dawos_agent/services/radius.py:37-67 | a line names a server exactly by one of three keys and an address; its ports are the first ones given, else 1812 and 1813 |
| RadiusServers.ServersMeaning | dawos_agent/services/radius.py:96-130 | every server named in `[radius]` is listed once, in the order of the first lines that name them and with the ports of those lines |
| ConnectionLimits.GetInterfaceLimit | dawos_agent/services/connection_limits.py:158-200 | the loop computes the lookup that LookupMeaning tells, or reports the missing file |
| ConnectionLimits.ScanOptions | dawos_agent/services/connection_limits.py:186-192 | the loop over the options computes the limit that OptionsMeaning tells |
| InterfaceLookup.OptionsMeaning | dawos_agent/services/connection_limits.py:186-192 | the scan fails exactly if some `padi-limit` is no number; else it gives the number behind the equals sign of the last one, or what it started from |
| InterfaceLookup.LookupMeaning | dawos_agent/services/connection_limits.py:176-200 | for every file: the first plain line of the name answers by its last `padi-limit`, 0 without one, an error exactly if one is no number; without such a line nothing is found |
| InterfaceLookup.RebuiltLimit | dawos_agent/services/connection_limits.py:158-200 | after a rebuild the options of a written binding answer for its name |
| InterfaceLookup.LimitRoundTrip | dawos_agent/services/connection_limits.py:158-200 | a `padi-limit` written with a binding is the one found after the rebuild |
| InterfaceLookup.AddedLimit | dawos_agent/services/pppoe.py:161-200 | for every file with the section and every new name: the limit given when the interface is added is found |
| PadoDelay.GetPadoDelay | dawos_agent/services/pado_delay.py:20-66 | the loop finds the last delay and threshold |
| PadoDelay.EditDelay | dawos_agent/services/pado_delay.py:98-138 | the loop is the editor that sets the delay and sets or, for zero, deletes the threshold |
| PadoDelay.SetPadoDelay | dawos_agent/services/pado_delay.py:69-141 | a negative delay is refused; else the whole new state |
| PppoeRuntime.GetRuntime | dawos_agent/services/pppoe_config.py:34-109 | the loop finds the last name, AC name and verbosity |
| PppoeRuntime.EditRuntime | dawos_agent/services/pppoe_config.py:152-192 | the loop is the editor whose flags are never cleared, so that it injects missing keys once |
| PppoeRuntime.SetRuntime | dawos_agent/services/pppoe_config.py:112-197 | setting nothing is refused; else the whole new state |
| PppoeInterfaces.ParseInterfaces | dawos_agent/services/pppoe.py:37-69 | the loop lists the bindings of all `[pppoe]` sections in file order |
| PppoeInterfaces.ListInterfaces | dawos_agent/services/pppoe.py:141-158 | a missing file is an error; else the bindings of the file |
| PppoeInterfaces.RebuildLine | dawos_agent/services/pppoe.py:88-125 | one pass writes, drops or keeps exactly what the editor does and leaves its flags |
| PppoeInterfaces.RebuildConfig | dawos_agent/services/pppoe.py:72-133 | the rebuilding loop is the editor that puts the bindings once into every section |
| PppoeInterfaces.AddInterface | dawos_agent/services/pppoe.py:161-200 | a listed name is refused; else the file is rebuilt with the new binding last |
| PppoeInterfaces.RemoveInterface | dawos_agent/services/pppoe.py:203-239 | an unknown name is refused; else the file is rebuilt without that name |
| PppoeInterfaces.WithoutKeeps | dawos_agent/services/pppoe.py:229-231 | a removal keeps exactly the bindings of other names |
| PppoeInterfaces.RebuiltBindings | dawos_agent/services/pppoe.py:72-133 | parsing the rebuilt text gives the normal forms of the bindings, once per header, without those that render to blanks |
| PppoeInterfaces.RoundTripIffCanonical | dawos_agent/services/pppoe.py:57-67 | a binding comes back as written exactly if its name is trimmed and comma-free and its options are trimmed |
| PppoeInterfaces.RoundTripIff | dawos_agent/services/pppoe.py:37-133 | for every text and list: the list comes back once per header exactly if its bindings are canonical and not empty |
| PppoeInterfaces.RebuildKeepsRest | dawos_agent/services/pppoe.py:72-133 | whatever the bindings, all lines without the key survive in order; the unlisted `interface=` lines stay as they are, and a second rebuild changes nothing, exactly if every binding renders to a value or there is no header |
| PppoeInterfaces.ListedCanonical | dawos_agent/services/pppoe.py:37-69 | every listed binding is canonical and can be written again, but for the empty one |
| PppoeInterfaces.EmptyBindingIsLost | dawos_agent/services/pppoe.py:57-67 | `interface=,` is listed, and not listed any more after it is written again |
| PppoeInterfaces.TwoHeaders | dawos_agent/services/pppoe.py:96-115 | two headers list one written binding twice |
| PppoeInterfaces.ListedAfterAdd | dawos_agent/services/pppoe.py:161-200 | for every name without commas and outer blanks and any options: the list afterwards, which is the old one and the new binding with trimmed options exactly if there is one header and no empty binding |
| PppoeInterfaces.RemoveUndoesAdd | dawos_agent/services/pppoe.py:161-239 | removing the name just added restores the list exactly if there is one header and no empty binding, or the list was empty |
| Patterns.WrittenPoolLine | dawos_agent/services/ip_pool.py:65-124 | the line `add_pool` writes is a pool entry with the range and the trimmed name |
| Patterns.RangeShapedIff | dawos_agent/services/ip_pool.py:43-58 | the range pattern accepts exactly five runs of digits with three dots and a slash between them |
| Patterns.PoolEntryIff | dawos_agent/services/ip_pool.py:43-58 | a range alone is a pool named by itself, a range, a comma and a text is a pool with that trimmed name, and nothing else is a pool |
| IpPool.RangeAcceptedIff | dawos_agent/services/ip_pool.py:86-90 | `add_pool` accepts a range of that form, with or without a final line feed |
| IpPool.ScanPools | dawos_agent/services/ip_pool.py:21-62 | the loop lists the pools of all `[ip-pool]` sections in file order |
| IpPool.ListPools | dawos_agent/services/ip_pool.py:21-62 | a missing file is an error; else the pools of the file |
| IpPool.InsertPool | dawos_agent/services/ip_pool.py:99-124 | the loop with its `inserted` flag is the editor that writes the pool at the end of the first section |
| IpPool.AddPool | dawos_agent/services/ip_pool.py:65-124 | ranges outside the pattern and listed names are refused; else the whole new state |
| IpPool.DeletePool | dawos_agent/services/ip_pool.py:148-177 | the loop drops exactly the entries of that name and reports whether there were any |
| IpPool.RemovePool | dawos_agent/services/ip_pool.py:127-177 | an unknown name is refused; else the whole new state |
| IpPool.RemoveUndoesAdd | dawos_agent/services/ip_pool.py:65-177 | removing a pool just added gives back the very lines there were |
| IpPool.ListedAfterAdd | dawos_agent/services/ip_pool.py:65-124 | a new pool is listed once, after the pools of the first section |
| IpPool.ListedAfterRemove | dawos_agent/services/ip_pool.py:127-177 | exactly the pools of other names stay listed, in order |
| IpPool.NamesStayDistinct | dawos_agent/services/ip_pool.py:21-177 | pool names stay distinct over every run of additions and removals |
| IpPool.FinalLineFeed | dawos_agent/services/ip_pool.py:86-90 | no text lists a pool whose range was accepted with a final line feed |
| IpPool.AddedAsAskedIff | dawos_agent/services/ip_pool.py:65-124 | an accepted addition is listed as asked exactly if its range has no final line feed |
| Radius.ParseRadius | dawos_agent/services/radius.py:70-132 | the loop finds the last of each setting and the servers with distinct addresses |
| Radius.ReadKey | dawos_agent/services/radius.py:106-123 | what one setting line changes, key by key |
| Readings.UntouchedField | dawos_agent/services/connection_limits.py:73-155 | no editor changes the lines of a field it does not set |
| Readings.OtherReaders | dawos_agent/services/radius.py:70-132 | after every editor the readers of other settings, the RADIUS parser included, give the same result |
| Readings.EditSeen | dawos_agent/services/pado_delay.py:20-141 | all readers after every editor: set values are read back, a zero threshold reads as 0, omitted values and other readers are unchanged, and nothing changes without the section |
| Readings.FileSeen | dawos_agent/services/pppoe_config.py:112-197 | the same through the file, with its write checks |
| Readings.ChangesCommute | dawos_agent/services/connection_limits.py:73-200 | two editors of different settings commute for every reader, `get_interface_limit` included |
| Readings.InterfaceLimitUndisturbed | dawos_agent/services/connection_limits.py:158-200 | only rebuilding the interfaces can change what `get_interface_limit` finds |
| Readings.FoundIfListed | dawos_agent/services/connection_limits.py:158-200 | a name with text that `get_interface_limit` finds is listed |
| Readings.FoundIff | dawos_agent/services/connection_limits.py:177-200 | exactly the names with a plainly written line are found |
| Readings.ListedIff | dawos_agent/services/pppoe.py:37-69 | exactly the names with a line that has a value are listed |
| Readings.ReadersAgreeIff | dawos_agent/services/connection_limits.py:158-200 | found and listed names agree exactly if every listed name has a plainly written line |
| Readings.FoundIffListed | dawos_agent/services/connection_limits.py:158-200 | after a rebuild `get_interface_limit` finds exactly the non-empty names the parser lists |
| Readings.ListedButNotFound | dawos_agent/services/connection_limits.py:183-184 | a line `Interface=eth0` alone is listed but not found; ReadersAgreeIff is the condition |
| Readings.ListedAndFound | dawos_agent/services/connection_limits.py:158-200 | with a second, plain line the same name is listed and found |
| ConfigManager.RollbackUndone | dawos_agent/services/config_manager.py:280-307 | a rollback writes what the backup held at the call; its safety copy restores the old configuration exactly if that passes the write checks, even when names collide |
| BackupsKept.NamesApart | dawos_agent/services/config_manager.py:125-130 | backups of different times have different names, and none is the name of a checkpoint |
| BackupsKept.RefusalMeaning | dawos_agent/services/config_manager.py:117-123 | a content is refused as empty exactly if it is all blanks, and for want of a section if it has text but no opening bracket |
| BackupsKept.WriteMeaning | dawos_agent/services/config_manager.py:100-137 | an accepted write puts the content and, if wanted, keeps the file under the name of the time; a refused one changes nothing |
| BackupsKept.EditMeaning | dawos_agent/services/connection_limits.py:148-149 | every edit of a service is a write with the standard backup, and its result tells why it was refused |
| BackupsKept.RollbackMeaning | dawos_agent/services/config_manager.py:280-307 | in every state, with or without a file: exactly a flat, existing backup with an opening bracket is restored |
| BackupsKept.BeginMeaning | dawos_agent/routers/checkpoint.py:216-223 | an apply takes its checkpoint whatever the content, then writes with the standard backup |
| BackupsKept.BeginKeepsCopies | dawos_agent/routers/checkpoint.py:216-223 | an accepted apply leaves the replaced content under both names and touches no other backup |
| BackupsKept.OnlyTheseReplace | dawos_agent/services/config_manager.py:100-361 | besides these requests only a write without backup and an expiry change an existing file |
| BackupsKept.DaemonMeaning | dawos_agent/services/config_manager.py:336-361 | the daemon changes only by loading the file, on the three kinds of reload that succeed |
| BackupsKept.ReplacedIsKept | dawos_agent/services/config_manager.py:100-137 | over every run: what a write, apply or rollback replaced stays under its backup name until a request of the same time, and a rollback brings it back exactly if it has an opening bracket |
| ConfigManager.Manager.WriteConfig | dawos_agent/services/config_manager.py:100-137 | a refused write changes nothing; else file and backup |
| ConfigManager.Manager.RollbackTo | dawos_agent/services/config_manager.py:280-307 | the backup is read before the safety copy is made |
| ConfigManager.Manager.CreateCheckpoint | dawos_agent/services/config_manager.py:315-333 | the global names a copy of the file |
| ConfigManager.Manager.GuardedApplyStatus | dawos_agent/services/config_manager.py:395-406 | pending as long as the registered task has not finished |
| ConfigManager.Manager.CancelGuardedTimer | dawos_agent/services/config_manager.py:381-392 | cancels a pending task and clears both globals |
| ConfigManager.Manager.StartGuardedTimer | dawos_agent/services/config_manager.py:364-378 | cancels first, and so forgets the checkpoint |
| ConfigManager.Manager.AutoRollbackWake | dawos_agent/services/config_manager.py:336-353 | an uncancelled task restores the checkpoint the global names now, if it still exists |
| ConfigManager.Manager.AutoRollbackReload | dawos_agent/services/config_manager.py:353-361 | the reload takes effect or not, and the task ends |
| ConfigManager.Manager.GuardedApplyBegin | dawos_agent/routers/checkpoint.py:208-228 | checkpoint, then a write with the standard backup, as BeginMeaning tells; a refused write leaves the new checkpoint |
| ConfigManager.Manager.GuardedApplyResume | dawos_agent/routers/checkpoint.py:228-247 | the timer starts only if the reload succeeded |
| ConfigManager.Manager.ConfirmApply | dawos_agent/routers/checkpoint.py:250-271 | refused if nothing is pending, else the timer is cancelled |
| GuardedApply.ExpiryRestoresLatestCheckpoint | dawos_agent/services/config_manager.py:315-392 | in every run at most one task can still write, and an expiry writes exactly what the latest checkpoint since the last timer start or confirmation copied, or nothing |
| GuardedApply.CancelledForGood | dawos_agent/services/config_manager.py:381-392 | a cancelled task stays cancelled |
| GuardedApply.ConfirmedTaskNeverWrites | dawos_agent/routers/checkpoint.py:250-271 | whatever follows a confirmation, the task it cancelled never writes |
| GuardedApply.UndisturbedApplyIsKept | dawos_agent/services/config_manager.py:364-392 | after a reloaded apply no expiry changes the file, whatever checkpoints are taken, until a request writes it |
| GuardedApply.ExpiryRevertsIff | dawos_agent/services/config_manager.py:364-392 | over all interleavings without writing requests the promise of an expiry is kept exactly if the apply wrote the same content |
| GuardedApply.ExpiryKeepsContent | dawos_agent/services/config_manager.py:364-392 | interleaving by interleaving, if no task can still write at the lock: the content is in force, on disk and in the daemon, after every expiry |
| GuardedApply.SomeExpiryRevertsIff | dawos_agent/routers/checkpoint.py:217-232 | a changing apply is reverted by an expiry in some interleaving exactly if a task could still write at the lock |
| GuardedApply.OlderTimerKeepsPromise | dawos_agent/routers/checkpoint.py:217-232 | the interleaving: an older timer restores between the write and the reload |
| GuardedApply.ExpiryKeepsNewConfig | dawos_agent/routers/checkpoint.py:208-247 | a run on which an unconfirmed apply stays in force |
| GuardedApply.PlaybookTakesOver | dawos_agent/services/playbooks.py:140-152 | a run on which the expiry restores a playbook's copy of the new content |
| GuardedApply.ConfirmedButReverted | dawos_agent/routers/checkpoint.py:217-232 | a run on which a confirmed apply is not in force; ConfirmedInForceIff is the condition |
| GuardedApply.AppliedStaysIff | dawos_agent/routers/checkpoint.py:217-232 | a changing apply stays on disk in every continuation without writing requests exactly if no task can still write when it takes the lock |
| GuardedApply.ConfirmedInForceIff | dawos_agent/routers/checkpoint.py:208-271 | a changing apply that is confirmed is in force, on disk and in the daemon, in every interleaving without writing requests, exactly under that guard |
| GuardedApply.ConfirmedTooLate | dawos_agent/routers/checkpoint.py:263-267 | a run on which an accepted confirmation does not keep its promise; ConfirmationKeepsIff is the condition |
| GuardedApply.ConfirmationInTimeIff | dawos_agent/routers/checkpoint.py:250-271 | from every reachable pending state: after a confirmation no rollback writes the file, and none changes the daemon exactly if the daemon holds the file or no task was restoring |
| GuardedApply.ConfirmedTask | dawos_agent/services/config_manager.py:336-361 | what the registered task still does: nothing if it slept, else its reload loads what it has restored |
| GuardedApply.ConfirmationKeepsIff | dawos_agent/routers/checkpoint.py:250-271 | a confirmation keeps its promise against all rollback steps exactly if file and daemon hold the content when it arrives |
| GuardedApply.FailedReloadLeavesNoGuard | dawos_agent/routers/checkpoint.py:224-247 | a run on which file and daemon disagree with no timer; ReloadDecidesIff is the condition |
| GuardedApply.ReloadDecides | dawos_agent/routers/checkpoint.py:208-247 | with other steps but reloads and writing requests in between: if nobody disturbs the apply, its content is on disk, and the daemon has it exactly if the reload succeeded or it had it anyway |
| GuardedApply.ReloadDecidesIff | dawos_agent/routers/checkpoint.py:208-247 | for a changing apply this holds in all those interleavings exactly if no task can still write at the lock, nor load the file into a daemon that lacks it |
| GuardedApply.TimerStartsIff | dawos_agent/routers/checkpoint.py:228-247 | in every such interleaving the timer starts exactly if the reload succeeded |
| GuardedApply.OldTimerAfterFailure | dawos_agent/services/config_manager.py:336-361 | what an older timer restores right after a failed reload |
| RepairedApply.PromiseKept | dawos_agent/routers/checkpoint.py:3-7 | in every run of the repaired protocol, once nothing is pending, file and daemon hold the applied content if confirmed and the replaced content if expired |
| RepairedApply.FirstDecides | dawos_agent/routers/checkpoint.py:3-7 | after a confirmation no expiry writes, and after an expiry no confirmation is accepted |
| Ipv4.MemberCount | dawos_agent/services/ip_pool.py:194-214 | a /p network has exactly 2^(32-p) addresses |
| Ipv4.NestedOrDisjoint | dawos_agent/services/ip_pool.py:261-266 | any two networks are nested or disjoint |
| Ipv4.HostCountMeaning | dawos_agent/services/ip_pool.py:194-214 | the host count is the member count, less two for prefixes up to 30 |
| Ipv4.AddressIff | dawos_agent/services/ip_pool.py:249-259 | an address is four numerals of numbers up to 255, without leading zeros |
| Ipv4.NetworkIff | dawos_agent/services/ip_pool.py:240-245 | a network is an address and a prefix length up to 32 |
| Ipv4.AddressValue | dawos_agent/services/ip_pool.py:255-259 | an address denotes its four octets, the first the most significant |
| Ipv4.NetworkValue | dawos_agent/services/ip_pool.py:240-245 | a network denotes the address before and the prefix length behind the slash |
| PoolDetail.GetPoolDetail | dawos_agent/services/ip_pool.py:217-299 | the report lists for each pool its assigned sessions, its share in use before rounding, and the totals |
| PoolDetail.UtilizationMeaning | dawos_agent/services/ip_pool.py:272-292 | a pool shows 100 per cent or more exactly if nothing is available, and more than 100 exactly if over-assigned |
| PoolDetail.DetailMeaning | dawos_agent/services/ip_pool.py:272-292 | hosts, used and available add up, never below zero, and the share is to a hundred as the used are to the hosts |
| PoolDetail.AssignedMeaning | dawos_agent/services/ip_pool.py:247-270 | a name lists exactly the sessions whose first holding pool bears it, in their order, each with trimmed address and user name |
| PoolDetail.TotalsMeaning | dawos_agent/services/ip_pool.py:289-299 | the totals are the sums over the pools |
| PoolDetail.AssignSessions | dawos_agent/services/ip_pool.py:247-266 | the loop collects under each name the sessions whose first holding pool bears it, in order |
| PoolDetail.AssignOne | dawos_agent/services/ip_pool.py:249-266 | one session joins the assignments of the first pool that holds it, or of none |
| PoolDetail.MatchPool | dawos_agent/services/ip_pool.py:260-266 | the inner loop finds the first pool that holds the address |
| PoolDetail.AssignedToFirst | dawos_agent/services/ip_pool.py:255-270 | a session is assigned exactly if some pool holds its address, and then to the first |
| PoolDetail.AssignmentsBelong | dawos_agent/services/ip_pool.py:255-270 | every assignment lies in a network of a pool of that name |
| PoolDetail.SessionsConserved | dawos_agent/services/ip_pool.py:272-299 | the total equals the number of held sessions exactly if no session falls in a pool that shares its name |
| PoolDetail.CountedTwice | dawos_agent/services/ip_pool.py:247-299 | two pools of one name and one session give a total of two |
| PoolDetail.ShadowedPoolIsUnused | dawos_agent/services/ip_pool.py:261-266 | a pool nested in an earlier one reports zero used when names are distinct |
| Validator.ValidateConfig | dawos_agent/services/config_validator.py:62-163 | the report of the loop and its helpers, issue by issue |
| Validator.Scan | dawos_agent/services/config_validator.py:86-146 | the line loop: its issues, sections, counts and current section |
| Validator.CheckLine | dawos_agent/services/config_validator.py:96-142 | the issues of one content line |
| Validator.CheckSetting | dawos_agent/services/config_validator.py:178-304 | the checks append faults of this line only, and none exactly if the setting passes the IP and port rules |
| Validator.CheckIpValues | dawos_agent/services/config_validator.py:178-250 | the cascade of network, address, comma and colon checks appends nothing exactly if what looks like an address or a network is one |
| Validator.CheckPortValue | dawos_agent/services/config_validator.py:253-304 | the port checks append nothing exactly if the last piece of a port key, or every port between the commas, lies in 1..65535 |
| Validator.IpProblemsIff | dawos_agent/services/config_validator.py:178-250 | the cascade finds no problem exactly if the declarative address rule holds |
| Validator.PortProblemsIff | dawos_agent/services/config_validator.py:253-304 | the port checks find no problem exactly if the declarative port rule holds |
| Validator.PlainPasses | dawos_agent/services/config_validator.py:178-304 | a value without comma, colon and slash under another key passes exactly if it is an address or does not look like one |
| Validator.EnterSection | dawos_agent/services/config_validator.py:87-94 | a header is counted, and recorded in order when it is new |
| Validator.CheckDuplicates | dawos_agent/services/config_validator.py:324-338 | one warning for each repeated section |
| Validator.Sort | dawos_agent/services/config_validator.py:324-338 | the names in Python's order, each as often as given |
| ValidatorMeaning.ValidMeaning | dawos_agent/services/config_validator.py:62-163 | `valid` holds exactly if no content precedes the first header, a `modules` header exists and every setting obeys the declarative address and port rules |
| ValidatorMeaning.SectionsInOrder | dawos_agent/services/config_validator.py:62-163 | `sections` is the duplicate-free list of headers in order of first occurrence |
| ValidatorMeaning.CountsAddUp | dawos_agent/services/config_validator.py:62-163 | the counts add up to the number of header lines |
| ValidatorMeaning.RepeatWarnings | dawos_agent/services/config_validator.py:324-338 | a warning exists exactly for counts above one, and names the count |
| ValidatorReport.KindsOfLine | dawos_agent/services/config_validator.py:83-94 | which lines are headers, content or skipped |
| ValidatorReport.KeyValueIff | dawos_agent/services/config_validator.py:35-110 | which lines are settings, with which key and value |
| ValidatorReport.AddressShapedIff | dawos_agent/services/config_validator.py:36 | the form of an address: four runs of one to three digits |
| ValidatorReport.CidrShapedIff | dawos_agent/services/config_validator.py:37 | the form of a network: an address form, a slash and one or two digits |
| ValidatorReport.IpProblemIff | dawos_agent/services/config_validator.py:178-250 | which address and network faults are told of a setting, with which value |
| ValidatorReport.PortProblemIs | dawos_agent/services/config_validator.py:253-304 | which port faults are told of a setting, with which key and number |
| ValidatorReport.IssueIff | dawos_agent/services/config_validator.py:79-146 | the report holds exactly: for each content line, by its number and the section it is in, the orphan, the empty value, its faults or the missing separator; the missing `modules`; the repeated sections |
| ValidatorReport.ReportMeaning | dawos_agent/services/config_validator.py:148-163 | the issues of lines come first, by line number; errors and warnings are counted, and valid means no error |
| ValidityKept.ValidAfterEditIff | dawos_agent/services/config_validator.py:62-163 | an edit of a valid file keeps it valid exactly if what it writes passes the rules |
| ValidityKept.ValidKept | dawos_agent/services/config_validator.py:62-163 | an editor that writes passing lines never makes a valid file invalid |
| ValidityKept.EditsKeepValid | dawos_agent/services/config_validator.py:62-163 | limits, delay and pool edits keep every valid file valid |
| ValidityKept.RuntimeValidIff | dawos_agent/services/pppoe_config.py:112-197 | runtime settings keep a valid file valid exactly if the two names pass the IP and port rules |
| ValidityKept.ServiceNameSpoils | dawos_agent/services/pppoe_config.py:112-197 | the service name 300.1.1.1 spoils a valid file |
| ValidityKept.InterfacesValidIff | dawos_agent/services/pppoe.py:72-133 | a rebuild keeps a valid file valid exactly if every rendered binding passes the rules |
| ValidityKept.NamesKept | dawos_agent/services/config_validator.py:62-163 | an edit keeps the validator's sections and their counts |
| Scheduler.SchedulerInvariant | dawos_agent/services/scheduler.py:49-221 | in every reachable state a name has a task exactly if it is an enabled job, that task is its only uncancelled loop, and each registration counts its own completed runs |
| Scheduler.OldRunsStayOld | dawos_agent/services/scheduler.py:49-176 | after a removal and a re-registration, whatever follows, the new count is that of the completed runs begun since |
| SchedulerRuns.AddMeaning | dawos_agent/services/scheduler.py:49-89 | a new name gets a registration with what was given, and a loop of its own if enabled |
| SchedulerRuns.RemoveMeaning | dawos_agent/services/scheduler.py:92-105 | a removal forgets the name and cancels its loop; registrations and runs stay |
| SchedulerRuns.RequestMeaning | dawos_agent/services/scheduler.py:108-123 | a request begins one run under the registration the name has |
| SchedulerRuns.StartMeaning | dawos_agent/services/scheduler.py:179-190 | a live loop goes to sleep when it starts |
| SchedulerRuns.WakeMeaning | dawos_agent/services/scheduler.py:186-193 | in every state of the invariant a live loop that wakes begins exactly one run of the enabled job of its name and awaits it; a cancelled one ends |
| SchedulerRuns.RequestEndMeaning | dawos_agent/services/scheduler.py:160-176 | a run on request that ends updates the registration it began under |
| SchedulerRuns.LoopRunEndMeaning | dawos_agent/services/scheduler.py:160-199 | after a run, successful or not, a live loop sleeps again; a cancelled one takes no result and ends |
| SchedulerRuns.EachWakeRuns | dawos_agent/services/scheduler.py:179-199 | over every run a loop has begun one run for each time it woke while live |
| SchedulerRuns.RegistrationLife | dawos_agent/services/scheduler.py:49-176 | over every run a registration keeps the name, command, interval and switch given to `add_job`, shows the result of its latest completed run and counts them |
| Scheduler.Service.Register | dawos_agent/services/scheduler.py:49-89 | a known name is refused; else the job and, if enabled, its loop |
| Scheduler.Service.Unregister | dawos_agent/services/scheduler.py:92-105 | an unknown name is refused; else the loop is cancelled and the job forgotten |
| Scheduler.Service.RunJob | dawos_agent/services/scheduler.py:108-123 | a run begins under the registration the name has now |
| Scheduler.Service.EndRun | dawos_agent/services/scheduler.py:160-176 | the registration the run began under is updated |
| Scheduler.Service.BeginLoop | dawos_agent/services/scheduler.py:179-199 | the loop's first stretch in place; StartMeaning tells it |
| Scheduler.Service.WakeLoop | dawos_agent/services/scheduler.py:179-199 | the stretch after the sleep in place; WakeMeaning tells that it begins one run |
| Scheduler.Service.ResumeLoop | dawos_agent/services/scheduler.py:179-199 | after a run the loop goes on, or ends if it was cancelled |
| EventBus.Delivery | dawos_agent/events.py:65-127 | over every run, consumed and queued events are the ones published while subscribed, in order, without exactly those published when full |
| EventBus.NothingLost | dawos_agent/events.py:65-127 | offered = consumed + queued + dropped, and the length stays within a positive bound |
| EventBus.SubscribeMeaning | dawos_agent/events.py:65-82 | a fresh queue joins exactly the channels asked for, or the four channels for none, an empty set or `all`; nobody else moves |
| EventBus.MembershipMeaning | dawos_agent/events.py:84-107 | adding, removing and unsubscribing move one queue in the channels they name |
| EventBus.PublishMeaning | dawos_agent/events.py:109-127 | the event goes to the end of exactly the queues of its channel that are below a positive bound, and their number is reported |
| EventBus.Dispatcher.NewSubscription | dawos_agent/events.py:65-82 | a fresh queue in the given channels |
| EventBus.Dispatcher.AddToChannel | dawos_agent/events.py:84-91 | the queue joins the channel, and no other changes |
| EventBus.Dispatcher.RemoveFromChannel | dawos_agent/events.py:93-102 | the queue leaves the channel, if it was there |
| EventBus.Dispatcher.UnsubscribeQueue | dawos_agent/events.py:104-107 | the queue leaves every channel |
| EventBus.Dispatcher.PublishEvent | dawos_agent/events.py:109-127 | the event joins every subscriber queue that is not full, and the result is their number |
| EventBus.Dispatcher.Get | dawos_agent/routers/ws.py:201-208 | the oldest event leaves the queue |
| ControlProtocol.Connection.constructor | dawos_agent/routers/ws.py:151-198 | a new client follows every channel |
| ControlProtocol.Connection.HandleControl | dawos_agent/routers/ws.py:108-148 | the loops over the channels compute the client's channels, the bus and the reply that MessageMeaning tells |
| ControlProtocol.MessageMeaning | dawos_agent/routers/ws.py:108-148 | for every channel: followed after a message exactly if asked for by name or by `all`, or followed before and not given up; the bus moves the client's queue only, and the reply tells the channels |
| ControlProtocol.ReceiveMeaning | dawos_agent/routers/ws.py:108-148 | in every reachable state the bus changes for the sender as told, and for no other client |
| ControlProtocol.LatestMessageDecides | dawos_agent/routers/ws.py:108-198 | over every run, as long as a client stays connected, its latest message about a channel decides |
| ControlProtocol.ComingAndGoing | dawos_agent/routers/ws.py:151-198 | a new client's own queue joins the four channels; a leaving one leaves them all |
| ControlProtocol.ChannelsAgree | dawos_agent/routers/ws.py:108-198 | over every run a client's channels are exactly those that hold its queue, and none after it has left |
| ControlProtocol.NothingAfterLeaving | dawos_agent/routers/ws.py:151-198 | what is published after a client has left never reaches its queue |
| Stat.ParseStat | dawos_agent/services/accel.py:281-332 | uptime and cpu of the latest such line at the margin, and each session counter of the latest line of a `sessions` block that gives it a number; or the defaults |
| StatScan.OnlySessionsBlock | dawos_agent/services/accel.py:284-290 | only the lines of the sessions block and those not indented matter |
| Stat.ParseStatExtended | dawos_agent/services/accel.py:370-461 | it raises exactly if a RADIUS header is not closed; else the same, memory by position, every `core` and `pppoe` counter with the latest number given under its label, and one block per header with its server and the latest value of each field |
| StatScan.ParsersAgree | dawos_agent/services/accel.py:281-461 | whenever the extended parser returns, its uptime, cpu and sessions are the short parser's |
| StatScan.RadiusListed | dawos_agent/services/accel.py:370-488 | it returns exactly if every `radius(` line is closed, and lists one block per such line, fed only by its own indented lines |
| StatMeaning.ShortMeaning | dawos_agent/services/accel.py:281-332 | the two texts and three counters, for every list of lines |
| StatMeaning.ExtraMeaning | dawos_agent/services/accel.py:370-530 | memory, core and pppoe figures: reported exactly if a line of the right kind gives them, with its latest value |
| StatRadius.RadiusMeaning | dawos_agent/services/accel.py:395-575 | one block per header, in order, with id, address and the latest value of every field its own lines give |
| StatRadius.UnitDropped | dawos_agent/services/accel.py:576 | every `ms` goes, from the left, and nothing else |
| Retry.WithRetry | dawos_agent/retry.py:70-136 | the result is the first outcome that is not retried, or the last permitted one; total sleep is base (2^k - 1) and the counter rises by k |
| Retry.RetriesDetermined | dawos_agent/retry.py:103-136 | the outcomes fix the number of retries, and a larger bound changes only runs that used up theirs |
| Retry.RetryMeaning | dawos_agent/retry.py:103-136 | a success is returned exactly if one comes within the bound after transient failures only; a transient failure is raised only when all attempts failed so |
| Retry.TransientIff | dawos_agent/retry.py:40-67 | a message is transient exactly if one of the eight phrases occurs in it in lower case |
| Retry.RetriedIff | dawos_agent/retry.py:103-136 | another attempt follows exactly a `RuntimeError` or `OSError` with such a message |
| Retry.TransientInside | dawos_agent/retry.py:54-67 | the pattern test ignores case and surrounding text |

## Left out

- Characters beyond ASCII: blanks, digits and line breaks of `str.strip`, `\d` and `str.splitlines` are the ASCII ones, and a carriage return with a line feed is one break.
- The `config_path` override, under which an editor reads one file and writes another.
- Message texts, logging, metrics, HTTP, subprocesses, file times, diffs and path resolution; a backup directory is a map from flat names to contents, and clocks are parameters.
- Negative limits and thresholds, which the request schema refuses.
- ConfigManager.Manager.AutoRollbackReload: a reload is "the daemon loads the file, or fails"; whatever else the command does is not modelled.
- ConfigManager.Manager.AutoRollbackWake: checkpoints are copied as bytes and read back as text, which turns a carriage return into a line feed; contents are restored exactly up to that, and so in ConfigManager.RollbackUndone.
- GuardedApply.ConfirmedTask: the moment between the daemon's load of a restored file and the end of the task that asked for it; a restart of the daemon is a reload.
- The order in which cancelled tasks are woken: a cancelled task may end at any later step.
- RepairedApply.PromiseKept: for a protocol in which reloads succeed and only guarded steps write the file; plain writes and rollbacks would overwrite what an apply promised.
- Readings.FoundIff: the lookup fails on a malformed padi-limit value, and then counts as having found the name.
- Scheduler.Service.RunJob: the shell command, its output and the time stamps of a run; a run ends with any result at any later step.
- Scheduler and bus objects hold tasks, job dictionaries and queues by number instead of by reference.
- ControlProtocol.ChannelsAgree: requested channels are strings, and it is not about a connection torn down from outside before its receiver has stopped.
- PoolDetail.GetPoolDetail: the rounding of utilisation percentages, and IPv6 sessions, which never match an IPv4 pool.
- Ipv4 octets follow the rule of Python 3.9.5 and later, which refuses leading zeros.
- Issue texts of the validator are constructors of a datatype.
- Session history, the other accel-ppp commands, RBAC, bulk operations and audit filtering.
