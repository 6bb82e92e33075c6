# wakehub: a verified model

wakehub wakes, shuts down and watches machines. A server keeps a configuration file, a map of connected clients, a set of
broker (Bemfa) subscriptions and a scheduler; a client on each machine receives power commands and reconnects when it is
cut off. This project models the parts of it where an interleaving, an in-place update or an edge case decides whether
it works, and proves what they guarantee.

`dafny verify dfyconfig.toml` checks everything. Modules come in pairs where the program changes state: `…Model` holds
the transition system or the functions that say what an operation means, with the theorems about them; the module beside
it holds the classes and methods that do it step by step and are proved against those functions.

| module | models |
|---|---|
| `Protocol`, `RequestId`, `Json` | messages, the client's reading of the first answer, request ids, messages as JSON text |
| `HubModel`, `Hub` | the server hub: any number of connections, each goroutine cut where it takes a lock, writes or waits |
| `HubAdmit`, `HubFields`, `HubWire` | who is let in; where the fields of a hub entry come from; what a connection carries and what its client makes of it |
| `ControlModel`, `Control` | one client process: dedupe by request id, acknowledge, run, report, prune |
| `EndToEnd`, `Delivery` | hub, cut channels with loss and redelivery, and client processes together; that shutdowns arrive and can be run |
| `Slices`, `Config`, `StoreModel`, `StoreEffects`, `Store`, `StoreRuns` | Go slices over shared backing arrays, the stored records, the store, what each operation leaves field by field, whole runs of it beside copies and slices that callers hold |
| `ScheduleModel`, `ScheduleCalls`, `Schedule` | the scheduler: ticks over a copy, firings and their calls, marks, edits in between |
| `BemfaModel`, `Bemfa` | the topic map of the broker manager, edited and recomputed |
| `ServiceModel`, `Verdicts`, `FromClientModel`, `Service` | the device service over store and manager: agreement of the maps, and which requests are accepted |
| `Password`, `OpenConfig` | password hashing and the opening of a configuration file |
| `Reconnect`, `Quote`, `Systemd`, `Version`, `Audit`, `Probe`, `Text` | reconnect loop, command quoting and its three readers, versions, audit ring, probe notifications, string operations |

Input and output, the broker, the clock, random ids and salts are parameters or events: a theorem over all runs is a
theorem over everything they may do. Time stamps are integers; a schedule's last day is a day number, and a local clock is
seconds since the epoch without jumps.

## What turned out different from what one might expect

* Two (key, stamp) pairs can share a request id when a stamp is negative; `RequestId.CollisionsExactly` says when.
* A request id can run twice within ten minutes: when a message with an id more than ten minutes old comes between a
  prune's look at the old entry and its delete, the delete hits the new entry. `ControlModel.CommandsOfOneIdApart` proves
  that nothing else can do it, `ControlModel.RepeatPossibleIff` that it is exactly then that a repetition is possible, and
  `ControlModel.RaceIsReachable` that it can happen. Copies that arrive within ten minutes are safe (`EndToEnd.EachIdRunsOnce`).
* A reader of a superseded connection goes on writing into its successor's entry. `HubFields.FieldsFollowWrites` says what
  each field of an entry shows in every reachable state, `HubFields.EntryFieldIsOwnIff` when it is the held connection's own;
  `HubModel.StaleReaderWritesNewerEntry` shows that the other case occurs.
* A control message can reach the client before `hello_ok` (in the model a pong too, see below); it is then lost and the client retries, unless the key
  itself contains the text `hello_ok`. `HubWire.FirstMessageIff` and `Reconnect.SessionFollowsWire` say exactly when;
  `Reconnect.ControlMayComeFirst` shows that it occurs.
* The store keeps the member slice a caller hands to it. After a later delete the caller reads the same exactly when the
  deleted id stood at the end of its members only (`StoreRuns.CallerSeesCompaction`).
* The topic map edited by single operations goes wrong when devices share a topic, when an enabled device whose stored
  topic is not in normal form (`pc-001`) is updated, when an update is refused for a blank name after it released the old
  topic, and when a create or an update is stored but not subscribed. `ServiceModel.CreateAgrees`, `UpdateAgrees`,
  `DeleteAgrees`, `RefusedUpdateReleases`, `HalfwayCreateAgrees` and `HalfwayUpdateAgrees` give the exact conditions.
* Adding a device from a client twice makes two devices exactly when key and MAC both carry outer white space
  (`FromClientModel.PicksAgainIff`).
* Opening a configuration that names no password hashes the default anew every time without saving it
  (`OpenConfig.OpenTwice`).
* A quoted Windows argument is changed by a backslash before a quote or at the end (`Quote.WinRoundTripIff`,
  `Quote.WindowsCommandReadsIff`).
* A path quoted for the Unix service survives the POSIX shell whatever it is, but the line is written into a systemd unit,
  which rewrites backslashes and some `%` and `$` inside single quotes too and refuses some executables
  (`Systemd.SystemdRoundTripIff`, `SystemdCommandIff`).
* A probe notification delivered late can contradict the status cache (`Probe.LastDeliveryAgreesIff`).
* `dev` and `unknown` are each newer than the other (`Version.MutuallyNewer`).

## Model

| member | source | states |
|---|---|---|
| RequestId.CollisionsExactly | internal/clientlink/hub.go:116 | over all keys and all integer stamps, when two ids coincide |
| RequestId.Injective | internal/clientlink/hub.go:116 | with non-negative stamps an id determines key and stamp, dashes and digits in keys included |
| HubModel.OnlineIsLatest | internal/clientlink/hub.go:86-94 | in every reachable state a key is online exactly when its latest registration has not been torn down, and the map holds that connection |
| HubModel.OlderReadersClosed | internal/clientlink/hub.go:180-185 | a running reader has been closed by the hub exactly when it is not the latest registered for its key |
| HubModel.OnlyAdmitted | internal/clientlink/hub.go:150-163 | whoever got past the greeting presented a key and the token in force at that moment |
| HubAdmit.GreetingDecides | internal/clientlink/hub.go:148-163 | in every run a greeting leaves its connection admitted with the hello it read exactly when the hello has a key and no token is in force or it is the hello's; otherwise closed, with at most the refusal that says what was wrong |
| HubAdmit.AdmittedIff | internal/clientlink/hub.go:150-163 | a connection is admitted exactly when some greeting of it met that condition at its moment |
| HubModel.StaleReaderWritesNewerEntry | internal/clientlink/hub.go:237-251 | a witness for the other case of HubFields.EntryFieldIsOwnIff: a reachable state in which an entry's last event stems from a superseded connection |
| HubFields.FieldsFollowWrites | internal/clientlink/hub.go:166-251 | in every reachable state each field of an entry shows what the last event of its key that writes the field put there, whichever connection that was |
| HubFields.EntryFieldIsOwnIff | internal/clientlink/hub.go:180-251 | a field of an entry comes from the connection the entry holds exactly when that connection's own last write of it was the last of the key; registration data always does |
| HubWire.OutboxIsSent | internal/clientlink/hub.go:107-187 | in every reachable state a connection carries exactly the messages the run put on it, in order |
| HubWire.FirstMessageIff | internal/clientlink/hub.go:180-187 | an admitted connection's first message is not hello_ok exactly when a control message or a pong was written before hello_ok |
| HubWire.FirstAnswer | internal/clientapp/protocol.go:61-98 | in every reachable state, what the client makes of the first message by its own text: fatal when refused; welcome or retry by what came first and by the key |
| Json.ControlMentions | internal/clientapp/protocol.go:92-96 | the text of a control message contains hello_ok exactly when the key it was issued for does |
| Json.MessageReadsBack | internal/clientlink/hub.go:117-133 | reading the JSON text of any server message gives back its fields |
| Protocol.ErrorsClassified | internal/clientapp/protocol.go:71-91 | which errors end the client for good: by their code, or by their text in any mix of cases, and the code it gives up with |
| HubModel.Reachable | internal/clientlink/hub.go:141-268 | the map follows the run, readers are closed as told, control messages are on the wire of the key they were issued for |
| Hub.ClientHub.Greet | internal/clientlink/hub.go:148-163 | admitted exactly with a key and, where one is configured, the token; which error is written otherwise, and the close |
| Hub.ClientHub.Register | internal/clientlink/hub.go:164-186 | closes the connection that held the key and maps the key to the new one |
| Hub.ClientHub.Teardown | internal/clientlink/hub.go:262-266 | removes the entry only if it still holds this connection |
| Hub.ClientHub.HandlePing | internal/clientlink/hub.go:214-236 | which fields of the entry under the key a ping rewrites |
| Hub.ClientHub.HandleAck | internal/clientlink/hub.go:237-251 | how a report rewrites the entry under the key |
| Hub.ClientHub.LookupConn | internal/clientlink/hub.go:108-113 | the connection the key has now, or none |
| Hub.ClientHub.WriteControl | internal/clientlink/hub.go:114-122 | the message written later to the connection found, its id, and the failure of a closed connection |
| Hub.ClientHub.SendControl | internal/clientlink/hub.go:107-123 | the two in sequence: the message, its id, and the failure when the key is not online |
| ControlModel.CommandsOfOneIdApart | internal/clientapp/shutdown.go:21-82 | over every run, two commands run for one non-empty id stem from messages received more than ten minutes apart, unless the earlier one came between a prune's look and its delete, and then the id was more than ten minutes old already |
| ControlModel.RepeatPossibleIff | internal/clientapp/shutdown.go:23-82 | a message just accepted can be accepted again within ten minutes exactly when a prune is about to delete its id |
| ControlModel.OnlyRepeatsRefused | internal/clientapp/shutdown.go:23-31 | a message is refused as a duplicate only after one with its id was accepted |
| ControlModel.ReportsOfOneCall | internal/clientapp/shutdown.go:25-63 | each message is answered by exactly one accepted or duplicate attempt, and an outcome follows only an acceptance, once |
| ControlModel.OutcomeIsTrue | internal/clientapp/shutdown.go:44-63 | executed is reported only of a command that ran through and an error only of one that failed |
| ControlModel.OutcomesNeverOutnumber | internal/clientapp/shutdown.go:36-63 | acceptances equal outcomes plus commands under way, in every reachable state |
| Control.Handler.HandleControlMsg | internal/clientapp/shutdown.go:21-47 | the handler's table and attempts change as the transition system says |
| Control.Handler.Look | internal/clientapp/shutdown.go:77 | whether an entry is older than the cutoff |
| Control.Handler.Forget | internal/clientapp/shutdown.go:78 | the id leaves the table whatever its entry has become |
| Control.Handler.Prune | internal/clientapp/shutdown.go:74-82 | with nothing in between, looking and deleting entry by entry forgets exactly the ids older than ten minutes |
| EndToEnd.CommandsComeFromShutdowns | internal/clientapp/session.go:94-100 | every command a process runs carries the id of a shutdown issued to its key on a connection it opened; a restart runs nothing |
| EndToEnd.EachIdRunsOnce | internal/clientapp/shutdown.go:21-64 | no id runs twice in any processes when stamps per key increase and copies arrive within ten minutes |
| Delivery.DeliveryIsHandled | internal/clientapp/session.go:82-107 | a delivered shutdown is taken in by the owner of the connection, once, with its id, time and origin, whatever the id; any other message changes nothing |
| Delivery.DeliveredCanRunIff | internal/clientapp/shutdown.go:21-64 | in every reachable state a delivered shutdown can be run in some continuation exactly when its id is blank or not in the table of the process |
| Delivery.IssuedCanRunIff | internal/clientlink/hub.go:107-123 | a shutdown the hub has issued on a live session can be delivered to the process that has the key, at any time, and run under that condition |
| Delivery.ShutdownGetsThrough | internal/clientapp/session.go:38-107 | for every token, key and stamp some run issues the shutdown, delivers it and runs its command |
| Slices.Compact | internal/config/store.go:472-484 | the in-place loop leaves the order-preserving filter and says whether it dropped anything |
| Slices.SeenSameIff | internal/config/store.go:472-484 | what a second header on a compacted array reads, and that it is unchanged exactly when nothing kept stood after something dropped |
| Slices.CompactBeside | internal/config/store.go:488-492 | compacting in place through one header, as seen through another |
| Slices.CompactTwice | internal/config/store.go:486-494 | dropping from two lists that share an array, one after the other: the first comes out right, the second exactly when what the first one dropped stood at its end, or when it is short and drops nothing itself |
| StoreModel.RunsStayWellFormed | internal/config/store.go:424-672 | over every run with fresh ids, ids stay unique and non-empty and device and schedule fields in range |
| StoreModel.InsertionNeedsFreshId | internal/config/store.go:424-641 | an accepted insertion of a device, a group or a schedule keeps the store well-formed exactly when its random id is fresh |
| StoreModel.DeviceGoneEverywhere | internal/config/store.go:469-496 | a delete removes exactly the device, keeps the order, and leaves no group mentioning it; a failed lookup changes nothing |
| StoreEffects.UpsertSchedule | internal/config/store.go:599-641 | after any run, a schedule is accepted exactly with a name, a known action and a target, and every field of what is then stored, in the slot of its id |
| StoreEffects.UpsertedIsFound | internal/config/store.go:599-641 | it is found under its id with these fields, unless inserted under an id that was taken |
| StoreEffects.ScheduleFaults | internal/config/store.go:602-614 | why a schedule is refused, first things first |
| StoreEffects.UpsertDevice | internal/config/store.go:424-467 | after any run, a device is accepted exactly with a name and a MAC, and every field of what is then stored, defaults and times included |
| StoreEffects.UpsertGroup | internal/config/store.go:521-555 | after any run, a group is accepted exactly with a name, and every field of what is then stored |
| StoreEffects.DropsOne | internal/config/store.go:557-672 | deleting a group or a schedule removes exactly it |
| StoreEffects.MarksOne | internal/config/store.go:643-653 | a mark writes the day into the first schedule with the id and nothing else |
| Store.ConfigStore.SaveLocked | internal/config/store.go:680-693 | a successful save leaves the file equal to memory, a failing one leaves the file alone |
| Store.ConfigStore.UpsertDevice | internal/config/store.go:424-467 | accepted exactly when complete and saved; the stored list, the answer and the file, for every refusal and save outcome |
| Store.ConfigStore.DeleteDevice | internal/config/store.go:469-496 | devices filtered, members filtered in every group, file equal to memory or untouched |
| Store.ConfigStore.UpsertGroup | internal/config/store.go:521-555 | the stored groups; the result shares the caller's member slice, which may be the one the group already has |
| Store.ConfigStore.DeleteGroup | internal/config/store.go:557-574 | groups filtered in place, file equal to memory or untouched |
| Store.ConfigStore.UpsertSchedule | internal/config/store.go:599-641 | accepted exactly when complete and saved; when complete, what was asked for is stored, an empty last day keeping the stored one |
| Store.ConfigStore.MarkScheduleRun | internal/config/store.go:643-653 | the day is marked in memory even if the save fails |
| Store.ConfigStore.DeleteSchedule | internal/config/store.go:655-672 | schedules filtered in place, file equal to memory or untouched |
| Store.ConfigStore.Snapshot | internal/config/store.go:288-302 | the copies equal the lists and lie in arrays of their own, member slices included |
| Store.ConfigStore.ListDevices | internal/config/store.go:407-411 | a copy in an array of its own |
| Store.ConfigStore.GetGroup | internal/config/store.go:509-519 | the first group with the id, with a member slice of its own |
| StoreRuns.PlayAll | internal/config/store.go:424-693 | after any sequence of operations, with any outcome of the saves, the lists are those of StoreModel.Run and the file is the memory after the last operation that was saved |
| StoreRuns.CopiesOutliveAll | internal/config/store.go:288-302 | a snapshot, listed devices, groups and schedules and a single group read the same after any sequence of operations |
| StoreRuns.CallerSeesCompaction | internal/config/store.go:545-554 | what the caller of a group upsert reads in its member slice after a device delete, and exactly when it reads the same as before |
| ScheduleModel.AtMostOncePerDay | internal/schedule/runner.go:57-73 | over every run, a schedule never deleted and whose last day nobody else rewrites fires at most once on any day |
| ScheduleModel.FiresIffTicked | internal/schedule/runner.go:52-73 | with its timing left alone it fires on a matching day exactly when a tick falls into its minute |
| ScheduleModel.ExactlyOncePerMatchingDay | internal/schedule/runner.go:38-98 | with ticks at most sixty seconds apart around its minute it fires exactly once |
| ScheduleCalls.FiringsComeFromSchedules | internal/schedule/runner.go:52-98 | over every run each firing stems from a schedule the last tick found due in the store, and its call goes to that schedule's group or else device, a wake exactly for the action wake |
| ScheduleCalls.WakeOrShutdown | internal/schedule/runner.go:75-98 | the store admits no third action, so that each firing is a wake of a wake schedule or a shutdown of a shutdown schedule |
| ScheduleCalls.OneCallPerMatchingDay | internal/schedule/runner.go:38-98 | with ticks at most sixty seconds apart a matching day sees exactly one firing, with the call of the schedule as that tick listed it |
| ScheduleModel.SlotIsReading | internal/schedule/runner.go:53-66 | a moment shows the hour, minute and day of a timing exactly when it lies in that minute |
| Schedule.ContainsInt | internal/schedule/runner.go:112-119 | membership |
| Schedule.TickIsFireAndMarkEach | internal/schedule/runner.go:57-98 | playing fire and mark one by one is what a tick does at once |
| Schedule.Runner.Tick | internal/schedule/runner.go:52-73 | the store and the firings after a tick over a copy of the schedules |
| Schedule.Runner.Fire | internal/schedule/runner.go:75-98 | one call, to the group or else the device, a wake exactly for the action wake; and the mark, whatever the actor answers |
| BemfaModel.ValidTopicIsNormal | internal/bemfa/manager.go:505-527 | a valid topic normalizes to a text that normalizing leaves alone |
| BemfaModel.TopicIs | internal/bemfa/manager.go:519-527 | which characters a normalized topic has lost, and that the others keep their order |
| BemfaModel.UidIs | internal/bemfa/manager.go:550-561 | which characters a sanitized user id has lost, and that the others keep their order |
| BemfaModel.WantedIsLastHolder | internal/bemfa/manager.go:317-326 | the recomputed map gives each topic to the last enabled device that holds it |
| BemfaModel.HolderHolds | internal/bemfa/manager.go:318-326 | the last holder is enabled and has the topic, and BemfaModel.NoHolderAfter: no later device does |
| BemfaModel.SyncsReachWantedIff | internal/bemfa/manager.go:317-338 | any number of syncs reaches the recomputed map exactly when each wanted topic was mapped right at the start or could be subscribed in one of them |
| Bemfa.Manager.SyncLocked | internal/bemfa/manager.go:317-338 | the map after a sync; no broker traffic when nothing differs; handlers carry the mapped ids |
| Bemfa.Manager.Reconfigure | internal/bemfa/manager.go:183-226 | same sanitized user id and running: sync; otherwise closed and started afresh; no handle, no topics |
| Bemfa.Manager.EnsureDevice | internal/bemfa/manager.go:228-289 | the device's final topic, the map and the refusal |
| Bemfa.Manager.SubscribeLocked | internal/bemfa/manager.go:340-368 | one entry changes; a topic already mapped to the id causes no traffic |
| Bemfa.Manager.RemoveDevice | internal/bemfa/manager.go:291-298 | the device's topic leaves the map, whoever it was mapped to |
| Bemfa.Manager.CloseLocked | internal/bemfa/manager.go:307-315 | no handle and no topics |
| ServiceModel.CreateAgrees | internal/device/service.go:137-151 | after a successful create the edited map is the recomputed one unless the device is disabled and names a topic in use |
| ServiceModel.UpdateAgrees | internal/device/service.go:153-178 | after a successful update the maps agree exactly when a condition holds that the caller can check before |
| ServiceModel.DeleteAgrees | internal/device/service.go:180-186 | after a delete the maps agree exactly when no other enabled device holds the topic |
| ServiceModel.RefusedUpdateReleases | internal/device/service.go:167-173 | an update refused for a blank name or MAC stores nothing, yet has released the old topic |
| ServiceModel.HalfwayUpdateAgrees | internal/device/service.go:153-178 | from the request, the map and the environment: when an update stops after storing in memory because it was not saved or not subscribed, and exactly when the maps then agree |
| ServiceModel.HalfwayCreateAgrees | internal/device/service.go:137-151 | the same for a create: it has appended the device all the same, and the maps agree exactly when it is disabled or was left without a topic |
| ServiceModel.SecondSaveOfCreate | internal/device/service.go:145-151 | a failing second save changes the answer only, so that the condition for success applies |
| ServiceModel.SecondSaveOfUpdate | internal/device/service.go:172-178 | the same for an update |
| Verdicts.CreateVerdict | internal/device/service.go:137-151 | a create is answered exactly when it names the device and its MAC, both saves succeed and, if enabled, the uid is set, the topic is blank or well-formed and the manager can subscribe it; otherwise the refusal is the first thing wrong |
| Verdicts.UpdateVerdict | internal/device/service.go:153-178 | the same for an update of a known device, on the map it meets after releasing the old topic; an unknown one is refused |
| Verdicts.CreateMakes | internal/device/service.go:137-151 | an answered create appends the device asked for, with every field |
| Verdicts.UpdateMakes | internal/device/service.go:153-178 | an answered update puts it in its slot with every field, keeping id and creation time |
| Verdicts.DeleteTakes | internal/device/service.go:180-186 | a delete takes exactly the device out of the list and its topic out of the map |
| ServiceModel.RunsAgree | internal/device/service.go:137-186 | over every run of succeeding operations with topics kept apart the edited map is the recomputed one |
| Service.DeviceService.CreateDevice | internal/device/service.go:137-151 | store and manager after a create, for every refusal and save outcome |
| Service.DeviceService.UpdateDevice | internal/device/service.go:153-178 | store and manager after an update, in the order the calls are made |
| Service.DeviceService.DeleteDevice | internal/device/service.go:180-186 | store and manager after a delete |
| Service.DeviceService.OnSettingsChanged | internal/device/service.go:390-394 | the hub has the new token; when the manager is connected afterwards and with which map |
| Service.DeviceService.FromClient | internal/device/service.go:336-388 | the first match in list order is updated, otherwise a device is created |
| FromClientModel.OneDeviceStored | internal/device/service.go:336-388 | exactly one device is stored, in the slot of the first match or at the end, and the map is edited at its topics only |
| FromClientModel.FillingIs | internal/device/service.go:341-365 | name, MAC, interface and broadcast that a client's device is filled with |
| FromClientModel.FromClientMakes | internal/device/service.go:336-388 | an answered call has stored the match with these fields replaced, or a new device with them and the defaults |
| FromClientModel.PicksAgainIff | internal/device/service.go:363-375 | a second identical call picks the same device exactly when the key or the MAC is trimmed |
| FromClientModel.FromClientTwice | internal/device/service.go:336-388 | then the second call gives the same list up to timestamps and the same map |
| Password.MigrationKeepsCandidates | internal/config/password.go:29-60 | hashing a plain password accepts the same candidates, for an ideal hash |
| Password.MigrationOnce | internal/config/password.go:42-60 | when a stored password is replaced, and that it is replaced once |
| Password.AcceptedCandidates | internal/config/password.go:29-39 | which candidates a hash, a plain password and a blank one accept |
| Password.HashLooksIff | internal/config/password.go:12-17 | what is taken for a hash |
| Password.SubtleConstantEqual | internal/config/password.go:67-76 | collecting the differing bits decides equality |
| OpenConfig.OpenTwice | internal/config/store.go:138-187 | a second open writes nothing and accepts the same passwords; the state is the same exactly when the file names its password or the default is hashed alike |
| OpenConfig.SavedIsFixed | internal/config/store.go:216-252 | a saved, normalized file opens as what was in memory |
| OpenConfig.OpenKeepsPassword | internal/config/store.go:156-187 | the candidates accepted after opening are those of the password in the file, or the default where there is none |
| OpenConfig.OpenedFields | internal/config/store.go:138-252 | every setting, the version and the lists of an opened file by what the document names; a legacy document ends with authentication on |
| OpenConfig.OpenedDefaults | internal/config/store.go:138-187 | the same for a missing or empty file |
| OpenConfig.NormalizeDevicesInPlace | internal/config/store.go:245-247 | the loop normalizes each device once |
| OpenConfig.NormalizeSchedulesInPlace | internal/config/store.go:248-250 | the loop normalizes each schedule once |
| Config.NormalizeDevice | internal/config/store.go:254-274 | the result is in range, and a device in range is left alone |
| Config.NormalizeSchedule | internal/config/store.go:276-284 | the result is in range, and a schedule in range is left alone |
| Reconnect.RetryWait | internal/clientapp/run.go:57-89 | the k-th unauthenticated retry waits between min(3 * 2^k, 60) seconds and 1.2 times that; an authenticated session resets it |
| Reconnect.Run | internal/clientapp/run.go:57-89 | the waits and the end of the loop over any sequence of sessions |
| Reconnect.WithJitter | internal/clientapp/backoff.go:27-39 | the wait lies between the delay and the delay plus the percentage |
| Reconnect.JitterReaches | internal/clientapp/backoff.go:27-39 | every share from none to the whole percentage occurs |
| Reconnect.SessionFollowsWire | internal/clientapp/protocol.go:61-98 | in every reachable hub state, how the session of a connection's client ends: refused for good, authenticated, or retried |
| Reconnect.RefusalIsFinal | internal/clientapp/run.go:57-89 | in every hub run, a client that reads the refusal of its connection runs no further session, and the code is one of the fatal ones |
| Reconnect.ControlMayComeFirst | internal/clientlink/hub.go:180-187 | a witness for the retry case of Reconnect.SessionFollowsWire: a reachable state whose first message is a control message |
| Quote.ShellRoundTrip | internal/clientapp/quote.go:36-41 | POSIX word splitting and quote removal undo ShellQuote for every text |
| Quote.UnixCommandReads | internal/clientapp/quote.go:9-22 | the Unix command reads as exactly four words, whatever the paths are |
| Systemd.SystemdRoundTripIff | internal/clientapp/quote.go:35-41 | systemd reads a quoted text back exactly when it has no backslash and no line end, no percent or dollar sign in it is doubled or starts a specifier or a variable, and, by the manual's stricter rule, it has no single quote |
| Systemd.SystemdCommandIff | internal/service/service_unix.go:31-45 | the ExecStart line starts the executable with exactly its four arguments exactly when the path is such a text and the executable is one that ExecStart takes: absolute or without slashes, no directory, no prefix, no quote, backslash, control character, doubled or starting sign |
| Quote.WinRoundTripIff | internal/clientapp/quote.go:25-33 | the Microsoft C rules read a quoted text back exactly when it needs no quotes or its backslashes keep their meaning |
| Quote.WindowsCommandReadsIff | internal/clientapp/quote.go:9-16 | with every word read as an argument, the Windows command is exactly four of them exactly when the executable, if quoted, has no backslash before a quote or at its end, and the path reads back alone |
| Quote.WindowsProgramIff | internal/clientapp/quote.go:9-16 | with the first word read as a program name, as the Microsoft C startup code does, exactly when the executable has no quote in it and the path reads back alone |
| Version.ParsedPrinted | internal/clientapp/update.go:232-246 | reading undoes printing for every triple, whatever follows the last number |
| Version.SplitVer | internal/clientapp/update.go:232-246 | the nested loops compute the parsed triple |
| Version.IsNewerVersion | internal/clientapp/update.go:210-230 | the loop decides the relation, markers included |
| Version.NewerIsOrder | internal/clientapp/update.go:210-230 | over all strings: irreflexive, transitive up to the two markers, and outside them total up to equal triples |
| Version.NewerByNumbers | internal/clientapp/update.go:210-230 | among printed versions the greater major number decides, then the minor, then the patch |
| Version.MutuallyNewer | internal/clientapp/update.go:213-215 | which two builds are each newer than the other |
| Audit.Ring.Add | internal/audit/log.go:42-56 | the circle holds the latest entries of the whole history |
| Audit.Ring.List | internal/audit/log.go:59-74 | the newest entries first, as many as asked for, added and kept |
| Audit.NewestAt | internal/audit/log.go:69-73 | which entry of the history stands where in a listing |
| Probe.NoticesAreFlips | internal/probe/probe.go:188-230 | over any order of updates, a device's notifications are its first result and each flip |
| Probe.NoticesTellCache | internal/probe/probe.go:42-48 | they alternate, exist once there is a result, and the last one tells the cached status |
| Probe.NoticeAgreesIff | internal/probe/probe.go:207-210 | a notification tells the cached status exactly when an even number of notifications about the device follow it |
| Probe.LastDeliveryAgreesIff | internal/probe/probe.go:207-210 | in every run, deliveries in any order, the same for the delivery about a device that came last |
| Probe.TickLeavesFresh | internal/probe/probe.go:188-212 | after a tick every active device has a result younger than its interval, whatever forced probes came between, if none of their results was fifteen seconds old when the tick began |
| Probe.TickProbes | internal/probe/probe.go:188-212 | an undisturbed tick probes exactly the devices with a method set whose result is missing or as old as their interval, once each |
| Probe.StatusCache.Set | internal/probe/probe.go:42-48 | the cache holds the last result of each device and the previous one is returned |
| Probe.Runner.Tick | internal/probe/probe.go:188-212 | the updates of a tick, in order, and what was notified |
| Probe.Runner.ProbeDevice | internal/probe/probe.go:215-230 | a forced probe is recorded and notified like any other |

## Left out

- Transport: WebSocket, MQTT, HTTP, mDNS and webhook delivery are nondeterministic success, failure, loss and redelivery.
- Hashing, random ids and salts, the JSON text of the file: an ideal hash, fresh ids and a lossless save of the record are assumed where a theorem says so. Bytes that are no text are not in the model's strings, so their replacement in messages is left out.
- Text: white space is Go's, case folding covers ASCII letters only.
- Clock: no daylight saving jumps and no steps backwards; days are numbers counted from the epoch.
- Control.Handler.Prune: runs with nothing in between; ControlModel has the interleaved steps.
- ControlModel.CommandsOfOneIdApart: the time between messages is that of the stamps taken when they are looked up in the table, not of the commands' ends.
- Store.ConfigStore.UpsertGroup: the caller's member slice must not be in use by another stored group, as the store keeps the slice itself; what a delete makes of two lists on one array is `Slices.CompactTwice`.
- Store.ConfigStore.Snapshot: a schedule's weekdays are values here, so that they cannot be shared at all.
- Hub.ClientHub.SendControl: its look-up and its write are separate events in HubModel; the method runs them one after the other.
- Quote.ShellRoundTrip: operators, expansions, patterns and comments outside quotes are not read but rejected; the quoted text contains none.
- Systemd.SystemdRoundTripIff: what a specifier or a variable stands for, and a line continued after a backslash, are not read but rejected; every percent sign before a letter or digit counts as a specifier and every dollar sign before a brace as a variable. A byte given by number is the character of that number. Length limits are left out.
- HubWire.FirstMessageIff: a pong before hello_ok needs a failed write of hello_ok and a later one that succeeds; the WebSocket library refuses every write after a failed one, so that the model allows more here than happens.
- Json.MessageReadsBack: the reader takes flat objects of strings and no surrogate pairs, which covers every server message of the model.
- Reconnect.Run: overflow of durations; the seed is any integer.
- Version.SplitVer: numbers are unbounded, the code's are 64 bits wide.
- Probe.Runner.Tick: what a probe finds is a parameter, and so are the choice of its target and the probes of other goroutines in between; an update and its notice are one step here, the delivery is an event of its own in Probe.LastDeliveryAgreesIff.
- Bemfa.Manager.EnsureDevice: creating a topic is tried through four interfaces and its failure does not stop the subscription; only the subscription is modelled. Sanitizing of names, logs and last errors are left out.
- OpenConfig: the backup copy, and reading a file that appears between the checks. The settings other than those with defaults are carried through unread.
- Settings edits, REST handlers, user interface, packaging, self-update download, service control, Magic Packets and log rotation: operating-system calls and plumbing, or settled by reading one branch.
