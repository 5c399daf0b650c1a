# Proofs about netcli, its init and its loader

This project models the parts of the router that decide something and proves what they decide.
The core is `netcli`, the configuration engine: a change is normalised, validated, applied to the
kernel as a series of commands, recorded, and rolled back when applying fails. Around it stand the
printers, parsers and translators that are meant to preserve meaning, and two older pieces with
state of their own: the session machine of NetBSD's `init` and the line reader of the FreeBSD loader.

| module | models |
|---|---|
| `Basics`, `Addresses`, `Config` | byte strings and decimal numbers; addresses as family and value with prefix lengths (section 3.1 of RFC 4632); the configuration, its normal form, its validity |
| `Kernel`, `EffectiveConfig`, `Agreement`, `SlotSteps`, `Bridging`, `Apply` | the kernel the commands act on, the commands, and the applier that issues them |
| `Manager`, `RevertTimer`, `RevertWatchdogs`, `RevertOutcomes`, `RevertRuns`, `LineDiff` | change, replace, boot, save and erase with rollback; the watchdog protocol and what it ends in; the diff of two configurations |
| `AccessList`, `Masks`, `AceText`, `AceMeaning`, `AclEdit`, `Npf`, `Services` | access lists: meaning, text, what the words mean, editing, translation to NPF groups; netmasks; what the daemons are configured with |
| `Tokenizer`, `CommandTree` | splitting and quoting a line, abbreviated keywords, completion |
| `Commands`, `CommandMeaning`, `ConfigText`, `Typing`, `ReplayInterface`, `ReplaySections`, `Replay` | the configuration commands, what they do to what is there, the printed configuration, and what executing the text recreates |
| `Counterexamples` | valid configurations for which a promise fails: changes the applier does not carry out, a text that does not recreate its configuration |
| `InitSessions` | the session list, the process database and the states of `init` |
| `LineReader` | the chunked reader of the loader's support words |

## How the results fit together

**Applying.** Each command of the applier either has its effect on the model kernel or leaves it
alone. Which of the two happens, and with which message, is decided by an arbitrary function of the
command's position (`Step.replies`), so that every theorem covers every pattern of failures.
`Agreement.Between(o, w, k)` says that a kernel is part of the way from one configuration to another;
it is symmetric. The applier keeps it whatever fails, and ends in `Realises(w)` when it reports
nothing. Convergence, and rollback after any partial failure, are the same theorem read in both
directions. A failure in one of the five phases does not stop the others (`UnfinishedAtMost`). A
failure whose message is tolerated although the kernel was not in the state the message suggests
("exists" for something that does not exist) is counted in the ghost field `lies`; the claims about
the kernel are made where none occurs. On a kernel that obeys and realises the old configuration, `Apply.Exactly` is the whole truth: something is refused if and
only if there is a clash of bridges (`Bridging.ClashMeans`: a member moves to a bridge that is
configured before the one it leaves), and the new configuration is realised if and only if there is
none and the side conditions on the change (`Gentle`) hold. For bridges that compare equal, which may
be configured in either order, both halves are stated apart. `Counterexamples` has valid
configurations for each way to fail. `DeletionExact` and `RouteDeletionExact` say the same of the
conditions on each configuration alone. Interfaces that the system looks after, like lo0, cannot be
configured; they may be in any state, and nothing touches them.

**Recording.** `Manager.Stepped` is the transition relation of the manager. The methods of the class
refine it, and the run lemmas (`AlwaysRecorded`, `StaysInStep`) speak about every sequence of
operations with every outcome. `RollBack` and `Commit` also say which outcome it is: a kernel that
obeys from the end of a failed attempt on is brought back, unless hardware is missing or bridges clash
on the way back. Booting adds and replaces, but takes nothing away: `BootExact` and
`NothingElseExact` say exactly when the record describes the kernel after a boot that reports
nothing, `RebootInStep` says it of a second boot in terms of the running and the startup
configuration, and `Counterexamples.BootTwice` is a run in which it does not.

**Revert timer.** `ArmRevert`, `ConfirmRevert`, `RevertNow`, the status poll and the watchdogs take no
lock, so one step of `RevertTimer.Next` is one check, signal, write or removal of one process, and any
number of clients and watchdogs interleave. A new timer can then end up without a snapshot:
`ExposedExact` says exactly from which states that can still happen, `ArmingExact` and `ClearingExact`
exactly when beginning an operation makes it possible, and `RearmRace` is a run in which one command
line and one watchdog do it. In the interleavings in which nobody arms beside another client or a
waking watchdog (`Crowded`), files and processes fit together (`AlwaysConsistent`), only the watchdog
in the state file restores anything, the snapshot stays until it is cleared, and a confirmed timer
never fires. For all interleavings, `StrayExact`, `ReplacedExact`, `ClearedExact` and `ConfirmExact`
say exactly when that may not be so; `ConfirmOvertaken` and `SnapshotOverwritten` are runs.
`RevertRestores` pins what an immediate revert puts back in every interleaving; what each use of the
timer ends in when left alone is in `RevertOutcomes`.

**Diff.** The script is minimal and turns one text into the other, and the signs of the printed lines
say which lines it deletes and adds. The context printed with a change
is the last unindented line of the merged script; `OwnSectionExact` says when that is the section of
the line in its own text, and `WrongSection` that it need not be.

**Replay.** The comment at `netcli/internal/cli/text.go:14-16` says that feeding a printed
configuration back recreates it. That is not true of every valid configuration, and `ReplayExact`
says of which it is: those of which every part meets its own condition (`SlotReplays`,
`FieldReplays`), each a check on that part alone and on what is printed before it. The conditions
fail, for example, for a VLAN with a description (printed before the encapsulation that validation
demands; `Counterexamples.DescribedVlan`), a cloned interface with no settings, a bridge member that is a later bridge, an address
that is its subnet's own, wireless settings without a mode, a lease that is not in whole minutes,
TLS set while the web server is disabled, an entry with a one-port range (`lt 2` is stored as `1-1`
and printed as `eq 1`), an access-group name that abbreviates `in` or `out`, an empty host name (a
new configuration has one), more than six name servers, and text that the tokenizer changes.

**Commands.** A line means its path through the tree (`WalkMeans`, `WalkHasPath`), and the pieces a word
is written in (`WordsSay`). Giving an interface its primary address again loses the first secondary
one; `PrimaryRepeatedExact` says so.

**Access lists.** Access lists and NPF groups have separate evaluators over packets, first match
with an implicit deny and last match unless `final`; `TranslationKeepsMeaning` relates them, with
tracking and logging. `AceMeaning` says in packets what every word of an entry means, also the words
that are never printed (`gt`, port names, protocol numbers, wildcard masks).

**init.** The session list is a linked structure on the heap with a ghost sequence; every state
function keeps it acyclic with `next` and `prev` mutually inverse, and the database exact. `fork` and
the collected children are arbitrary. Each state function is a relation between the sessions before
and after it (`Opened`, `Watched`, `WereRead`, `WereCleaned` and so on), and a run of the machine is a
sequence of such steps. As in the code, `multi_user` does start a flagged session that
has no process; `doomed` holds the sessions that had one when logins were blocked, and these never
come back.

**Loader.** The reads may deliver any number of bytes between 1 and 80. As in the code,
`reset_line_reading` resets only the pointer; `LoadConf` says when that matters, and `PeekThenLoad` is
a run in which it does.

## Model

| member | source | states |
|---|---|---|
| Apply.Step.Apply | netcli/internal/apply/apply.go:64-78 | Moving the system from `before` to `after`, whatever each command does: a kernel between the two effective configurations stays between them, and no more of the five phases (host, interfaces, routes, filter, leases) are left unfinished than commands failed; if nothing is reported and no failure carried a misleading message it realises the new one. From a kernel that realises the old one and decides every command: something is refused if and only if a bridge is to get a member that another one still holds, and the new one is realised if and only if that is not so and the side conditions hold. At boot, what ends up realised was not in the way before. Interfaces of neither side are not touched; every command issued is called for by a difference; each removed interface is removed and each configured one is set up, in dependency order |
| Apply.Step.ApplyEffective | netcli/internal/apply/apply.go:64-78 | The five phases in order keep the kernel between the two sides and end in the new one when nothing fails; a failure in one of them does not stop the others |
| Apply.Step.Run | netcli/internal/apply/apply.go:34-47 | The whole outcome of one command: its effect, or an unchanged kernel and a message that is reported exactly when it is not tolerated |
| Apply.Step.Interfaces | netcli/internal/apply/apply.go:135-157 | Tearing down and setting up all interfaces realises the interface part of the new configuration; nothing is refused when what is referred to is there and no bridge may have to wait for a member, and something is when one must |
| Apply.Step.TearDown | netcli/internal/apply/apply.go:135-146 | Exactly the removed interfaces are removed, in reverse dependency order, bridges before what they hold; they end up as if never configured, and nothing is refused |
| Apply.Step.SetUp | netcli/internal/apply/apply.go:148-156 | Exactly the configured interfaces are set up, in dependency order; every one of them, and every bridge's member set, ends up as the new configuration says; nothing is refused when nothing stands in the way, and something is when a new member must still be held |
| Apply.Step.SetUpNext | netcli/internal/apply/apply.go:148-156 | One more interface in dependency order settles without unsettling the earlier ones; its references exist by then |
| Apply.Step.SetUpOne | netcli/internal/apply/apply.go:148-156 | Configuring one interface changes no other slot, and the members of no other bridge |
| Apply.Step.Reconfigure | netcli/internal/apply/apply.go:149-156 | One interface from what the old configuration says of it to what the new one says, with the bridges that list it |
| Apply.Step.RemoveInterface | netcli/internal/apply/apply.go:179-200 | What a removal leaves: the daemons stopped, a cloned interface destroyed and released from its bridges, hardware down and without addresses or access-point mode |
| Apply.Step.RemoveOne | netcli/internal/apply/apply.go:143-146 | Removing one interface keeps the kernel between the two sides and leaves nothing of it behind |
| Apply.Step.ConfigureInterface | netcli/internal/apply/apply.go:227-345 | One interface from its old entry (or none) to its new one: always between the two, exactly the new one when nothing fails, no command when only description and access-list names differ |
| Apply.Step.Materialise | netcli/internal/apply/apply.go:234-250 | Creation, or removal and creation anew of a virtual access point whose radio or mode changed; what the rest of the configuration is then compared with |
| Apply.Step.CreateInterface | netcli/internal/apply/apply.go:240-250 | A cloned interface exists afterwards, with the radio and mode it was created with |
| Apply.Step.Discard | netcli/internal/apply/apply.go:235-238 | A virtual access point that has to be recreated is gone, and out of every bridge |
| Apply.Step.SyncVlan | netcli/internal/apply/apply.go:252-259 | A changed VLAN tag and parent are replaced; refused only when the parent does not exist |
| Apply.Step.SyncApMode | netcli/internal/apply/apply.go:261-270 | A physical radio is in access-point mode exactly when the new entry asks for it |
| Apply.Step.SyncMtu | netcli/internal/apply/apply.go:272-274 | The MTU is set where the new entry has one that is new |
| Apply.Step.SyncMedia | netcli/internal/apply/apply.go:275-282 | The media are set where the new entry has them and they are new |
| Apply.Step.DropOldAddresses | netcli/internal/apply/apply.go:284-290 | Addresses of the old entry alone disappear; those on both sides stay |
| Apply.Step.AddNewAddresses | netcli/internal/apply/apply.go:291-296 | With the old ones gone, the addresses are exactly those of the new entry |
| Apply.Step.AddAddress | netcli/internal/apply/apply.go:202-213 | The host is on the interface afterwards, an existing one being tolerated |
| Apply.Step.DeleteAddress | netcli/internal/apply/apply.go:215-225 | Every address with that host is gone, whatever its prefix length |
| Apply.Step.SyncMembers | netcli/internal/apply/apply.go:298-312 | The links of a bridge lose the members that disappeared and gain the new ones, and no other link changes |
| Apply.Step.ShutInterface | netcli/internal/apply/apply.go:314-325 | An interface that is shut down goes down, with dhcpcd and (if it still has wireless settings) its wireless daemon stopped |
| Apply.Step.RaiseInterface | netcli/internal/apply/apply.go:326-344 | An interface that is up is raised, and its daemons are those its settings ask for |
| Apply.Step.SyncDhcp | netcli/internal/apply/apply.go:330-336 | dhcpcd is started and stopped as the entry and the transition ask |
| Apply.Step.SyncWireless | netcli/internal/apply/apply.go:338-344 | The wireless daemon runs with the new settings and bridge whenever either changed or the interface came up |
| Apply.Step.StartWireless | netcli/internal/apply/apply.go:354-370 | hostapd or wpa_supplicant, according to mode, reads the file just written |
| Apply.Step.StopWireless | netcli/internal/apply/apply.go:174-177 | Neither wireless daemon runs afterwards |
| Apply.Step.FindBridge | netcli/internal/apply/apply.go:160-167 | The bridge that lists the interface, whatever order the map is walked in, if at most one does |
| Apply.Step.ApplySystem | netcli/internal/apply/apply.go:80-95 | Host name, name servers and forwarding end up as configured where they are set |
| Apply.Step.Routes | netcli/internal/apply/apply.go:414-433 | The routing table ends up as exactly the new routes, and routes on both sides are never touched |
| Apply.Step.Firewall | netcli/internal/apply/apply.go:440-461 | The rule set of the new configuration is loaded and the filter is on; no command when the rendered rule sets are equal |
| Apply.Step.LoadRules | netcli/internal/apply/apply.go:445-460 | Written, validated, loaded and switched on; a rule set that cannot be written or fails validation is never loaded |
| Apply.Step.WriteRules | netcli/internal/apply/apply.go:445-458 | A rule set that fails validation is taken back off the disk if that can be written, and nothing else changes |
| Apply.Step.DhcpServer | netcli/internal/apply/apply.go:465-486 | dhcpd runs with the new subnets and interfaces, or not at all when nothing is served |
| Apply.NothingToDo | netcli/internal/apply/apply.go:80-95 | Applying a configuration to itself calls for no command at all |
| Apply.DescriptionsAreFree | netcli/internal/apply/apply.go:227-345 | No command targets an interface of which only description and access-list names changed |
| Apply.PlainLayering | netcli/internal/config/validate.go:79-93 | With VLANs on hardware and no bridges inside bridges, the sort order puts everything an interface refers to before it |
| Apply.ReferencesSettled | netcli/internal/apply/apply.go:148-156 | By the time an interface is configured, everything it refers to exists and no other bridge holds its new members, unless there may be a clash |
| Bridging.HistoryNext | netcli/internal/apply/apply.go:227-345 | While interfaces are configured one after another, whatever fails: links appear only for new members and vanish only by deletion or recreation, and a member that another bridge must still hold is not added |
| Bridging.ClashMeans | netcli/internal/apply/apply.go:298-312 | On a kernel that realises the old configuration, there may be a clash if and only if a member that is not made anew moves from a bridge that stays to one that is not configured after it |
| Bridging.ToldExact | netcli/internal/apply/apply.go:298-312 | Where no two bridges compare equal, there may be a clash if and only if there must be one |
| SlotSteps.Minus | netcli/internal/apply/apply.go:373-381 | Exactly the elements of the first list that are not in the second |
| SlotSteps.SyncKeeps | netcli/internal/apply/apply.go:215-225 | With unique hosts, deleting what only the old side has never deletes an address both sides have |
| SlotSteps.NewAreAdded | netcli/internal/apply/apply.go:202-213 | After deletions and additions the address set is exactly the new one |
| SlotSteps.DeletionExact | netcli/internal/apply/apply.go:215-225 | Deleting by host alone keeps the common addresses if and only if none of them shares its host with a deleted one |
| SlotSteps.RouteDeletionExact | netcli/internal/apply/apply.go:387-412 | The same for routes, which are deleted by destination alone |
| Apply.RealisedIsGentle | netcli/internal/apply/apply.go:227-345 | What applying never does, whatever the side conditions (put a recreated interface back into a bridge, stop a daemon whose settings are gone, add a member that another bridge holds), rules out the new configuration unless they hold |
| Apply.RealisedAfterBoot | netcli/internal/apply/apply.go:227-345 | Booting takes no address, link, route or daemon away, so that the configuration is realised afterwards only if nothing else was there |
| Counterexamples.KernelForRealises | netcli/internal/apply/apply.go:64-78 | Every well-shaped configuration is realised by some kernel, so that the theorems speak of something |
| Counterexamples.RecreatedMember | netcli/internal/apply/apply.go:235-238 | Two valid configurations and a kernel that meet everything but one side condition: a bridged virtual access point that moves to another radio |
| Counterexamples.DroppedWireless | netcli/internal/apply/apply.go:314-325 | The same for a radio that is shut down in the change that takes away its wireless settings |
| Counterexamples.MovedMember | netcli/internal/apply/apply.go:298-312 | A member moves from a bridge to one that is configured before it: two valid configurations that meet every side condition, and a kernel that realises the first |
| Counterexamples.MoveRefused | netcli/internal/apply/apply.go:298-312 | That change is refused by an obeying kernel, and not carried out |
| Counterexamples.CanMoveThem | netcli/internal/config/validate.go:64-77 | bridge0 is configured before bridge1, so that it is so for wm0 moving from bridge1 to bridge0 |
| SlotSteps.ShutdownExact | netcli/internal/apply/apply.go:314-325 | A shutdown leaves no daemon behind if and only if the wireless settings are not dropped in the same change |
| Agreement.BetweenSymmetric | netcli/internal/manager/manager.go:98-106 | A kernel part of the way from one configuration to another is part of the way back: what makes undoing possible |
| Agreement.RealisedIsBetween | netcli/internal/apply/apply.go:64-78 | A kernel that realises the old configuration is a starting point for any change |
| Agreement.BetweenSelf | netcli/internal/apply/apply.go:64-78 | Between a configuration and itself lies exactly its realisation |
| Agreement.ForeignIsFree | netcli/internal/cli/cmd_config.go:173-177 | Whatever an interface that the system looks after does, a configuration stays realised |
| Agreement.AllSettled | netcli/internal/apply/apply.go:135-157 | Interfaces settled one by one, with their links, add up to the whole new configuration |
| EffectiveConfig.ComputeEffective | netcli/internal/apply/apply.go:107-131 | What the two passes leave: an interface is left out if and only if it is a wlan whose wireless settings are incomplete; wireless settings survive if and only if they are complete; the members of a bridge are, in order, those that are not left out; every other field and setting is the one configured |
| EffectiveConfig.EffectiveIsApplied | netcli/internal/apply/apply.go:107-131 | The recursive specification of the effective configuration has that meaning |
| EffectiveConfig.ValidIsShaped | netcli/internal/apply/apply.go:107-131 | The effective part of a valid configuration has no dangling bridge member, no incomplete wireless settings and no undefined access point |
| EffectiveConfig.EffectiveIdempotent | netcli/internal/apply/apply.go:107-131 | What is effective stays effective |
| Manager.Manager.Commit | netcli/internal/manager/manager.go:90-111 | Rejected, unchanged, done, not saved, rolled back or stuck: what the record and the kernel are in each case, and which of them it is: done if and only if the write succeeds, and a stuck change is recorded if and only if its write succeeds. An obeying kernel with its hardware present needs no rollback unless there may be a clash of bridges, and never succeeds when there must be one. A kernel that refused something during the first attempt and obeys from then on is rolled back, and describes the old configuration, unless its hardware is missing or the way back clashes |
| Manager.Manager.RollBack | netcli/internal/manager/manager.go:98-106 | From anywhere between the two sides: a rollback that reports nothing restores the old configuration and leaves the record alone; one that fails records the new one if that can be written, and stays between. A kernel that obeys from then on, with what the old configuration refers to and no clash of bridges on the way back, is always restored |
| Manager.Manager.Attempt | netcli/internal/manager/manager.go:97-98 | Applying a change, wherever it stops, leaves the kernel between the two sides and ready to be undone; on an obeying kernel nothing fails if nothing stands in the way, and something does if bridges clash |
| Manager.UndoIsPrepared | netcli/internal/manager/manager.go:98-106 | Wherever a change has stopped, everything that the old configuration refers to is still there, and no bridge stands in the way unless it did before |
| Manager.Manager.Change | netcli/internal/manager/manager.go:55-74 | A step of the transition system: no change and refusals touch nothing |
| Manager.Manager.Replace | netcli/internal/manager/manager.go:77-88 | A step of the transition system |
| Manager.Manager.Boot | netcli/internal/manager/manager.go:114-135 | The startup configuration is applied from scratch and recorded even when applying fails; what it does not name is not touched; from a kernel that holds nothing else a boot that reports nothing realises it; on an obeying kernel it does so if and only if nothing else is held |
| Manager.Manager.Save | netcli/internal/manager/manager.go:138-149 | The startup configuration becomes the running one if and only if it can be written, and nothing else changes |
| Manager.Manager.Erase | netcli/internal/manager/manager.go:152-163 | The startup configuration is gone if and only if that can be written, and nothing else changes |
| Manager.Manager.LoadRunning | netcli/internal/config/store.go:120-127 | The running configuration, or the startup configuration, or the default one |
| Manager.Manager.PerformAll | netcli/internal/manager/manager.go:55-163 | Any sequence of operations is a run of the transition system |
| Manager.StepRecords | netcli/internal/manager/manager.go:90-135 | Every step keeps the record normalised and valid |
| Manager.AlwaysRecorded | netcli/internal/manager/manager.go:90-135 | Over every run, whatever commands and store do, the recorded running configuration is normalised and valid |
| Manager.StepKeepsInStep | netcli/internal/manager/manager.go:90-135 | A step without misleading message, failed rollback or failed boot keeps the record describing the kernel, if a boot finds nothing that the startup configuration does not ask for |
| Manager.BootExact | netcli/internal/manager/manager.go:114-135 | After a boot that reports nothing, the record describes the kernel if and only if nothing else was there before |
| Manager.RebootInStep | netcli/internal/manager/manager.go:114-135 | After a second boot, the record still describes the kernel if and only if the startup configuration covers the running one |
| Counterexamples.BootTwice | netcli/internal/manager/manager.go:114-135 | Boot, replace, boot, all successful, after which the record does not describe the kernel: an address configured in between stays |
| Manager.StaysInStep | netcli/internal/manager/manager.go:90-135 | Over every run, from a boot or a point where it does so on, the record describes the kernel for as long as the steps are of that kind |
| Manager.OnlyThen | netcli/internal/manager/manager.go:55-135 | The running configuration changes only through a success, a failed rollback, a boot or a restart of the machine |
| Manager.PristineIsBetween | netcli/internal/manager/manager.go:114-135 | A machine that has just started is a starting point for booting any valid configuration, if the interfaces the system looks after are not configured |
| Manager.NothingElseExact | netcli/internal/manager/manager.go:114-135 | A boot can start from a kernel if and only if no address, radio, access point mode, DHCP client, daemon, link, route or interface is left that the startup configuration does not ask for or replace |
| Manager.RebootExact | netcli/internal/manager/manager.go:114-135 | From a kernel that realises some configuration, that is so if and only if the startup configuration covers it, a check on the two configurations alone |
| Manager.RebootSame | netcli/internal/manager/manager.go:114-135 | A configuration can be booted over itself |
| Manager.CommitStarts | netcli/internal/manager/manager.go:90-111 | A change of valid configurations can be applied and undone under the side conditions |
| RevertTimer.StepBasic | netcli/internal/manager/manager.go:182-298 | Every step of any process keeps the process ids apart: one that is about to be written is new, and a watchdog that has removed the state file is not in it |
| RevertTimer.AlwaysBasic | netcli/internal/manager/manager.go:182-298 | So they are in every interleaving of every number of clients and watchdogs |
| RevertTimer.StaysMute | netcli/internal/manager/manager.go:280-290 | In every interleaving, a watchdog that was superseded before it woke up, or has restored already, never changes the configuration again |
| RevertTimer.ExposedExact | netcli/internal/manager/manager.go:182-298 | From a state, some interleaving of what has begun ends in an armed timer without a snapshot if and only if a timer is armed already without one or while a process is between its two removals, or a client is arming while a timer is armed, another client is arming or clearing, or a watchdog is awake |
| RevertTimer.ArmingExact | netcli/internal/manager/manager.go:201-235 | From any other state, beginning to arm leads to such an interleaving if and only if a timer is alive, another client is arming or clearing, or a watchdog is awake |
| RevertTimer.ClearingExact | netcli/internal/manager/manager.go:182-196 | Beginning a status poll, a confirm or a revert does so if and only if it finds something to clear while a client is arming |
| RevertRuns.RearmRace | netcli/internal/manager/manager.go:202-212 | One command line and one watchdog: the timer counts as pending while its watchdog is removing both files; the new timer is armed without a snapshot, and the change it was to guard is never undone |
| RevertTimer.StepConsistent | netcli/internal/manager/manager.go:182-298 | Each step keeps files and processes fitting together as long as nobody arms beside another client that arms or clears, or beside a watchdog that is awake |
| RevertTimer.AlwaysConsistent | netcli/internal/manager/manager.go:182-298 | In every interleaving of that kind: a timer that is alive has a snapshot, every watchdog past its check is the one in the state file until it removes it, and what it has read is the snapshot |
| RevertTimer.OnlyOwnerRestores | netcli/internal/manager/manager.go:281-298 | Then only the watchdog in the state file changes the configuration, and brings back the snapshot |
| RevertWatchdogs.StrayExact | netcli/internal/manager/manager.go:281-298 | In every interleaving: a watchdog may change the configuration while the state file does not name it if and only if it is awake and not named there, or about to be written there, or is named by an armed timer while another process will change that file without killing it |
| RevertTimer.SnapshotHeld | netcli/internal/manager/manager.go:198-212 | In every such interleaving the snapshot of an armed timer stays the same, however often it is armed again, until it is cleared |
| RevertWatchdogs.ReplacedExact | netcli/internal/manager/manager.go:201-212 | In every interleaving: the snapshot of an armed timer may be replaced by another one before the timer ends if and only if some client is already about to read or save one, or will be when it has removed the present one |
| RevertRuns.SnapshotOverwritten | netcli/internal/manager/manager.go:201-212 | Two clients that arm at the same time: the snapshot of an armed timer is replaced by the change it was to guard |
| RevertTimer.NeverAfterConfirm | netcli/internal/manager/manager.go:248-261 | Once a client has cleared the state file, with arming left alone until then, no watchdog started before ever changes the configuration, whatever happens afterwards |
| RevertWatchdogs.ClearedExact | netcli/internal/manager/manager.go:248-251 | In every interleaving: once a client has cleared the state file, a watchdog started before can still change the configuration if and only if it has passed its check and not restored yet, or is about to be written to the state file |
| RevertWatchdogs.ConfirmExact | netcli/internal/manager/manager.go:254-261 | When a confirm of an armed timer begins, a watchdog may change the configuration after the state file is cleared if and only if it is such a one, or it is the one in the state file and another process will change that file without killing what it names |
| RevertRuns.ConfirmOvertaken | netcli/internal/manager/manager.go:201-261 | Two clients that arm at the same time: an overtaken watchdog changes the configuration after the confirm |
| RevertTimer.UnconfirmedRestores | netcli/internal/manager/manager.go:281-298 | Left alone, a pending watchdog stays on its way, and the first restoration that works brings back its snapshot |
| RevertTimer.CommittedProceeds | netcli/internal/manager/manager.go:281-298 | A pending watchdog is never stuck before it has restored |
| RevertTimer.ArmAlone | netcli/internal/manager/manager.go:201-235 | A run of arming without interference: a timer that is alive keeps its snapshot and its watchdog is terminated, otherwise the running configuration is saved; the new watchdog is on its way to the snapshot |
| RevertOutcomes.RevertRestores | netcli/internal/manager/manager.go:263-278 | In every interleaving: a revert that begins with a snapshot makes it the running configuration when its replacement works, and when it does not, leaves the running configuration, both files and every process alone |
| RevertOutcomes.RevertAlone | netcli/internal/manager/manager.go:263-278 | Left alone, a revert that works ends with the snapshot running and with no timer, snapshot or watchdog; one that does not leaves both files, its watchdog killed |
| RevertOutcomes.ConfirmAlone | netcli/internal/manager/manager.go:253-261 | Left alone, a confirm keeps the running configuration, kills the watchdog and leaves no timer and no snapshot |
| RevertOutcomes.StaleIsCleared | netcli/internal/manager/manager.go:182-196 | A status poll or a confirm that finds a dead process in the state file removes both files and changes nothing else |
| RevertOutcomes.NothingToDo | netcli/internal/manager/manager.go:181-278 | A poll does nothing if and only if there is no state file or its process is alive, a confirm if and only if there is none, a revert if and only if there is no snapshot |
| RevertOutcomes.ExpiryAlone | netcli/internal/manager/manager.go:281-298 | Left alone, the watchdog in the state file makes the snapshot the running configuration if that works, and in any case removes both files and ends |
| RevertOutcomes.SupersededEnds | netcli/internal/manager/manager.go:281-298 | A watchdog that the state file does not name, or that finds no snapshot, ends and changes nothing |
| LineDiff.Diff | netcli/internal/manager/manager.go:301-358 | The text printed is the rendering of the edit script |
| LineDiff.Table | netcli/internal/manager/manager.go:304-320 | The table holds the longest-common-subsequence lengths of all suffixes |
| LineDiff.Emit | netcli/internal/manager/manager.go:325-333 | Each changed line is written with its section header, unless that was the last one printed |
| LineDiff.LcsBounds | netcli/internal/manager/manager.go:304-320 | No common subsequence is longer than the length in the table |
| LineDiff.ScriptTurns | netcli/internal/manager/manager.go:334-356 | The script turns the first text into the second, and keeps as many lines as the longest common subsequence has |
| LineDiff.KeptIsCommon | netcli/internal/manager/manager.go:334-356 | What any script keeps is common to both texts, and the rest is what it changes |
| LineDiff.ScriptIsMinimal | netcli/internal/manager/manager.go:334-356 | No edit script changes fewer lines: n + m - 2 * LCS |
| LineDiff.RenderPlaces | netcli/internal/manager/manager.go:321-356 | Exactly the changed lines are printed, in order, each indented one under the last unindented line of the merged script before it, which is printed when it was not the last one printed |
| LineDiff.RenderIsSparing | netcli/internal/manager/manager.go:323-333 | A section header is printed only right before an indented change, and not while it is the last one printed |
| LineDiff.SignsMean | netcli/internal/manager/manager.go:323-356 | Read line by line, the printed text has the deleted lines behind "- " and the added ones behind "+ ", in their order, and otherwise section headers behind blanks |
| LineDiff.LinesJoin | netcli/internal/manager/manager.go:302-303 | The lines compared are the text up to its trailing line feeds, none with a line feed in it |
| LineDiff.OwnSectionExact | netcli/internal/manager/manager.go:321-356 | That line is the section of the change in its own text (the old one for "-", the new one for "+") if and only if no unindented change of the other text has come in between, unless it reads the same |
| LineDiff.WrongSection | netcli/internal/manager/manager.go:321-356 | It may not be: a deleted line of one section is printed under an added one |
| LineDiff.EmptyMeansEqual | netcli/internal/manager/manager.go:301-358 | The output is empty if and only if the line lists are equal |
| Npf.Npf | netcli/internal/render/npf.go:36-94 | The rules, groups, translations and log procedure that are written; an interface has a group if and only if a list is applied to it |
| Npf.NpfUsesLog | netcli/internal/render/npf.go:19-33 | Whether some access list applied to an interface has a logging entry |
| Npf.BuildGroup | netcli/internal/render/npf.go:60-90 | The group of one interface |
| Npf.RuleMatchesEntry | netcli/internal/render/npf.go:113-151 | An entry and the rule it becomes match the same packets |
| Npf.EntriesDecide | netcli/internal/render/npf.go:60-90 | Under last-match-unless-final, final rules and a closing "block final all" compute first match with an implicit deny; the packet is tracked and logged as the entry that decides says |
| Npf.InfraRulesMatch | netcli/internal/render/npf.go:96-110 | The infrastructure rules match neighbour and router discovery (types 133 to 136, section 4 of RFC 4861) and DHCP replies, each only where the interface needs it |
| Npf.TranslationKeepsMeaning | netcli/internal/render/npf.go:36-94 | For every configuration, interface, direction and packet: the filter passes it if and only if infrastructure needs it or the access list permits it, and everything passes where no list is applied; its connection is tracked if and only if an entry without "stateless" permits it or no list is applied that way, and it is logged if and only if the deciding entry logs |
| Npf.DirectionsIndependent | netcli/internal/render/npf.go:60-90 | The list applied in one direction does not influence the other |
| Npf.LogDeclaredWhenApplied | netcli/internal/render/npf.go:19-33 | The log procedure is declared if and only if some emitted rule applies it |
| Masks.WildcardRoundTrip | netcli/internal/config/validate.go:130-141 | A prefix length printed as a wildcard mask is read back, and no other mask is read as that length |
| Masks.MaskRoundTrip | netcli/internal/config/validate.go:116-126 | The same for netmasks |
| Masks.MaskIs | netcli/internal/render/services.go:145-151 | The shifted word has exactly the leading bits set |
| Masks.OctetsDetermine | netcli/internal/render/services.go:150-150 | The four numbers printed are bytes that determine the word |
| AceText.FindIcmpName | netcli/internal/cli/acl.go:276-291 | The shortest, then alphabetically first, name of an ICMP type, whatever order the map is walked in; else its number |
| AceText.Format | netcli/internal/cli/acl.go:255-274 | The words an entry is printed as |
| AceText.IsSameRule | netcli/internal/cli/acl.go:327-330 | Whether two entries print alike |
| AceText.AceParser.Parse | netcli/internal/cli/acl.go:60-146 | The word-by-word parser computes what the grammar says, including every refusal |
| AceText.AceParser.Addr | netcli/internal/cli/acl.go:149-191 | One address specification is read, and exactly its words are consumed |
| AceText.AceParser.Ports | netcli/internal/cli/acl.go:205-252 | One optional port qualifier is read, and exactly its words are consumed |
| AceText.ReadGivesReadable | netcli/internal/cli/acl.go:60-146 | Every entry that is read is valid and canonical in its addresses |
| AceText.RoundTrip | netcli/internal/cli/acl.go:255-274 | Reading a printed entry succeeds and gives its canonical form |
| AceText.CanonMatches | netcli/internal/cli/acl.go:315-324 | The canonical form matches the same packets |
| AceText.PrintReadTheorem | netcli/internal/cli/acl.go:60-330 | For every entry that was read, printing and reading it again succeeds, gives the same rule and the same matches, and the same entry if and only if no port range has a single port |
| AceText.SameRuleMeans | netcli/internal/cli/acl.go:327-330 | Two entries are the same rule if and only if they agree up to one-port ranges, and then they match the same packets |
| AceMeaning.ProtocolMeans | netcli/internal/cli/acl.go:64-91 | A protocol word is accepted if and only if it is one of the names or a number up to 255, and matches exactly the protocols it stands for |
| AceMeaning.NumbersWithNames | netcli/internal/cli/acl.go:79-90 | 6, 17, 1 and 58 are read as tcp, udp, icmp and icmpv6 |
| AceMeaning.PortsMean | netcli/internal/cli/acl.go:205-252 | `eq n`, `gt n`, `lt n` and `range n m` match a TCP or UDP packet if and only if its port is n, above n, below n (and not 0), or from n to m; they are refused if and only if an operand is no port or no port is selected |
| AceMeaning.NoPortsMean | netcli/internal/cli/acl.go:205-213 | `neq` is refused; without a qualifier every packet matches and no word is taken |
| AceMeaning.PortMeans | netcli/internal/cli/acl.go:193-202 | A port is a known name or a number up to 65535 |
| AceMeaning.AddrMeans | netcli/internal/cli/acl.go:149-191 | `any`, `host`, a bare address and a prefix match exactly the addresses they name; a prefix with bits beyond its length is refused |
| AceMeaning.WildcardMeans | netcli/internal/cli/acl.go:177-189 | An address with a wildcard mask is accepted if and only if the mask is one less than a power of two and the address has no bit under it; it matches the addresses that differ from it under the mask alone |
| AceMeaning.IcmpMeans | netcli/internal/cli/acl.go:110-127 | An ICMP type is a known name of that protocol or a number up to 255, and may be left out before a flag |
| AceMeaning.RuleMeans | netcli/internal/cli/acl.go:60-146 | An entry matches exactly the packets that its protocol, its two addresses, their ports and its type match; it logs and is stateless if and only if the words are there; its parts make an entry if and only if the address families agree with each other and with the protocol, and only a permitted one is stateless |
| AceMeaning.RuleIsWritten | netcli/internal/cli/acl.go:60-146 | Words are accepted if and only if they are such parts, one after the other |
| AclEdit.Lists.AddEntry | netcli/internal/cli/cmd_config.go:746-778 | A new entry with a free number, or auto-numbered unless the rule is there; other lists untouched |
| AclEdit.Lists.DeleteRule | netcli/internal/cli/cmd_config.go:779-796 | Every entry that is the same rule goes, and no other; failing when there is none |
| AclEdit.Lists.DeleteSeq | netcli/internal/cli/cmd_config.go:809-822 | The entry with that number goes, and no other; failing when there is none |
| AclEdit.Lists.Resequence | netcli/internal/cli/cmd_config.go:823-834 | The entries are numbered 10, 20, 30 ... in their order |
| AclEdit.RecordedListsSorted | netcli/internal/config/config.go:211-217 | The lists of every recorded configuration are strictly sorted by unique sequence numbers |
| AclEdit.AutoNumberMeans | netcli/internal/cli/cmd_config.go:765-775 | An auto-numbered entry comes after all others and changes only packets that reached the implicit deny |
| AclEdit.NextSeqIsLeast | netcli/internal/cli/cmd_config.go:765-775 | The number given is the least multiple of ten above every number in the list |
| AclEdit.InsertMeans | netcli/internal/cli/cmd_config.go:758-764 | An inserted entry changes only packets that no lower-numbered entry matches |
| AclEdit.ResequenceMeans | netcli/internal/cli/cmd_config.go:823-834 | Resequencing changes no packet's decision and keeps the order; each entry has the number it would get if it were added after those before it |
| AclEdit.WithoutHas | netcli/internal/cli/cmd_config.go:779-796 | Deleting leaves exactly the entries not dropped, and keeps their order |
| AclEdit.DeleteMeans | netcli/internal/cli/cmd_config.go:779-796 | Deleting keeps every decision made by an entry that stays |
| AclEdit.NoChangeIsRight | netcli/internal/cli/cmd_config.go:766-772 | Leaving out a rule that is already there loses nothing |
| AclEdit.DeleteUndoesAdd | netcli/internal/cli/cmd_config.go:779-796 | "no" with the rule takes back what adding it did |
| AclEdit.DeleteSeqUndoesAdd | netcli/internal/cli/cmd_config.go:809-822 | "no" with the number takes back what adding it did |
| Config.SortInterfaceNames | netcli/internal/config/validate.go:64-77 | A permutation in the order loopback, physical, VLAN, wireless, bridge, then by base name and unit |
| Config.UnitsInOrder | netcli/internal/config/validate.go:63-100 | Interfaces of one driver are ordered by number: wm2 before wm10 |
| Config.InterfaceNames | netcli/internal/config/config.go:237-244 | Exactly the configured names, each once, in that order |
| Config.SortEntriesSorts | netcli/internal/config/config.go:211-217 | Sorting entries by number is a permutation |
| Config.NormalizeNormalizes | netcli/internal/config/config.go:193-223 | Normalising normalises |
| Config.NormalizeFixed | netcli/internal/config/config.go:193-223 | A normalised configuration is left alone |
| Config.NormalizeValid | netcli/internal/config/config.go:193-223 | Normalising never changes whether a configuration is valid |
| Services.Dhcpd | netcli/internal/render/services.go:91-143 | The subnets written, and exactly the interfaces with an address on one of them |
| Tokenizer.Tokenize | netcli/internal/cli/parser.go:89-136 | The words of a line, or a failure |
| Tokenizer.ReadWord | netcli/internal/cli/parser.go:102-129 | The inner loop reads one word |
| Tokenizer.FailsOnOpenQuote | netcli/internal/cli/parser.go:89-136 | Tokenizing fails if and only if a quote is left open |
| Tokenizer.WordsCover | netcli/internal/cli/parser.go:89-136 | The spans of the words are increasing and apart, and every character outside them is a blank |
| Tokenizer.WordsInside | netcli/internal/cli/parser.go:89-136 | Words lie inside the line |
| Tokenizer.WordsSay | netcli/internal/cli/parser.go:87-136 | Every word is made of bare characters and quoted stretches, and its text is what these say: in quotes, a backslash takes the next character as it is |
| Tokenizer.PiecesAreRead | netcli/internal/cli/parser.go:87-136 | Any such pieces, followed by a blank or the end, are read as one word with that text |
| Tokenizer.SaysOneThing | netcli/internal/cli/parser.go:87-136 | What is written as a word has one text only |
| Tokenizer.QuoteRoundTrip | netcli/internal/cli/parser.go:139-145 | Any list of words, quoted and joined by blanks, is read back exactly |
| CommandTree.Candidates | netcli/internal/cli/parser.go:162-189 | An exact word, else the only word abbreviated, else an argument that accepts the token |
| CommandTree.DoWalk | netcli/internal/cli/parser.go:192-222 | The node and arguments a line leads to, on a graph that may be cyclic |
| CommandTree.WalkMeans | netcli/internal/cli/parser.go:192-222 | A line with a path through the tree ends at its last node, with the keywords of the path; each argument has the last value given for its key, and all values of the key in order |
| CommandTree.WalkHasPath | netcli/internal/cli/parser.go:192-222 | A line that is accepted has a path: one chosen child for each word, up to an argument that takes the rest |
| CommandTree.RestMeans | netcli/internal/cli/parser.go:210-216 | Such an argument is what is left of the line as it stands, without the blanks around it, or a single quoted word without its quotes |
| CommandTree.ExactWins | netcli/internal/cli/parser.go:162-189 | An exact word wins over every longer sibling |
| CommandTree.StandsFor | netcli/internal/cli/parser.go:162-189 | A token stands for a keyword if and only if it is the word, or no sibling is that word and it abbreviates this one alone |
| CommandTree.ArgumentExact | netcli/internal/cli/parser.go:162-189 | A token is ambiguous if and only if it is no word and abbreviates two; where no keyword is meant, it goes to the first argument that accepts it, and nowhere if and only if none does |
| CommandTree.AbbreviationIsElaboration | netcli/internal/cli/parser.go:192-222 | Writing every abbreviated keyword in full reaches the same node with the same arguments |
| CommandTree.Complete | netcli/internal/cli/parser.go:293-329 | Exactly the words on offer where the line leads, sorted, each once |
| CommandTree.CompletionIsAccepted | netcli/internal/cli/parser.go:293-329 | Every keyword offered is accepted in that position, and a visible keyword that the partial word stands for is offered |
| CommandTree.CommonPrefix | netcli/internal/cli/parser.go:342-353 | The longest common start, ignoring case |
| ConfigText.Print | netcli/internal/cli/text.go:17-169 | The commands printed are those of every part of the configuration, in an order in which access lists precede interfaces and these follow their dependency order |
| ConfigText.Order | netcli/internal/cli/text.go:49-169 | Every part exactly once, in such an order |
| Commands.Session.Execute | netcli/internal/cli/session.go:127-192 | One command through the manager: refused if and only if the specification refuses it; otherwise configuration and mode are as specified, unless applying or recording fails. A refused command leaves the configuration alone, and the mode too, except that a global command typed in a sub-mode leaves it first |
| Commands.Session.ExecuteAll | netcli/internal/cli/terminal.go:151-160 | Commands one after another, whether or not one is accepted: when all are, the outcome is the specified one; a denial means that the specification refuses the text |
| CommandMeaning.AddressMeans | netcli/internal/cli/cmd_config.go:511-530 | A secondary address needs a first one and is appended once; a primary one takes the place of the first of the other addresses, and the rest stay in order |
| CommandMeaning.PrimaryRepeatedExact | netcli/internal/cli/cmd_config.go:522-527 | Giving the primary address again changes nothing if and only if there is no other: the first secondary address is lost |
| CommandMeaning.AddressOrDhcp | netcli/internal/cli/cmd_config.go:502-558 | Addresses end DHCP and DHCP removes the addresses; no other command touches either |
| CommandMeaning.NumbersExact | netcli/internal/cli/cmd_config.go:673-738 | MTU, channel and HTTP port are accepted if and only if they are not zero and validation accepts them |
| CommandMeaning.NatMeans | netcli/internal/cli/cmd_config.go:352-408 | A port is forwarded once on each interface and for each protocol, and a second rule for it refused; an overload rule is refused if and only if its subnet is not an IPv4 one without bits beyond its length, and is added once |
| CommandMeaning.EntryMeans | netcli/internal/cli/cmd_config.go:746-778 | A numbered entry is refused if and only if its words are no entry or its number is out of range or taken, and otherwise added as by `AclEdit` |
| CommandMeaning.CountryMeans | netcli/internal/cli/cmd_config.go:729-731 | A country code of two characters is stored in capitals, and no other accepted |
| CommandMeaning.DelimitersMean | netcli/internal/cli/cmd_config.go:252-254 | A banner between two delimiters is what stands between them |
| CommandMeaning.HostMeans | netcli/internal/cli/cmd_config.go:914-930 | A reservation is refused if and only if one of another name has its hardware or network address; it replaces one of its own name, and the others stay |
| CommandMeaning.Confined | netcli/internal/cli/session.go:161-192 | A command of a sub-mode changes nothing but the interface, access list or pool that the mode is about, and stays there |
| CommandMeaning.SubModeLeft | netcli/internal/cli/session.go:161-192 | After a global command that opens no sub-mode, the commands of a sub-mode are refused |
| Typing.WordExact | netcli/internal/cli/parser.go:89-136 | A word printed without quotes is read back if and only if it has no blank and no quote |
| Typing.TextExact | netcli/internal/cli/parser.go:192-222 | The rest of a line printed as it is comes back if and only if no space of any kind surrounds it (Unicode space included), every quote is closed and it is not one quoted word |
| Typing.BannerExact | netcli/internal/cli/cmd_config.go:249-261 | A banner comes back if and only if it is such text and is not written between delimiters |
| ReplayInterface.FieldExact | netcli/internal/cli/text.go:171-246 | Each field of an interface comes back, in the order printed and validated after each command, if and only if its own condition holds |
| ReplayInterface.InterfaceExact | netcli/internal/cli/text.go:171-246 | An interface comes back if and only if every field does, and a cloned one prints something |
| ReplayInterface.WirelessExact | netcli/internal/cli/cmd_config.go:673-738 | Wireless settings come back if and only if a mode is set |
| ReplayInterface.FoldMembers | netcli/internal/cli/cmd_config.go:634-655 | Member commands are accepted if and only if every member exists and is in no other bridge, and then append what is missing |
| ReplayInterface.FoldAddresses4 | netcli/internal/cli/cmd_config.go:502-530 | Address commands are accepted if and only if no address is its subnet's own, and then keep the order |
| ReplaySections.EntriesExact | netcli/internal/cli/text.go:73-79 | The entries of an access list come back if and only if each is readable and has no one-port range |
| ReplaySections.NatFoldExact | netcli/internal/cli/text.go:105-113 | The translations come back if and only if each is printable and none excludes a later one |
| ReplaySections.PoolExact | netcli/internal/cli/text.go:123-149 | A pool comes back if and only if its domain is a plain word, its lease is in whole minutes of at most 365 days and its reservations do not clash |
| ReplaySections.RunIf | netcli/internal/cli/cmd_config.go:463-466 | The commands of an interface do to the configuration what they do to its entry, validation included |
| Replay.SlotExact | netcli/internal/cli/text.go:17-246 | Each part comes back, from the earlier parts on, if and only if its own condition holds |
| Replay.Chain | netcli/internal/cli/text.go:17-169 | From any point on, the rest of the text recreates the configuration if and only if every remaining part comes back |
| Replay.ReplayExact | netcli/internal/cli/text.go:14-169 | For every valid configuration: from a new one, its printed text is accepted throughout and recreates it if and only if every part meets its condition |
| Replay.Recreate | netcli/internal/cli/text.go:14-169 | Printing a configuration and executing the text through the manager: as long as no change fails in being applied or recorded, the text is accepted and recreates the configuration if and only if every part meets its condition |
| Counterexamples.DescribedVlan | netcli/internal/cli/text.go:171-180 | The text of any valid configuration that has a VLAN with a description does not recreate it: the description comes before the encapsulation |
| Counterexamples.DescribedVlanExists | netcli/internal/config/validate.go:300-310 | There is such a configuration |
| InitSessions.Init.Unlink | netbsd/x86/patches/init.c:1143-1152 | A session leaves the doubly linked list and is freed; the rest keeps its order |
| InitSessions.Init.Append | netbsd/x86/patches/init.c:935-970 | A session joins the end of the list |
| InitSessions.Init.NewSession | netbsd/x86/patches/init.c:935-970 | A session is made if and only if the line can be started, at the end of the list, without a process, with the line's number and commands |
| InitSessions.Init.CollectChild | netbsd/x86/patches/init.c:1128-1164 | The session of an exited child is removed and freed if its flag is set, and gets a new getty otherwise; no other session changes |
| InitSessions.Init.Respawn | netbsd/x86/patches/init.c:1154-1163 | A failed restart asks for clean_ttys and leaves the session without a process |
| InitSessions.Init.ReadTtys | netbsd/x86/patches/init.c:1013-1046 | Every session is forgotten and freed, and there is exactly one, in order, for each line that can be started, with that line's number and commands |
| InitSessions.Init.OpenSessions | netbsd/x86/patches/init.c:1213-1224 | Every session without a process gets a getty, in order and flagged or not, up to the first that cannot be started; exactly then clean_ttys is requested; no other session changes |
| InitSessions.Init.MultiUser | netbsd/x86/patches/init.c:1196-1231 | Every listed session without a process gets a getty, or one cannot be started and clean_ttys follows at once; otherwise events are handled as in `Watch`, and the next state is the one requested, or none yet |
| InitSessions.Init.Watch | netbsd/x86/patches/init.c:1226-1231 | Children are collected one by one until a transition is requested: by the signal seen last, or, exactly when a getty cannot be started for the last child, clean_ttys. Each session whose process ended is freed if flagged and otherwise gets a new getty; no other session changes and none else is started |
| InitSessions.Init.Collect | netbsd/x86/patches/init.c:1128-1164 | One more child: its session is freed or restarted according to its flag, and a failed start requests clean_ttys |
| InitSessions.CollectsNext | netbsd/x86/patches/init.c:1128-1164 | Collecting children one by one is what happens to each session with them all |
| InitSessions.Init.CleanTtys | netbsd/x86/patches/init.c:1237-1294 | A session is left unflagged if and only if it is the first for its device and the last line for that device can be started; it then has that line's number and commands. Every line that can be started has a session afterwards; new ones have no process and are for devices that had none; no session and no process is lost |
| InitSessions.Init.Catatonia | netbsd/x86/patches/init.c:1300-1308 | Every session is flagged and nothing else changes; those with a process are from then on removed instead of restarted |
| InitSessions.Init.Death | netbsd/x86/patches/init.c:1327-1363 | Every session is flagged; those whose processes are collected, in at most three rounds and until nobody is left, are freed, the others stay, and no getty is started |
| InitSessions.Init.SingleUser | netbsd/x86/patches/init.c:549-722 | While the shell runs, children are collected and signals noted as in `Watch`; a request overrides where the shell leads |
| InitSessions.Init.Runcom | netbsd/x86/patches/init.c:729-817 | All children collected while the start script runs are handled alike, whatever is requested, and the script decides what follows |
| InitSessions.Init.Enter | netbsd/x86/patches/init.c:494-501 | Each state function does to the sessions exactly what it is for (start, collect, read, clean, flag), and leads where it then may lead |
| InitSessions.Init.Transition | netbsd/x86/patches/init.c:494-501 | Over every run of the state machine: every step is one that its state function allows, from the sessions as the step before left them; the list is acyclic with next and prev inverse, the database maps exactly the live process ids to their sessions, nothing freed is reachable, and no session alive when logins were blocked is ever restarted |
| InitSessions.LastLine | netbsd/x86/patches/init.c:1248-1282 | The last line for a device, which overrides the earlier ones |
| InitSessions.Session.SetUpArgs | netbsd/x86/patches/init.c:976-1007 | The getty and window commands of the line, failing if and only if one has no word; an earlier window command stays when the line has none |
| LineReader.Reader.SkipNewlines | freebsd/x86/cf/site/boot/support.4th:323-333 | Line feeds are skipped, within the buffer only |
| LineReader.Reader.ScanBuffer | freebsd/x86/cf/site/boot/support.4th:335-351 | The text up to a line feed or the end of the buffer |
| LineReader.Reader.RefillBuffer | freebsd/x86/cf/site/boot/support.4th:384-394 | The next chunk, and the end of the file exactly when nothing is delivered |
| LineReader.Reader.ReadLine | freebsd/x86/cf/site/boot/support.4th:410-419 | The next line, however the file is split into reads |
| LineReader.Reader.ReadAll | freebsd/x86/cf/site/boot/support.4th:323-419 | However a file is split into reads, the nonempty lines read are exactly its nonempty pieces between line feeds |
| LineReader.LineIsNext | freebsd/x86/cf/site/boot/support.4th:410-419 | A line read takes exactly one piece off the rest of the text |
| LineReader.Reader.Open | freebsd/x86/cf/site/boot/support.4th:406-408 | Starting a file resets the pointer alone: what the buffer holds will be read again before the file |
| LineReader.Reader.LoadConf | freebsd/x86/cf/site/boot/support.4th:988-996 | The lines loaded are those of what the buffer held followed by the file; they are those of the file if and only if the buffer held nothing but line feeds |
| LineReader.Reader.PeekFile | freebsd/x86/cf/site/boot/support.4th:971-982 | One line is read; a file delivered in one read stays in the buffer as a whole |
| LineReader.PeekThenLoad | freebsd/x86/cf/site/boot/support.4th:971-996 | A file that is peeked at before another is loaded: its line comes first, and the lines are not those of the file |

## Left out

- Kernel reactions of its own: routes that vanish with an interface, addresses that change on link events, a wireless interface leaving its radio. A command does what it says to the state it names, and nothing else.
- Apply.Step.Apply: a command that fails is taken to change nothing, and a VLAN that has a tag can be given another one.
- Apply.Step.Apply: the routing table is the configured routes; connected, dynamic and leased routes are not in it. The addresses of an interface are those that were configured; link-local addresses and those of dhcpcd are not modelled, and an interface that the system looks after is in no bridge.
- Apply.Step.Apply: names that compare equal (`wm1` and `wm01`) may be ordered either way; a stable insertion sort stands in for the library's sort, which makes no such promise.
- Apply.Step.Run: messages are four classes (exists, missing, already, any other); the substrings they are recognised by are not modelled.
- Apply.Step.SyncMtu: an MTU that the new configuration no longer sets is not taken back, as in the code, and nothing is claimed of it; the same holds for media on the wireless side, a host name and name servers that are unset.
- Manager.Manager.Boot: that a boot realises the startup configuration exactly when nothing else is held is stated for configurations with unique addresses, destinations and bridges, and kernels in which interfaces that do not exist carry nothing. Creating directories and starting the web server are not modelled.
- Manager.Manager.Commit: the store is a variable whose writes may fail; locking, atomic replacement and failures to read or parse a stored file are not modelled, and a clone is the same value.
- RevertTimer.AlwaysConsistent: says nothing of interleavings in which a client arms while another one arms or clears, or while a watchdog is awake; what each part of it becomes there is the subject of `ExposedExact`, `StrayExact`, `ReplacedExact` and `ConfirmExact`.
- RevertTimer.ExposedExact: reading the state file and probing or signalling the process it names is one step, and so is starting a process; an attempt to arm does not stop halfway, because saving the files and starting the process succeed; process ids are not reused, and deadlines are not modelled (a watchdog may wake at any time). That a poll of the status may end between its two removals is covered, a crash of the machine is not.
- Npf.TranslationKeepsMeaning: which connections are tracked is modelled, but not what a tracked connection then lets through; a packet is judged by the rules alone, and the group for loopback and unlisted interfaces passes everything, as written.
- AceText.AceParser.Parse: words are lower-case and classified; how an address, a mask or a prefix is spelled, IPv4-mapped IPv6 addresses and zones are not modelled.
- CommandTree.DoWalk: what an argument accepts and offers is an arbitrary function; "no" forms, help and the text of errors are not modelled.
- Typing.TextExact: a text is a sequence of characters, so that invalid UTF-8 is not modelled and positions are counted in characters; lower case is that of ASCII.
- Commands.Session.Execute: the keywords of a command are abstract, so that a printed command is taken to be dispatched to its own action; only the texts of arguments that the tokenizer can change are modelled. Arguments cannot contain line breaks. Deleting commands other than those of access lists are not modelled.
- ReplaySections.NatFoldExact: validation accepts an IPv6 source for an overload rule, which the printer cannot render (it would shift by a negative amount); the model takes such a rule as one that does not come back.
- Replay.Recreate: a text recreates the configuration when all of it is accepted; the reader goes on after a line that is refused, and what the rest of the text then does is not described. Nothing is claimed when applying or recording a change fails.
- InitSessions.Init.Transition: requested transitions arrive between steps, memory and database operations do not fail, and children of the shell or the start script are collected through the same step as others; utmp, security levels, console, syslog, the window system's own process and the memory file system are not modelled.
- InitSessions.Init.CleanTtys: the hangup signal to the process of a session that is switched off is not modelled; its exit is one of the collected children.
- LineReader.Reader.ReadLine: read errors and exhausted memory are not modelled.
- Config.NormalizeValid: validity is a predicate; the list of messages that validation accumulates is not modelled.
- Config.SortInterfaceNames: the sorted names are a new sequence, not the same array.
- The text of generated files (hostapd, wpa_supplicant, dhcpd, resolv.conf, NPF formatting): these are values here.
- Password hashing, TLS, the web server, terminal handling, show commands and statistics: input and output, cryptography, or members that would only be easy.
- Build scripts, kernel configurations, boot blocks, the other loader words and the static site: nothing unbounded that their code decides.
