# usbip-ssh: a verified model

usbip-ssh attaches USB devices of one Linux machine to another: the exporter binds a device to
usbip-host, the importer connects back through an ssh forward and gives its end of the connection
to vhci, and some process on the exporter's side holds the connection until it hangs up and then
gives the device back to its normal driver. This project models that program and proves what it
keeps. `dafny verify dfyconfig.toml` checks all of it.

| files | what they are about |
|---|---|
| `Pairing.dfy` | the session protocol as a state machine: announcements, late connections, timeouts, failures |
| `Linger.dfy`, `Conservation.dfy`, `Exits.dfy`, `Stranding.dfy`, `Shutdown.dfy` | the poll loops that hold connections (a class with the sockets as a field), what no exit of theirs forgets, when they end, what exactly they hold and when a failure leaves a device behind, and how a signal reaches them |
| `Handoff.dfy` | the command line and files that hand the held connections to a re-executed child |
| `Kernel.dfy`, `DetachRace.dfy`, `Takeover.dfy`, `Exporter.dfy` | sysfs writes as atomic steps, any number of callers releasing one device, any number of sessions exporting it, and the single caller as imperative code |
| `Backoff.dfy` | the retry loop, over real numbers of seconds |
| `Ordering.dfy`, `Listing.dfy` | the sort key and the tree that the sorted listing prints |
| `Pattern.dfy`, `DevPattern.dfy`, `Selection.dfy`, `Meaning.dfy`, `Words.dfy`, `Finding.dfy`, `Picking.dfy` | patterns, the texts they are matched against, the devices they find, and those that a hot-plug takes |
| `Uevent.dfy`, `HotPlugging.dfy`, `Mounts.dfy`, `Bootstrap.dfy`, `Announce.dfy`, `Session.dfy`, `Vhci.dfy`, `VhciRuns.dfy` | the text formats, read and written, and vhci's port table over runs of attaches and detaches |
| `Text.dfy` | the operations of Go's `strings` and `strconv` that these need |

How to read it:

- Text is `string`; where the program handles bytes, a character stands for a byte. Go's 64-bit
  `int` is written out where it matters (`Text.MAX_INT`, `Text.Atoi`, `Announce.MAX_BUS`).
- What the world does - poll results, messages, failing writes, how long a session lasts - is a
  parameter: a finite script that is universally quantified. Since scripts are arbitrary, what holds
  at the end of every script holds at every moment of every execution.
- Kernel facts are relations in `Kernel.dfy`; its header lists those that the results about releasing
  devices rest on.
- Lemmas over runs and scripts switch Dafny's automatic induction off: none of them rests on it.
- The loops are methods, each proved equal to a specification function or to a statement of its
  result; the main results are lemmas about those functions.

Where the program does not do what one would wish, the model keeps the program, a lemma exhibits an
input, and another says exactly when it does:

- A reverse `--vhub` session can pair a connection with the wrong device after a late answer
  (`Pairing.VhubCanMispair`, `Pairing.TimeoutCanMispair`); every other mode never does
  (`Pairing.PairingHoldsExactlyUnlessReverseVhub`), and that one does not until an accept has timed
  out with its answer on the way (`Pairing.PairedUntilStale`).
- A device that is released while it is on usbip-host's match list can end up on usbip-host again, the
  release reporting success: if "del" fails and the kernel probes it (`DetachRace.FailedDelCanUndo`), and
  also if "del" goes through, but the kernel has probed it since the unbind write
  (`DetachRace.EarlyProbeCanUndo`). Once it is off the list that cannot happen any more
  (`DetachRace.UnmatchedIsNotReclaimed`). Every race ends well exactly for devices that are not on the list
  (`DetachRace.AlwaysSettlesExactlyUnlessMatched`), and any race exactly if each time the kernel took the
  device back somebody released it again (`DetachRace.DetachRaceSettles`).
- An attach of a device that is in use cuts the old connection, and the session that held it then releases
  the device, taking it away from the new one (`Takeover.TakeoverLosesTheDevice`, `Takeover.TakingOverFails`,
  `Takeover.OlderSessionWins`). `Takeover.SurvivesExactlyWhen` says exactly when a new export is safe.
- An attach that is refused after it has unbound the device's driver leaves the device without one
  (`Takeover.RefusalLeavesDriverless`); nothing else leaves it so (`Takeover.DriverlessIfRefused`), and
  `Exporter.UsbHost.ExporterAttach` says exactly which driver a failed attach leaves.
- A fatal error strands what the process holds: a second device that is refused in the first loop
  (`Stranding.RefusalStrandsForward`, `Stranding.RefusalStrandsReverse`), or one that is refused when it
  is plugged in (`Stranding.HotPlugRefusalStrands`). `Stranding.ForwardAccountsExactlyWhen` and
  `Stranding.ReverseAccountsExactlyWhen` say exactly when, in terms of what the environment does.
- White space that the kernel does not escape, such as a carriage return, in a mountpoint or in the
  root beside it makes that mountpoint be read wrong (`Mounts.ReturnsAreNotReadBack`, and exactly when:
  `Mounts.PathReadBackExactlyWhen`, `Mounts.UnmountsExactlyTheDevicesMounts`).
- Hubs are said never to match. One with several transaction translators does
  (`Finding.MultiHubIsFound`), and a device that is no hub does not if one of its texts is 090000
  (`Finding.TextCanHide`). `Finding.HubFilterExactly`, `Finding.HubInterfaceExactly` and
  `Finding.NeverFoundExactlyWhen` say exactly which devices are filtered out.
- Devices that are plugged in later are filtered otherwise: by their class and path. So a hidden device is
  exported then (`Picking.TakenThoughHidden`), and a hub that is found is not (`Picking.FoundThoughHub`).
  `Picking.DifferExactlyWhen` and `Picking.AgreeExactlyWhen` say exactly when it makes a difference.
- The comment on `dvKey` says that '.' sorts before '-'. The bytes do it the other way round
  (`Ordering.DotSortsAfterDash`); the model follows the bytes. Well-formed busids never compare the
  two.

## Model

| member | source | states |
|---|---|---|
| `Pairing.PairingHoldsExactlyUnlessReverseVhub` | reverseside.go:286-293 | Over all interleavings of exporter, importer and connections that arrive late, in any order or never, every session of a mode gives usbip-host and vhci the two ends of one connection for one device, if and only if the mode is not reverse `--vhub`. |
| `Pairing.PairedUnlessVhub` | remoteside.go:128-151 | Forward and reverse oneshot sessions: in every run, the connection bound for a device is the one the importer opened for that device's line, and vhci was given it with that line; none is bound to two connections. |
| `Pairing.PairedUntilStale` | reverseside.go:108-148 | Reverse `--vhub`: the same in every run in which no accept of `reverseLinger` has timed out with an answer still on the way. |
| `Pairing.NeverBoundTwice` | remoteside.go:194-226 | In every mode an announcement is bound to at most one connection, and vhci gets with each connection the line it was opened for. |
| `Pairing.LateConnectionMispairs` | reverseside.go:115-139 | As long as the answer to an announcement is on its way (its line unread, its connection being opened, or open) and no longer waited for, announcing any other device suffices for it to be bound to that one. |
| `Pairing.TimeoutCanMispair` | reverseside.go:116-120 | Every accept timeout of `reverseLinger` with an answer on the way can end in a wrong pair, unless the importer has gone with the line unread. |
| `Pairing.VhubCanMispair` | reverseside.go:291-293 | A run from the start in which that happens, with two devices. |
| `Pairing.RunKeepsInv` | sshside.go:339-361 | The inductive invariant: unless an answer is stale, at most one announcement is unanswered, and only while the exporter waits. |
| `Pairing.EveryDeviceIsAttached` | remoteside.go:128-168 | In every run, as long as neither side has ended and no failure has been passed over, every device announced, but for one that is being waited for, is in use at both ends: its connection bound to usbip-host and, unless it is just about to be, given to vhci with its line. |
| `Pairing.EndComesLast` | reverseside.go:160-171 | "-Eof" is in the channel only when every device has been bound; a reverse oneshot session says it as soon as its first loop is over, and the importer ends on it. |
| `Pairing.NextDeviceCanBeAttached` | remoteside.go:194-226 | From every quiet moment of every run, in every mode, one more device can be announced, and attached at both ends. |
| `Pairing.FirstLoopCanEnd` | remoteside.go:170-177 | After its first loop a session with `--vhub` can go on; a oneshot session can say that it is complete, and end the importer. |
| `Pairing.AnythingCanFail` | sshside.go:339-395 | At any moment either side may end, a connection be dropped or refused, and a log line come. |
| `DetachRace.AtMostOneWinner` | usbip.go:177-196 | Any number of concurrent detaches, any interleaving of their writes with each other and the kernel's own actions, `match_busid` and `rebind` free to fail: every losing unbind write gets ENODEV, and as many go through as the device was given to usbip-host at most, so at most one unless the kernel gave it back. |
| `DetachRace.DetachRaceSettles` | usbip.go:189-247 | When all callers have finished, no plugged-in device is driverless; it has a driver other than usbip-host if and only if it was unbound as often as it was given to usbip-host, which means, unless the kernel gave it back, exactly once and if and only if anybody tried. |
| `DetachRace.AlwaysSettlesExactlyUnlessMatched` | usbip.go:177-196 | Every race for an exported device ends with a normal driver, whatever the interleaving, if and only if it is one for a device that is not on the match list. |
| `DetachRace.FailedDelCanUndo` | usbip.go:193-195 | A run in which "del" fails, the last resort gives the device back to usbip-host, and the caller reports success. |
| `DetachRace.EarlyProbeCanUndo` | usbip.go:189-193 | A run in which "del" goes through after the kernel has given the device back: it ends on usbip-host, off the match list, the caller reporting success. |
| `DetachRace.UnmatchedIsNotReclaimed` | usbip.go:193-193 | From any moment on at which a device is not on the match list, it is not given back any more. |
| `DetachRace.ReclaimedWasExposed` | usbip.go:193-195 | The kernel can give a device back only in a moment when it is driverless and still on the match list. |
| `DetachRace.NoCallerReportsTheRace` | usbip.go:217-229 | In every run no caller that has finished reports ENODEV: the unbind command tolerates losing. |
| `DetachRace.NoneIsPassedOver` | usbip.go:202-231 | In every run, a caller that has finished has written to `unbind` for every device it was started with, but for those that an "unbind" command found not bound, or had left when it gave up. |
| `DetachRace.OnlyFoundAreTried` | usbip.go:207-213 | In every run, an "unbind" command writes only for devices that were bound at some moment. |
| `DetachRace.ReportsAreTrue` | usbip.go:207-231 | A command that reports that nothing is bound has written nothing and found each of its devices not bound; one that reports anything else has written; any other caller reports success. |
| `DetachRace.OnlyENODEVPasses` | usbip.go:218-229 | Of what its last resort answers, a command lets only ENODEV pass. |
| `DetachRace.StretchObeysRely` | usbip.go:177-196 | Over any number of steps of any callers and of the kernel, what a single caller relies on is kept: no device appears, a normal driver stays, the match list only shrinks, and only what is on it can be exported again. |
| `DetachRace.NeverStuck` | usbip.go:236-247 | From every state an unfinished caller has a step that lowers a well-founded rank. |
| `DetachRace.RunKeepsInv` | usbip.go:177-188 | The invariant of all runs: unbinds that went through and being bound add up to how often the device was given to usbip-host, and a driverless device always has a caller that will not leave it so. |
| `Exporter.UsbHost.SettleDriver` | usbip.go:236-247 | Whatever the others do meanwhile, a device that is still plugged in ends up with a driver; one that has a driver is left alone, and one is asked for only after the last look. |
| `Exporter.UsbHost.ExporterDetach` | usbip.go:189-196 | One unbind write; if it goes through, the two best-effort steps and the wait follow in order, otherwise nothing; afterwards the device is not exported, whoever released it, unless the kernel gave it back; it has a driver after the caller's own release; a lost race is reported as ENODEV. |
| `Exporter.UsbHost.AfterUnbind` | usbip.go:193-195 | Those steps, each allowed to fail, leave a plugged-in device with a driver. |
| `Exporter.UsbHost.UnbindMatching` | usbip.go:202-231 | After success, or "nothing bound", none of the selected devices is exported but what the kernel gave back; only selected devices are touched; "nothing bound" is the answer if none was bound; the first answer other than ENODEV ends it and is the result. |
| `Exporter.UsbHost.Scan` | usbip.go:207-213 | What the scan leaves out is not bound any more when it is over, and what it takes was, unless the kernel gave it back. |
| `Exporter.UsbHost.BindToUsbip` | usbip.go:150-173 | A device that is there ends up bound, matched and available unless something was refused; its filesystems are unmounted before it loses its driver; a failure leaves it without a driver exactly if there was none or the write to its driver's unbind went through, and otherwise with the driver it had. |
| `Exporter.UsbHost.ExporterAttach` | usbip.go:142-175 | From every state - driverless, bound elsewhere, in error, available, in use - a device that is no hub ends up in use with the new socket unless something was refused; only success does that; no other device is touched. The steps are those of a plan made from its state, in order, up to the first that fails: a device in use has its connection cut and is not taken off usbip-host. A failure leaves it on usbip-host, driverless or with its old driver according to which writes went through. |
| `Takeover.SurvivesExactlyWhen` | usbip.go:142-175 | As long as its connection is not lost from outside, a session keeps its device over every interleaving with any number of other sessions and "unbind" commands, if and only if no other one of that device is about to look at it, cut it off or unbind its driver, or holds an older connection. |
| `Takeover.OlderSessionWins` | remoteside.go:258-267 | Whoever hands over its connection while another session has still to release that device is not connected when all have settled. |
| `Takeover.TakingOverFails` | usbip.go:147-150 | In every run, a session that finds the device in use with the connection of one that lingers does not have it in the end, if there is no third one and the kernel does not give the device back. |
| `Takeover.TakeoverLosesTheDevice` | usbip.go:147-150 | A run of two sessions in which the second takes over and is connected, and neither has the device in the end. |
| `Takeover.ConnectedIsHeld` | remoteside.go:128-151 | In every run, a device in use has a session that holds it, or is about to release it, or does not linger. |
| `Takeover.DriverlessIfRefused` | usbip.go:163-173 | In every run, if a device is without a driver when all have settled, an attach of it failed after unbinding its driver. |
| `Takeover.RefusalLeavesDriverless` | usbip.go:163-173 | A run in which that happens, "add" being refused. |
| `Takeover.FreedMeansEvicted` | usbip.go:156-166 | In every run, an attach counts as having freed its device only if at some moment it unbound it from a driver. |
| `Takeover.CanAttach` | usbip.go:150-174 | From whatever driver it has, or none, a device can come to be in use by a session. |
| `Takeover.LooksFirst` | usbip.go:146-150 | What an attach does first, by the number in `usbip_status`. |
| `Takeover.AnythingCanHappen` | usbip.go:142-196 | Importers may go, devices be unplugged, writes refused and drivers late, at any moment. |
| `Linger.Holder.Rebind` | reverseside.go:298-304 | Every held socket is released: a detach attempt, then its close, in order. |
| `Linger.Holder.PollSet` | reverseside.go:219-235 | The poll set: the fixed files, then entry base+i for socket i, asked whether its peer has gone. |
| `Linger.HungUpBits` | remoteside.go:262-262 | A socket has hung up if and only if bit 13, 4 or 3 of what poll answers is set. |
| `Linger.SignalledBits` | reverseside.go:244-250 | A pipe whose other end is closed shows bit 0, 4 or 3. |
| `Linger.BrokenBits` | remoteside.go:256-256 | A dead channel shows bit 4 or 3 in `vhubLoop`. |
| `Linger.ReadableBits` | remoteside.go:272-272 | And a readable socket bit 0. |
| `Linger.EnoughIsAsked` | reverseside.go:221-233 | What each entry of the poll sets asks for is enough to tell all of that. |
| `Linger.Holder.Sweep` | remoteside.go:260-270 | With the answers from `base` on, exactly the sockets that hung up are released and the others kept in order. |
| `Linger.Holder.NewDev` | remoteside.go:128-151 | A device is held if and only if its export went well and lingering is wanted; a failure changes nothing. |
| `Linger.Holder.ExportAll` | remoteside.go:153-168 | The first loop: the devices found but for the hubs, in order up to the first failure. |
| `Linger.ExportableExactly` | remoteside.go:154-156 | Hubs are those with `bDeviceClass` 09. |
| `Linger.Holder.TakeHotPlug` | reverseside.go:270-293 | The uevent part of a turn in both loops: what a failed receive, an uninteresting message, a failed and a good export do. |
| `Linger.Holder.TakeReverseTurn` | reverseside.go:218-267 | One turn, poll set laid out with and without `--vhub`, equals its specification: EINTR, poll error, signal before dead channel before everything else. |
| `Linger.Holder.AnswerReverse` | reverseside.go:242-267 | The same once poll has answered. |
| `Linger.Holder.ReverseLinger` | reverseside.go:192-295 | The loop, with its two early exits, equals the specification that the conservation results are about. |
| `Linger.Holder.TakeVhubTurn` | remoteside.go:241-300 | One turn of `vhubLoop`; a dead channel is looked at before anything is written to it. |
| `Linger.Holder.VhubLoop` | remoteside.go:235-301 | The loop equals its specification, up to hand-off or a fatal error. |
| `Linger.Holder.TakeChildTurn` | remoteside.go:378-398 | One turn of the linger child. |
| `Linger.Holder.LingerLoop` | remoteside.go:376-400 | The child's loop equals its specification; it ends when nothing is left to hold. |
| `HotPlugging.HotPlugOfMessage` | remoteside.go:283-299 | From the kernel's message to the held connection: exactly a bind event of the generic driver for a device that is no hub and not vhci's, selected by the pattern, is exported, and held under the last component of its path. |
| `HotPlugging.IsHotPlugExactly` | remoteside.go:283-288 | The filter on uevents, stated by keys and occurrences. |
| `HotPlugging.BaseOfPath` | remoteside.go:297-297 | `filepath.Base` of a device path is its last component. |
| `Conservation.ReverseSessionConserves` | reverseside.go:192-304 | At every moment of `reverseLinger` each socket ever held is still held or has had exactly one detach attempt and one close; after every exit (no pipe, no uevent socket, poll error, receive error, signal, dead channel) none is held. |
| `Conservation.EachDeviceDetachedOnce` | reverseside.go:298-304 | After the end, each busid has been detached exactly as often as it was taken. |
| `Conservation.ForwardSessionConserves` | remoteside.go:153-173 | A forward session from its first announcement on, hand-off and child included: each socket is released exactly once or still there. |
| `Conservation.ChildHoldsWhatHasNotHungUp` | remoteside.go:376-400 | As long as poll works, the child runs on and holds a socket exactly as long as it has not hung up. |
| `Exits.ReverseEndsExactlyWhen` | reverseside.go:218-278 | `reverseLinger` ends if and only if poll fails, a signal comes, the channel dies or (with `--vhub`) the uevent socket fails; it leaves the process if and only if what ends it is a signal, a channel that died with it notwithstanding. |
| `Exits.ReverseKeepsWhatLives` | reverseside.go:253-263 | As long as it runs, no socket that has not hung up is let go. |
| `Exits.VhubEndsExactlyWhen` | remoteside.go:241-299 | `vhubLoop` hands over if and only if what ends it is the dead channel, which comes before everything else in its turn; a failed poll, receive or export is fatal. |
| `Exits.VhubKeepsWhatLives` | remoteside.go:258-270 | What has not hung up is held, and handed over. |
| `Stranding.PlaceExactly` | remoteside.go:170-177 | The parent of a forward session holds what is left if and only if `vhubLoop` still runs; the child does if the session hands over and no process dies holding something. |
| `Stranding.ReverseAttachEndsExactlyWhen` | reverseside.go:154-182 | How a reverse session ends, and when it has not. |
| `Stranding.VhubHoldsExactly` | remoteside.go:235-301 | At every moment `vhubLoop` holds exactly what the first loop or a hot-plug took and has not hung up since. |
| `Stranding.VhubLeavesExactly` | remoteside.go:256-274 | And what it leaves when it ends, sockets that hang up in the last round included. |
| `Stranding.FirstLoopHoldsExactly` | remoteside.go:153-168 | The first loop, if no export fails, holds exactly its devices, none with `--no-linger`. |
| `Stranding.ChildDiesExactlyWhen` | remoteside.go:382-387 | The linger child dies if and only if its poll fails before something it was given has hung up. |
| `Stranding.ForwardAccountsExactlyWhen` | remoteside.go:153-173 | A forward session keeps track of all its devices, held or released once, if and only if no process dies holding one: of a failed export in the first loop after its first device, for want of a uevent socket, of a failed poll, receive or export of `vhubLoop`, of a child that cannot be started or one whose poll fails. |
| `Stranding.RefusalStrandsForward` | remoteside.go:163-165 | An input for that: two devices, the second refused. |
| `Stranding.HotPlugRefusalStrands` | remoteside.go:297-299 | Another: a device held, and one plugged in and refused. |
| `Stranding.HandedOverAndReleased` | remoteside.go:328-400 | If the session hands over, and every connection that was handed over hangs up, every device ever taken is released, each exactly once. |
| `Stranding.ReverseAccountsExactlyWhen` | reverseside.go:141-160 | A reverse session keeps track if and only if no export of the first loop, and not the "-Eof" after it, fails when the first device is already held. |
| `Stranding.RefusalStrandsReverse` | reverseside.go:145-147 | An input for that: two devices, the second refused. |
| `Shutdown.NoFurtherSession` | daemon.go:40-52 | From the moment the flag is set, in every interleaving, no session is started but one whose loop test had already passed. |
| `Shutdown.AtMostOneMoreAnswer` | reverseside.go:242-247 | With the handler done, at most one more poll is answered before the process is on its way out, be the channel dead or not. |
| `Shutdown.NextPollExits` | reverseside.go:242-247 | That poll makes `reverseLinger` release everything and exit. |
| `Shutdown.ExitedHavingReleased` | reverseside.go:242-247 | In every execution, once the process has exited on a signal, every socket its session ever held has had its one detach attempt and its one close. |
| `Shutdown.FlagStaysSet` | reverseside.go:30-44 | The handler's two steps are never undone. |
| `Shutdown.OnlySignalsEnd` | daemon.go:40-52 | In every execution the process stops only after the flag is set, and leaves a session for good only after the pipe is closed. |
| `Shutdown.CanComeToEnd` | reverseside.go:30-44 | From every moment on, a signal can bring the process to its end. |
| `Shutdown.AnotherSession` | daemon.go:40-52 | Without one, whenever a session is over another can be had, and be over. |
| `Handoff.SpawnLinger` | remoteside.go:333-354 | The child's arguments and extra files, in the order of the sockets. |
| `Handoff.LingerMain` | remoteside.go:365-372 | The i-th busid goes with descriptor 3+i. |
| `Handoff.ChildRunsAsTold` | main.go:135-171 | Whatever the `--sysfs` and `--modprobe` values (empty, or looking like flags), the child parses its command line to the parent's settings and busids. |
| `Handoff.CommandLineMeans` | main.go:135-147 | Any flags, in any order and however they are written, are parsed to what they mean, up to the first argument that is none or to "--". |
| `Handoff.ErrorsAreSeen` | main.go:135-147 | Unknown and nameless flags, switches with any other text, and settings without a value are errors. |
| `Handoff.WithoutFlags` | main.go:137-146 | The settings where no flag says otherwise. |
| `Handoff.DispatchExactly` | main.go:148-175 | When a command line is rejected, when it needs the usage text, and which command it is otherwise. |
| `Handoff.HandOffRoundTrip` | remoteside.go:328-372 | The child holds the parent's sockets: the same files under the same busids in the same order. |
| `Backoff.RetryRate` | daemon.go:40-52 | However long the sessions last, k of them and their sleeps take at least 15k - 41 seconds. |
| `Backoff.ElapsedWithPotential` | daemon.go:40-52 | The same with the potential that each backoff value has still to pay. |
| `Backoff.ElapsedAtMost` | daemon.go:40-52 | And besides the sessions themselves, a minute each at most. |
| `Backoff.StepPaysFor` | daemon.go:16-35 | Each session with its sleep pays 15 seconds plus the change of potential, for every duration. |
| `Backoff.SleepTimesRun` | daemon.go:15-24 | The sleep times the run (of a second at least) is the backoff, and there is no sleep after a run as long as the backoff. |
| `Backoff.EveryGapBounded` | daemon.go:16-35 | In every run, sleep <= backoff <= 60, and the next start is at most max(dt, backoff + 1) after the last. |
| `Backoff.ClosedForm` | daemon.go:27-35 | After n sessions of at most a minute since the start or a longer one, the backoff is min(60, 0.5 * 4^n). |
| `Backoff.OnlyFiveWaits` | daemon.go:27-35 | The backoff is always one of 0.5, 2, 8, 32 and 60. |
| `Backoff.Persistent` | daemon.go:40-52 | The loop runs sessions up to the first test that sees the flag, with that backoff, and keeps the rate. |
| `Ordering.KeyOrderIsTreeOrder` | list.go:35-51 | On canonical busids with numbers below 2^32, comparing the bytes of the keys is comparing the numbers lexicographically. |
| `Ordering.KeysAreDistinct` | list.go:35-51 | Different canonical busids have different names and different keys. |
| `Ordering.LexTotal` | list.go:53-55 | Byte comparison is a strict total order. |
| `Ordering.LexTransitive` | list.go:53-55 | And transitive. |
| `Ordering.BigEndianOrder` | list.go:47-50 | Four big-endian bytes, whatever follows, compare as the numbers. |
| `Ordering.DotSortsAfterDash` | list.go:35-46 | After the same digits '-' sorts before '.', contrary to the comment. |
| `Ordering.ColonSortsBetween` | list.go:37-46 | And ':' between the two. |
| `Ordering.HugeNumbers` | list.go:46-51 | A number that does not fit in 32 bits counts as the largest that does. |
| `Listing.ListingIsPreOrderWalk` | list.go:57-86 | Whatever else is in the directory and in whatever order it is read, if its device names are the busids of a hub tree, the sorted listing is that tree in pre-order, two more blanks per hub on the way. |
| `Listing.SortIsUnique` | list.go:53-55 | Any sorted permutation of the names of a strictly ordered set of paths is that order. |
| `Listing.WalkIsSorted` | list.go:57-67 | A pre-order walk is strictly ordered: hubs before what is below them, subtrees contiguous. |
| `Listing.BusIdText` | list.go:68-73 | A canonical busid counts as a device name, and its dots are the hubs on its way. |
| `Listing.DeviceNameExactly` | spec.go:12-12 | Which names are those of devices, character by character. |
| `Listing.OthersAreNoDevices` | spec.go:12-12 | The names of interfaces and of root hubs are not. |
| `Listing.ListDevices` | list.go:67-86 | The loop prints a line for each device name that is selected, indented by its dots. |
| `Pattern.NormHexIsNumeral` | pattern.go:24-31 | The normal form of a hex token is the numeral of its value. |
| `Pattern.NormHexExactly` | pattern.go:24-31 | Two tokens have one normal form if and only if they have one value. |
| `Pattern.WordCodes` | pattern.go:17-18 | Which characters make words. |
| `Pattern.MetaCodes` | pattern.go:41-41 | Which ones an expression gives a meaning to. |
| `Pattern.OthersAreNotCompiled` | pattern.go:54-57 | Of the expressions beyond those modelled, none is taken for one of them. |
| `DevPattern.BusidPatternExactly` | pattern.go:16-16 | A pattern is a busid if and only if it is a number, a dash, and numbers with dots between them. |
| `DevPattern.LongerWordsAreNone` | pattern.go:17-18 | Hex digits that are only part of a word are no token. |
| `DevPattern.OddProducts` | spec.go:40-45 | What PRODUCT gives when it is missing, or an id is no hex number or too large. |
| `DevPattern.Hex4Width` | spec.go:51-53 | Ids have four digits, more only from 10000 hex on. |
| `Selection.PatternItems` | pattern.go:43-48 | `vid:pid`, `vid:` and `:pid` compile to the normal forms of their tokens, zeros before them allowed, between word boundaries. |
| `DevPattern.SpecOfProduct` | spec.go:40-53 | The text of a device, given the kernel's PRODUCT. |
| `DevPattern.MatchToken` | pattern.go:44-48 | What such a token matches: zeros and then the digits, between word boundaries. |
| `Meaning.VidPidMeans` | pattern.go:33-64 | Against the text of a device without colons in its strings, the pattern matches if and only if the ids are the tokens' values, for any leading zeros and letter case. |
| `Meaning.BusidMeans` | pattern.go:40-42 | A busid pattern matches the text of that device and of no other, prefixes included. |
| `Meaning.NegationSelectsTheOthers` | pattern.go:33-64 | A leading '!' or '-' selects exactly the other devices. |
| `Words.WordsMean` | pattern.go:43-70 | A pattern of plain words, whatever white space is between them, matches exactly the texts in which the words stand one after another with one or more blanks between each two. |
| `Finding.FindDev` | spec.go:59-91 | Which devices are found, and when the answer is "multiple" or "no" devices. |
| `Finding.KeepExactly` | spec.go:63-79 | Found are exactly the devices that qualify. |
| `Finding.HubFilterExactly` | spec.go:12-15 | A device is filtered out as a hub if and only if 090000 stands as a word in its busid, numbers, serial, manufacturer or product, or in the digits of one of its interfaces. |
| `Finding.HubInterfaceExactly` | spec.go:16-29 | An interface does that if and only if it is 9/0/0. |
| `Finding.NeverFoundExactlyWhen` | spec.go:56-79 | No pattern, negated ones included, finds a device if and only if it is filtered out. |
| `Finding.IdsFindExactly` | spec.go:35-79 | `vid:pid` finds a device if and only if it has those ids and is not filtered out. |
| `Finding.BusidFindsOne` | spec.go:80-91 | A busid finds its device or nothing, never several. |
| `Finding.HubsAreNeverFound` | spec.go:56-70 | A hub with interface 9/0/0 is found by no pattern. |
| `Finding.MultiHubIsFound` | spec.go:56-70 | One with 9/0/1 or 9/0/2 is, by its ids. |
| `Finding.IfSpecOfNumbers` | spec.go:16-29 | Decimal class, subclass and protocol become three times two hex digits. |
| `Finding.OddInterfaces` | spec.go:18-28 | An INTERFACE that has not three parts has no spec. |
| `Finding.TextCanHide` | spec.go:12-15 | A serial, manufacturer or product text of those six digits hides a device that is no hub from every pattern. |
| `Picking.DifferExactlyWhen` | remoteside.go:283-293 | Of the devices a pattern matches, a hot-plug takes one that findDev would not find, or the reverse, exactly under these conditions on its class, path, texts and interfaces. |
| `Picking.AgreeExactlyWhen` | remoteside.go:153-156 | Plugged in later or there from the first, a device is exported alike, whatever the pattern, if and only if it is a hub by its class or the two filters agree on it. |
| `Picking.LooksByNumbers` | spec.go:12-29 | With no such word in its texts, findDev's filter stops a device if and only if it has the interface 9/0/0. |
| `Picking.TakenThoughHidden` | remoteside.go:283-293 | An input: a device that is no hub, with 090000 among its texts. |
| `Picking.FoundThoughHub` | remoteside.go:153-156 | Another: a hub with several transaction translators is found by its ids, and exported neither way. |
| `Picking.HotPlugByIds` | remoteside.go:282-299 | With the pattern `vid:pid`, a device's message leads to a held connection if and only if the device has these ids, is no hub by its class, has not come through vhci, and its export goes well. |
| `Picking.DeviceMeans` | remoteside.go:288-297 | The device of a uevent has what the uevent says, and is called by the last component of its path. |
| `Mounts.UnescapeOfEscape` | usbip.go:249-257 | Decoding undoes the kernel's escapes on every path. |
| `Mounts.OctalExactly` | usbip.go:249-257 | Three octal digits after a backslash stand for a byte, and nothing else does. |
| `Mounts.DirectoryFinds` | sysfs.go:63-82 | A directory of the name is found as well, and reads as "". |
| `Mounts.PathReadBackExactlyWhen` | usbip.go:261-275 | A mountpoint is read back right if and only if neither it nor the root beside it has white space that the kernel does not escape (but for some at the root's end), or the root happens to hold the mountpoint's name as its second word. |
| `Mounts.ReturnsAreNotReadBack` | usbip.go:261-275 | Inputs for that, whatever follows on the line: a carriage return in the one, and in the other. |
| `Mounts.MountpointsFor` | usbip.go:261-275 | The mountpoints of the given devices, last line first. |
| `Mounts.DevNums` | usbip.go:280-285 | The set of device numbers in the tree's `dev` files, empty ones left out. |
| `Mounts.DoUnmounts` | usbip.go:279-297 | What is passed to umount. |
| `Mounts.FoundIsThere` | sysfs.go:63-82 | Every text found by the walk is that of a file reached through directories, links not followed. |
| `Mounts.ThereIsFound` | sysfs.go:63-82 | And every such file is found, however deep. |
| `Mounts.UnmountsExactlyTheDevicesMounts` | usbip.go:277-297 | For any mount table as the kernel renders it, what is unmounted is, newest first, what is read for exactly the mounts whose device number some `dev` file below the device names; these are their mountpoints if and only if each of those is read back right, whatever the other mounts are. |
| `Uevent.ParseUevent` | remoteside.go:303-311 | The loop collects the pairs of the NUL-separated pieces. |
| `Uevent.ReadUevent` | sysfs.go:20-29 | And this one those of the lines. |
| `Uevent.ParseOfMessage` | remoteside.go:303-311 | Parsing a rendered message gives the last-wins map of its pairs, '=' in values included. |
| `Uevent.ReadOfFile` | sysfs.go:12-29 | Reading a rendered file does too, but for trailing blanks of the last value. |
| `Uevent.LastWinsIsUnique` | remoteside.go:303-311 | There is one such map. |
| `Uevent.BothReadersAgree` | sysfs.go:20-29 | The two readers agree on a device. |
| `Bootstrap.ReceiveOfShipment` | sshside.go:94-113 | For every newline-free password, every argument line and every payload, the bootstrap reads what `dialRemote` wrote, and all that is sent later is left for the payload. |
| `Bootstrap.AwaitArch` | sshside.go:244-260 | The first "-Arch" line or sudo failure ends the wait; the last five lines of chatter are kept. |
| `Bootstrap.ChatterMeans` | sshside.go:244-260 | The lines passed over are no "-Arch" lines and, with sudo, no sudo failures. |
| `Bootstrap.DialRemote` | sshside.go:202-311 | What has been sent in each outcome; nothing but the password without a payload for the architecture. |
| `Bootstrap.TrimSpaceLeaves` | sshside.go:262-262 | The architecture is what is between the white space at either end. |
| `Bootstrap.ShellFieldLeaves` | sshside.go:94-94 | The shell's `read` takes off just the blanks and tabs at either end. |
| `Session.AsksForWhatWasSent` | sshside.go:339-361 | Whatever is printed in between, either importer imports the announced devices, all of them, in order, and the local one forwards each socket it is told of before it goes on. |
| `Session.ImportsWhatWasAnnounced` | remoteside.go:124-173 | A forward session as a whole: first the forward, then the imports; a reverse one: the imports. |
| `Session.RunAttach` | sshside.go:339-361 | The loop does what its lines ask for, in order, up to the first failure, bad line or "-Eof". |
| `Session.RemoteImport` | remoteside.go:194-229 | The same for the reverse importer. |
| `Session.ImportExactly` | sshside.go:339-361 | What they do, and how they end, follows from the lines and the first action that fails. |
| `Session.ScanOfSent` | sshside.go:340-341 | Lines written are the lines scanned. |
| `Session.ScanOfTail` | sshside.go:340-341 | And a last line that does not end is one too. |
| `Session.ReturnIsDropped` | sshside.go:340-341 | A carriage return before the newline is none of the line. |
| `Session.EndIsSeen` | sshside.go:342-361 | However the stream ends - by "-Eof", a bad line, or being closed - all that came before is done, nothing after it, and the end is told for what it is. |
| `Announce.ParseOfDevLine` | sshside.go:371-377 | A "-Dev" line is read back to its numbers, whatever zeros pad them. |
| `Announce.OtherLines` | sshside.go:371-374 | Other lines announce nothing, and one without three fields is bad. |
| `Announce.OrBelowShift` | usbip.go:99-100 | `bus<<16\|dev` is a sum if dev fits below the shift. |
| `Announce.OrByBits` | usbip.go:99-100 | Each bit of it is set if and only if it is in one of the two. |
| `Announce.MaxBusSurvives` | usbip.go:99-100 | Up to which bus number the shift does not overflow. |
| `Announce.DevIdSplits` | usbip.go:93-101 | The device id splits into bus and dev again. |
| `Announce.DevIdsAreDistinct` | remoteside.go:129-163 | Two announced devices have one device id if and only if they are one device. |
| `Vhci.FindVhciAndPort` | usbip.go:67-91 | The nested loops find the first free row of the hub for the speed, over all files. |
| `Vhci.ReadsTheTable` | usbip.go:52-58 | Reading the status files the kernel shows gives its port table. |
| `Vhci.PicksFirstFree` | usbip.go:77-90 | So the port found is the first that is null and on that hub, and none is found exactly if there is none. |
| `Vhci.SeesUsedPorts` | usbip.go:110-120 | And the ports a detach considers are the used ones. |
| `Vhci.ImporterDetach` | usbip.go:103-140 | Up to the first failing write, exactly the used ports asked for are written, in order; the two errors occur exactly if nothing is attached, or nothing matched. |
| `Vhci.DetachExactly` | usbip.go:103-140 | So what is written, and the answer, follow from the used ports, the arguments and the first write that fails. |
| `Vhci.SpeedRoundTrip` | usbip.go:33-49 | For each speed that the kernel shows in sysfs, the code written to vhci is that speed. |
| `Vhci.SpeedCodes` | usbip.go:33-49 | The code of each speed, by number; an unknown one counts as high speed. |
| `Vhci.RowByFields` | usbip.go:77-87 | Which lines are those of free and of used ports, by their fields. |
| `Vhci.StatusByNumber` | usbip.go:22-30 | Of the kernel's ports, those with status 4 are free and those with status 6 used. |
| `Vhci.AllAsksForAll` | usbip.go:104-124 | "all" asks for every used port. |
| `Vhci.AsksByBusid` | usbip.go:104-124 | Anything else for those with a busid among the arguments. |
| `VhciRuns.AttachTakesOneFreePort` | usbip.go:93-101 | An attach whose write is not refused changes one port, which was null and of the hub its speed needs, so that the kernel can tell the announced device from it; there is none if and only if no such port is null. |
| `VhciRuns.DetachFreesWhatWasAskedFor` | usbip.go:103-129 | A detach frees exactly the used ports whose busid it names, or all, as far as its writes go through, and all of them if none is refused. |
| `VhciRuns.StepKeepsShape` | usbip.go:60-101 | No command changes which ports there are. |
| `VhciRuns.HeldUntilAskedBack` | usbip.go:67-140 | Over any run of commands that do not ask for it back, an attached device keeps its port. |

## Left out

- ssh itself, its control-master commands, temporary directories, ownership, credentials, process
  spawning and exit codes, logging, syslog, tty prompts, embedding of payloads, usage texts: no logic
  of this program.
- Netlink, poll, sysfs and ioctl calls are scripts and relations: poll answers for all of its entries
  or fails, exec gives the i-th extra file descriptor 3+i, `head -c` and `sudo -S` read no more than
  they need.
- Time: deadlines (two seconds for a connection, 45 for the handshake) may pass at any point; the
  repeated prompt for a password is not modelled.
- Bootstrap.DialRemote: does not model a handshake that times out, a read error, or a write that fails.
- Backoff.Persistent: does not model floating-point rounding or the truncation of the sleep to
  nanoseconds.
- DetachRace.DetachRaceSettles: does not model a device that is unplugged and plugged in again during
  the race, only one that is unplugged.
- Exporter.UsbHost.ExporterAttach: runs alone (`Takeover.dfy` has it against others); a device is available
  at once after "-1" is written; and it does not model that `match_busid` can keep the name of a device that
  is not there.
- Exporter.UsbHost.BindToUsbip: runs alone too; why modprobe, umount or a write is refused is not
  modelled, only that it may be.
- Takeover.SurvivesExactlyWhen: takes a device to be available at once after "-1", likewise.
- Takeover.TakingOverFails: with a third session, or if the kernel gives the device back between, the
  device can be had again; those runs are covered by `Takeover.OlderSessionWins` only.
- Linger.Holder.NewDev: takes the announcement, the accept and the attach as one outcome; they are
  modelled in `Pairing.dfy` and `Exporter.dfy`. That it closes a connection that it does not hold is not
  in the log.
- VhciRuns.AttachTakesOneFreePort: takes a port to be in use at once; in the kernel it passes through
  a state between. Nor does it model two importers at a time, or `modprobe`.
- VhciRuns.DetachFreesWhatWasAskedFor: takes a port to be null at once, likewise.
- Announce.DevIdSplits: does not model bus numbers from 2^47 on, where Go's shift overflows.
- Listing.ListDevices: takes the sorted names; sorting is Go's, known only to give a sorted
  permutation. Interface lines, `classNames` and column widths are printing.
- Meaning.VidPidMeans: only the expressions that vid:pid, busid and word patterns compile to are modelled
  (`DevPattern.MkDevPattern` gives None for others); Go's regexp engine is not, so that a pattern that
  is a free regular expression has no stated meaning.
- DevPattern.SpecOfProduct: PRODUCT numbers with a sign are not modelled.
- Mounts.UnescapeOfEscape: works on characters; an escape from `\200` on stands for one byte of a
  longer UTF-8 sequence, which is not recombined. Running umount is not modelled.
- HotPlugging.BaseOfPath: does not model paths that end in a slash.
- Bootstrap.ReceiveOfShipment: of the JSON line, only that it is one line in braces (section 7 of
  RFC 8259); that decoding undoes encoding is left to the JSON package.
- Session.RunAttach: does not model the scanner's limit of 64 KiB on a line, or read errors.
- Session.RemoteImport: nor does this.
- `reset`, `list` options, `e2e/` and the build: glue, single-branch code or packaging.
