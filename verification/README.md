# Quick Share protocol and daemon model

A Dafny model of the parts of omarchy-quickshare where several pieces of state
must agree: receive visibility and consent, the share lifecycle and its clocks,
preference delivery, BLE Weave framing, ZIP folder archives, the UKEY2 handshake
with its secure channel, endpoint advertisements, app offers and staged files.
`dafny verify dfyconfig.toml` checks everything.

Where the source changes objects in place, the model has a class whose methods
are proved equal to specification functions; the results over whole runs are
lemmas about those functions. Concurrent parts are systems of atomic steps, and
a theorem about `Exec(.., steps)` holds for every sequence of steps.

## Files

- `Base.dfy`, `Blocks.dfy`, `Utf8.dfy`, `Utf8Scalars.dfy`: options, results, machine
  widths; bytes laid end to end; text, and the scalar values it encodes.
- `Consent.dfy`, `Visibility.dfy`, `VisibilityLaws.dfy`: consent tokens and the
  visibility state machine.
- `Inbound.dfy`, `InboundSafety.dfy`, `InboundTheorems.dfy`, `InboundOutcomes.dfy`:
  those and the share as one concurrent system, its invariant, what follows from it,
  and what whole runs bring about.
- `ControlRuns.dfy`, `Control.dfy`: the daemon code that joins them, on objects,
  proved to be runs of that system.
- `Sharing.dfy`, `SharingLaws.dfy`: the coordinator of the displayed share, peers and
  search.
- `Daemon.dfy`, `DaemonLaws.dfy`, `DaemonSafety.dfy`, `DaemonInbound.dfy`: whole daemon
  runs, what each report and request does, the calls they make, and their lifecycle.
- `DaemonTiming.dfy`, `ClockGaps.dfy`, `Namesakes.dfy`, `DaemonClocks.dfy`: their
  deadlines and where those slip.
- `Preferences.dfy`, `PreferenceLaws.dfy`, `PendingSaves.dfy`, `PreferenceControl.dfy`:
  the preference protocol between daemon and network worker, what its status and its
  pending flag say, and the daemon's calls in place.
- `Weave.dfy`, `WeaveLayout.dfy`, `WeaveStream.dfy`, `WeaveLaws.dfy`: packets, and the
  byte stream over them.
- `Crc32.dfy`, `CrcPolynomial.dfy`: the checksum, and the polynomial division it is.
- `ZipNames.dfy`, `Zip.dfy`, `ZipLayout.dfy`, `ZipText.dfy`: the archive writer, with an
  independent reader after sections 4.3.7, 4.3.12 and 4.3.16 of the ZIP application
  note, its octets, and the names it shows.
- `Ukey2.dfy`, `Ukey2Laws.dfy`, `SecureChannel.dfy`, `SecureChannelLaws.dfy`: the
  handshake and the sequenced channel.
- `EndpointInfo.dfy`, `EndpointLayout.dfy`, `Offers.dfy`, `OfferLaws.dfy`,
  `Staging.dfy`, `StagingLaws.dfy`, `StagedBytes.dfy`: validated input and files.

Modules whose names end in `Laws`, `Layout`, `Outcomes` or `Polynomial` state what the
operations amount to in terms and numbers of their own: octets at their places,
tables of moves, exact conditions, whole lives.

## What does not hold

These promises fail in the code as written. Each has a lemma with the failing
case and one with the exact condition.

- A search is not always held to its own start and timeout. A pass that ends the
  share of a running search leaves the old start behind, and the next search
  inherits it (`LingeringStartIsReachable`, `StartLingersExactlyWhen`,
  `SearchDeadlineIsExact`).
- A transfer is not always held to its own beginning. A peer acceptance that
  arrives during it, whatever share it names, restarts its clock
  (`MovedStartIsReachable`, `StrayAcceptanceMovesStart`, `TransferDeadlineIsExact`).
- A preference save can stop being pending while it is still in flight
  (`PendingMayClearEarly`): exactly when a configuration was sent beside an equal
  one (`PendingIsExactExactly`, `AcknowledgementClearsEarlyExactly`).
- Share identifiers repeat at the largest 64-bit value, and a share that ended
  under it can be displayed as live again (`SaturatedIdentifiersRepeat`,
  `IdentifiersAreDistinctExactly`, `EndedIsFinalExactly`).
- Such a share can also be held to the timeout captured for its namesake
  (`NamesakeIsReachable`, `NamesakeKeepsTimeout`, `TransferDeadlineIsExact`).
- Two files of a folder can be archived under one name when their names are not
  UTF-8 (`IllFormedNamesCollide`, `NamesCollideExactly`).
- An archive records UTF-8 names without saying so, and a reader that takes it at
  its word shows them as text exactly when they are ASCII
  (`OtherNamesAreGarbled`, `AccentIsSuchAName`, `NamesAreTextExactly`).
- Two sides of a session can derive different session identifiers when their
  directional keys share a Java hash (`SessionsCanDiffer`, `SessionsMatch`).
- A rejected channel message can advance the receive sequence
  (`EmptyPacketAdvances`, `RejectionAdvancesExactlyWhen`); a genuine one never does.
- A read of the byte stream can return nothing though the pipe is open
  (`EmptyPayloadReadsAsNothing`): exactly for the empty payloads
  (`EmptyReadsAreEmptyPayloads`, `SentEmptyIsReadEmpty`).
- An endpoint with an empty name does not survive encoding (`DecodeEncode`).
- A staged file can be published longer than declared after a partly failed
  write (`ResidueIsPublished`, `PublishedIsExactExactly`).

## Modelling choices

- Integers are unbounded; widths, saturation, wrapping and checked overflow are
  written out where the code relies on them.
- Clocks are parameters of steps and never go back. A durable generation
  overflow, which panics under the lock, becomes a poisoned state that refuses
  every later step.
- The CRC register is its 32 bits, least significant first.
- P-256, SHA, HKDF, AES, HMAC and protobuf are uninterpreted functions with the
  laws stated in `Lawful`: encodings of values that fit the wire decode, key
  agreement commutes, decryption undoes encryption. Authenticity is the
  hypothesis `Genuine`.
- UTF-8 and its lossy form are written out after section 3.9 of the Unicode
  Standard. The code page of a name without the UTF-8 bit is any that gives each
  octet one character, and ASCII octets their own.
- The file system is a map from names to files; other processes may create and
  remove names at any step, but leave this process's hidden parts alone.
- Progress reported while one payload part arrives is assumed monotone and within
  that part's size.

## Model

| member | source | states |
|---|---|---|
| `Consent.Token.Apply` | crates/app/src/daemon/visibility/consent.rs:59-142 | a settled decision never changes, acceptance and admission are entered exactly as promised, generation and deadline are kept; `OutcomesAre` gives the cause of every other outcome |
| `Consent.PendingConsent.constructor` | crates/app/src/daemon/visibility/consent.rs:38-53 | a new offer is undecided, unbound, and holds its deadline from creation |
| `Consent.PendingConsent.Decide` | crates/app/src/daemon/visibility/consent.rs:59-70 | reading a decision at or past the deadline turns an undecided one into a timeout, and nothing else |
| `Consent.PendingConsent.AdmitOffer` | crates/app/src/daemon/visibility/consent.rs:72-79 | the stored decision after admission is the token action on the old one; it reports success exactly when it changed |
| `Consent.PendingConsent.BindShare` | crates/app/src/daemon/visibility/consent.rs:81-84 | binding changes the share identifier and nothing else |
| `Consent.PendingConsent.ReadShare` | crates/app/src/daemon/visibility/consent.rs:86-88 | reading the bound share applies the lazy timeout and nothing else |
| `Consent.PendingConsent.ReadOutcome` | crates/app/src/daemon/visibility/consent.rs:90-92 | reading the outcome is the lazy timeout and nothing else |
| `Consent.PendingConsent.AcceptShare` | crates/app/src/daemon/visibility/consent.rs:94-103 | acceptance succeeds exactly from a pending, unexpired decision bound to that share |
| `Consent.PendingConsent.RejectShare` | crates/app/src/daemon/visibility/consent.rs:105-115 | rejection succeeds exactly from an offered or pending, unexpired decision |
| `Consent.PendingConsent.CancelIfUnadmitted` | crates/app/src/daemon/visibility/consent.rs:117-122 | only an offer that was never admitted is cancelled |
| `Consent.PendingConsent.FailOffer` | crates/app/src/daemon/visibility/consent.rs:124-132 | failing leaves accepted and settled decisions alone |
| `Consent.PendingConsent.CancelOffer` | crates/app/src/daemon/visibility/consent.rs:134-142 | cancelling is the token action in place, whose outcomes `OutcomesAre` lists |
| `Visibility.Initial` | crates/app/src/daemon/visibility.rs:37-51 | the closed endpoint satisfies the state invariant: a lease iff open, requested iff starting or open, a deadline iff open without policy |
| `Visibility.Expire` | crates/app/src/daemon/visibility.rs:107-123 | lazy expiry keeps the invariant, never cancels a token, moves to a new generation exactly when the deadline passed |
| `Visibility.RequestOpen` | crates/app/src/daemon/visibility.rs:80-93 | a repeated open request is a no-op, so it cannot move the deadline; what the first one starts is `RequestStarts` |
| `Visibility.SetPolicy` | crates/app/src/daemon/visibility.rs:145-161 | the state invariant survives every policy change; what each change does is `PolicyOnStarts`, `WithdrawalCloses` and `SamePolicyIsInert` |
| `Visibility.Close` | crates/app/src/daemon/visibility.rs:163-169 | the state invariant survives closing |
| `Visibility.CompleteActivation` | crates/app/src/daemon/visibility.rs:171-200 | the state invariant survives any activation result, wanted or not |
| `Visibility.StaleActivationIsInert` | crates/app/src/daemon/visibility.rs:171-182 | an earlier generation's result changes neither phase, permission nor lease, and its own lease is closed |
| `Visibility.AdmitOffer` | crates/app/src/daemon/visibility.rs:243-264 | admission happens exactly when the state permits the generation, no prior token is busy, and the token is offered and unexpired; otherwise only expiry shows |
| `Visibility.SharedVisibility.WithdrawPermission` | crates/app/src/daemon/visibility.rs:59-73 | the mutable state after a revocation is the specified one, and the returned lease is the one it held |
| `Visibility.SharedVisibility.RevokeExplicitly` | crates/app/src/daemon/visibility.rs:59-73 | an explicit revocation also cancels the token the weak reference still reaches |
| `Visibility.SharedVisibility.RequestState` | crates/app/src/daemon/visibility.rs:80-93 | the mutable request step is the specified one, whose effect `RequestStarts` pins, and returns the new generation only when it started one |
| `Visibility.SharedVisibility.ExpireState` | crates/app/src/daemon/visibility.rs:107-123 | the mutable expiry is the specified one |
| `Visibility.SharedVisibility.OpenTemporarily` | crates/app/src/daemon/visibility.rs:141-143 | `request_open` on the shared state is the specified step |
| `Visibility.SharedVisibility.ChangePolicy` | crates/app/src/daemon/visibility.rs:145-161 | `set_policy` on the shared state is the specified step, including the token it cancels |
| `Visibility.SharedVisibility.CloseNow` | crates/app/src/daemon/visibility.rs:163-169 | `close` on the shared state is the specified step, including the token it cancels |
| `Visibility.SharedVisibility.FinishActivation` | crates/app/src/daemon/visibility.rs:171-200 | `complete_activation` on the shared state is the specified step, and closes exactly the leases specified |
| `Visibility.SharedVisibility.ProposeOffer` | crates/app/src/daemon/visibility.rs:224-241 | a token is proposed exactly for the open generation, with its deadline captured |
| `Visibility.SharedVisibility.AdmitConsent` | crates/app/src/daemon/visibility.rs:243-264 | `admit` on the shared state and the token object is the specified admission |
| `InboundSafety.EveryRunIsSafe` | crates/app/src/daemon/visibility.rs:59-264 | every interleaving of the visibility, consent and control steps keeps the whole-system invariant |
| `InboundSafety.StepKeepsInv` | crates/app/src/daemon/visibility/control.rs:28-129 | each of the concurrent steps keeps the whole-system invariant |
| `InboundTheorems.WithdrawalIsFinal` | crates/app/src/daemon/visibility.rs:145-169 | after a close or an on-to-off policy change, no token proposed earlier and not yet accepted is accepted in any later run |
| `InboundTheorems.AcceptanceIsForever` | crates/app/src/daemon/visibility/consent.rs:94-142 | an accepted token stays accepted for the same share through every later step |
| `InboundTheorems.PassiveExpirySparesAdmittedOffer` | crates/app/src/daemon/visibility.rs:107-123 | passive expiry changes no token, and an admitted offer can still be accepted up to its own deadline |
| `InboundTheorems.AtMostOneBusy` | crates/app/src/daemon/visibility.rs:243-264 | over every interleaving at most one live token is admitted or accepted, and it is the one the state points to |
| `InboundTheorems.ShareAndConsentAgree` | crates/app/src/daemon/visibility/control.rs:28-129 | a live inbound share always has its bound token held by the daemon; a transferring one was accepted under its own identifier before the captured deadline |
| `InboundTheorems.AcceptIsAllOrNothing` | crates/app/src/daemon/visibility/control.rs:105-118 | a request moves the token exactly when it moves the share, and exactly when the displayed offer is still open |
| `InboundTheorems.LeaseConservation` | crates/app/src/daemon/visibility.rs:59-139 | every lease handed over is the one held or was closed exactly once; one is held exactly while open |
| `InboundTheorems.NewLeaseNeverOverwrites` | crates/app/src/daemon/visibility.rs:171-200 | a lease is stored only for the awaited generation and only where none was held |
| `InboundTheorems.ActivationTimesAreFixed` | crates/app/src/daemon/visibility.rs:171-200 | a generation is activated at most once: its activation time never changes |
| `InboundTheorems.WindowNeverMoves` | crates/app/src/daemon/visibility.rs:80-93 | while a generation stands, its temporary deadline is ten minutes after its one activation, whatever is requested again |
| `InboundTheorems.AdmissionsFallInTheWindow` | crates/app/src/daemon/visibility.rs:243-264 | without durable policy every admission falls strictly within ten minutes of the activation of its generation |
| `InboundTheorems.EndedSharesStayEnded` | crates/app/src/daemon/visibility/control.rs:28-129 | over every interleaving an ended share below the largest identifier keeps its terminal phase, and a share shown later was created since under an identifier reserved since |
| `InboundTheorems.LiveShareIsNeverLost` | crates/app/src/daemon/visibility/control.rs:67-103 | over every interleaving a share leaves the display only after it was displayed with a terminal phase |
| `Control.InboundControl.HasActiveShare` | crates/app/src/daemon/visibility/control.rs:67-77 | whether the displayed share is not terminal |
| `Control.InboundControl.ProjectConsent` | crates/app/src/daemon/visibility/control.rs:28-65 | the token read twice, the share it ends, and when the daemon lets the token go |
| `Control.InboundControl.SyncConsent` | crates/app/src/daemon/visibility/control.rs:28-65 | objects that show a state of the concurrent system show its synchronised state afterwards: share, token, retained token and reference counts |
| `Control.InboundControl.PollVisibility` | crates/app/src/daemon/visibility/control.rs:28-40 | objects that show a state of the concurrent system show its expired state afterwards, and the leases closed are the ones it closed |
| `Control.InboundControl.SyncVisibility` | crates/app/src/daemon/visibility/control.rs:28-65 | `sync_visibility`: objects that show a state of the concurrent system show `Synced` of it afterwards, on every object |
| `ControlRuns.SyncIsARun` | crates/app/src/daemon/visibility/control.rs:28-65 | `Synced` is two steps of the concurrent system: expiry, then one reading of the token |
| `Control.InboundControl.AcceptPending` | crates/app/src/daemon/visibility/control.rs:105-118 | objects that show a state of the concurrent system show `AcceptCall` of it afterwards, accepted or not; the call reports success exactly when the offer is open and its token accepts |
| `ControlRuns.AcceptIsARun` | crates/app/src/daemon/visibility/control.rs:105-118 | `AcceptCall` is one step of the concurrent system, and on refusal the steps of a synchronisation |
| `Control.InboundControl.RejectPending` | crates/app/src/daemon/visibility/control.rs:120-129 | objects that show a state of the concurrent system show `RejectCall` of it afterwards, decided or not |
| `ControlRuns.RejectIsARun` | crates/app/src/daemon/visibility/control.rs:120-129 | `RejectCall` is one step of the concurrent system, and where nothing was decided the steps of a synchronisation |
| `Control.InboundControl.CancelShare` | crates/app/src/daemon.rs:354-378 | objects that show a state of the concurrent system show `CancelCall` of it afterwards, with the token bound, unbound or absent |
| `ControlRuns.CancelIsARun` | crates/app/src/daemon.rs:354-378 | `CancelCall` is the two cancellation steps of the concurrent system |
| `Control.InboundControl.AskVisibility` | crates/app/src/daemon/visibility.rs:243-264 | asking the shared objects for admission and asking the concurrent system give the same answer, visibility, tokens and closed leases, refused or not |
| `Control.InboundControl.AdmitInbound` | crates/app/src/daemon/visibility/control.rs:79-103 | objects that show a state of the concurrent system show `AdmitCall` of it afterwards, refused, admitted or dismissed; a share exists exactly when nothing was live, the token was admitted and the peer is known |
| `ControlRuns.AdmitIsARun` | crates/app/src/daemon/visibility/control.rs:79-103 | `AdmitCall` is one refusal step, or the admission, binding and dismissal steps of the concurrent system |
| `Sharing.ObserveKeepsPeers` | crates/core/sharing/src/snapshot.rs:244-252 | observing a peer keeps identifiers distinct and at most one pin |
| `Sharing.RemoveKeepsPeers` | crates/core/sharing/src/snapshot.rs:290-298 | removing a peer keeps identifiers distinct and at most one pin |
| `Sharing.PinKeepsPeers` | crates/core/sharing/src/snapshot.rs:267-281 | pinning moves the single pin |
| `Sharing.ApplyKeepsShare` | crates/core/sharing/src/coordinator.rs:19-316 | every operation keeps identifiers within 64 bits and the displayed one below the next, until they saturate |
| `Sharing.ApplyKeepsValid` | crates/core/sharing/src/coordinator.rs:19-316 | every operation keeps the share rules: a code is four digits and only while consent is undecided, waiting phases have their direction |
| `Sharing.RunKeepsValid` | crates/core/sharing/src/coordinator.rs:19-316 | so does every run, and identifiers never go back |
| `Sharing.OperationContinues` | crates/core/sharing/src/coordinator.rs:348-366 | one operation keeps the share, ends it, clears an ended one, or starts one under the reserved identifier |
| `Sharing.TerminalPhaseIsFinal` | crates/core/sharing/src/snapshot.rs:349-354 | each share below the largest identifier gets at most one terminal phase over any guarded run |
| `Sharing.EndedIsFinalExactly` | crates/core/sharing/src/snapshot.rs:349-354 | an ended share keeps its phase in every later run if and only if its identifier is not the largest one |
| `Sharing.LiveShareIsNeverReplaced` | crates/core/sharing/src/coordinator.rs:175-199 | a share that is gone was displayed as ended first |
| `Sharing.IdentifiersNeverReturn` | crates/core/sharing/src/coordinator.rs:99-103 | an identifier that left the display never returns |
| `Sharing.IdentifiersIncrease` | crates/core/sharing/src/coordinator.rs:99-103 | a share displayed later is the same one or was created since under an identifier reserved since |
| `Sharing.CreatedAreNumbered` | crates/core/sharing/src/coordinator.rs:99-103 | the shares of any run are numbered one after another up to the largest identifier, which every later one shares |
| `Sharing.IdentifiersAreDistinctExactly` | crates/core/sharing/src/coordinator.rs:99-103 | from the start identifiers strictly increase if and only if the run creates no more shares than there are identifiers |
| `Sharing.SaturatedIdentifiersRepeat` | crates/core/sharing/src/coordinator.rs:99-103 | the failing run, from the start: the largest identifier is displayed as ended and later as live |
| `Sharing.ProgressBound` | crates/core/sharing/src/coordinator.rs:242-255 | progress stays within the total under every operation but replacement, and under that exactly when the new content is long enough |
| `Sharing.Coordinator.constructor` | crates/core/sharing/src/coordinator.rs:90-96 | a coordinator starts with the first identifier and nothing displayed |
| `Sharing.Coordinator.Lookup` | crates/core/sharing/src/snapshot.rs:256-258 | the first peer with an identifier |
| `Sharing.Coordinator.Preferred` | crates/core/sharing/src/snapshot.rs:285-287 | the first pinned peer |
| `Sharing.Coordinator.Pinning` | crates/core/sharing/src/snapshot.rs:267-281 | pinning in place is the specified pinning of the list |
| `Sharing.Coordinator.NextId` | crates/core/sharing/src/coordinator.rs:99-103 | the reserved identifier is returned and the next one saturates |
| `Sharing.Coordinator.Transition` | crates/core/sharing/src/coordinator.rs:348-366 | a phase changes only for the named share, direction and phase |
| `Sharing.Coordinator.PeerAccepts` | crates/core/sharing/src/coordinator.rs:19-26 | acceptance by the peer is the specified operation |
| `Sharing.Coordinator.LocalAccepts` | crates/core/sharing/src/coordinator.rs:30-37 | local acceptance is the specified operation |
| `Sharing.Coordinator.PeerRejects` | crates/core/sharing/src/coordinator.rs:272-278 | rejection by the peer is the specified operation |
| `Sharing.Coordinator.LocalRejects` | crates/core/sharing/src/coordinator.rs:283-290 | local rejection is the specified operation |
| `Sharing.Coordinator.CancelShare` | crates/core/sharing/src/coordinator.rs:41-47 | cancelling is the specified operation |
| `Sharing.Coordinator.FailShare` | crates/core/sharing/src/coordinator.rs:79-85 | failing is the specified operation |
| `Sharing.Coordinator.CompleteShare` | crates/core/sharing/src/coordinator.rs:51-63 | completion is the specified operation: only a transferring share with every byte counted |
| `Sharing.Coordinator.DismissShare` | crates/core/sharing/src/coordinator.rs:73-75 | dismissal clears only an ended share |
| `Sharing.Coordinator.LosePeer` | crates/core/sharing/src/coordinator.rs:294-296 | removing a peer is the specified operation |
| `Sharing.Coordinator.PreferPeer` | crates/core/sharing/src/coordinator.rs:148-150 | pinning is the specified operation |
| `Sharing.Coordinator.PreferNone` | crates/core/sharing/src/coordinator.rs:154-156 | unpinning is the specified operation |
| `Sharing.Coordinator.SeePeer` | crates/core/sharing/src/coordinator.rs:107-110 | observing a peer is the specified operation |
| `Sharing.Coordinator.EndSearch` | crates/core/sharing/src/coordinator.rs:67-69 | a timed-out search is the specified operation |
| `Sharing.Coordinator.Offer` | crates/core/sharing/src/coordinator.rs:124-144 | an inbound offer is the specified operation |
| `Sharing.Coordinator.Queue` | crates/core/sharing/src/coordinator.rs:175-199 | queueing is the specified operation |
| `Sharing.Coordinator.Progress` | crates/core/sharing/src/coordinator.rs:203-213 | progress is recorded exactly when it is monotone and within the total |
| `Sharing.Coordinator.Replace` | crates/core/sharing/src/coordinator.rs:242-255 | replacing the attachment is the specified operation |
| `Sharing.Coordinator.ShowCode` | crates/core/sharing/src/coordinator.rs:259-268 | a verification code is the specified operation |
| `Sharing.Coordinator.Choose` | crates/core/sharing/src/coordinator.rs:300-316 | choosing a peer is the specified operation |
| `Sharing.Coordinator.Search` | crates/core/sharing/src/coordinator.rs:337-345 | starting and stopping a search are the specified operations |
| `DaemonSafety.RunIsGuarded` | crates/app/src/daemon.rs:202-422 | whatever requests and events arrive, the share after a daemon run is what the calls of its steps (`OpsIn`) make of it, and none of those starts a share over a live one |
| `DaemonSafety.LiveStepsAreQuiet` | crates/app/src/daemon.rs:202-422 | while a share is live no step asks for another, and only a dismissal asks to clear it |
| `DaemonSafety.StepKeepsLiveShare` | crates/app/src/daemon.rs:202-261 | no step of the daemon replaces or clears a live share |
| `DaemonSafety.LiveShareIsNeverLost` | crates/app/src/daemon.rs:202-422 | over every daemon run a share that is no longer displayed was displayed first as ended |
| `DaemonSafety.DaemonRunsFollowTheLifecycle` | crates/app/src/daemon/production.rs:39-323 | over whole daemon runs a live share is displayed until it has been displayed as ended, a share that ended below the largest identifier keeps its phase, a share shown later was created since, and code and peer rules hold |
| `DaemonInbound.DaemonStepsAreShareOperations` | crates/app/src/daemon.rs:202-422 | what any daemon step other than admission and acceptance does to the share is a run of the share operations of the concurrent system, whose guard the daemon keeps |
| `DaemonTiming.RunKeepsInv` | crates/app/src/daemon/lifecycle.rs:66-220 | every daemon run keeps the clocks in step with its history: when each search and transfer began, under which timeout, and what it inherited |
| `DaemonTiming.TransferDeadlineIsTheAdmittedOne` | crates/app/src/daemon/lifecycle.rs:138-220 | in every run a pass ends a transfer by its clock exactly when what its share is allowed has passed since it began, or since the last peer acceptance handled during it; that is the timeout configured when the share was created, except for a namesake under the largest identifier |
| `DaemonTiming.TransferDeadlineIsExact` | crates/app/src/daemon/lifecycle.rs:138-220 | a transfer is held to its own beginning and creation-time timeout at every time if and only if the clock it has runs out at that same moment; below the largest identifier, if and only if no peer acceptance was handled since, or only at that moment, or the timeout is zero |
| `Namesakes.NamesakeKeepsTimeout` | crates/app/src/daemon/lifecycle.rs:198-220 | the failing family: with the identifiers used up, a share offered in the pass that cancelled its namesake is held to the timeout captured for that one |
| `Namesakes.NamesakeIsReachable` | crates/app/src/daemon/lifecycle.rs:198-220 | a whole daemon run in which a share created under two seconds is allowed one |
| `ClockGaps.StrayAcceptanceMovesStart` | crates/app/src/daemon/production.rs:130-139 | the failing family: a peer acceptance handled during any transfer, whatever share it names, changes no share and moves the start |
| `ClockGaps.MovedStartIsReachable` | crates/app/src/daemon/production.rs:130-139 | a whole daemon run in which a transfer accepted at zero under one second is not ended at one second |
| `DaemonTiming.ConfigurationMovesNoDeadline` | crates/app/src/daemon/preferences.rs:158-184 | applying a configuration moves neither the start nor the duration of a running transfer or search |
| `DaemonTiming.SearchEndsOnItsClock` | crates/app/src/daemon/lifecycle.rs:111-136 | in every run a pass ends a search by the clock it inherited, or else exactly when the timeout configured when it was asked for has passed since the first pass that saw it |
| `DaemonTiming.SearchDeadlineIsTheInitialOne` | crates/app/src/daemon/lifecycle.rs:184-196 | a search that inherits nothing is held to its own beginning and the timeout configured then |
| `DaemonTiming.SearchDeadlineIsExact` | crates/app/src/daemon/lifecycle.rs:184-196 | a search ends at its own beginning plus its own timeout, at every time, if and only if it inherited no clock or one that runs out at that same moment |
| `ClockGaps.BeginsOnItsOwnClockExactly` | crates/app/src/daemon/lifecycle.rs:184-196 | only two requests start a search, and the next capture gives it its own start and timeout if and only if no start lingers, or one that says the same |
| `ClockGaps.StartLingersExactlyWhen` | crates/app/src/daemon/lifecycle.rs:66-72 | a pass leaves a start without a search exactly when it ends the share of a search that has not run out |
| `ClockGaps.LingeringStartIsInherited` | crates/app/src/daemon/lifecycle.rs:111-182 | whatever request then starts a search inherits the start and the duration of the stopped one |
| `ClockGaps.LingeringStartIsReachable` | crates/app/src/daemon/lifecycle.rs:66-72 | a whole daemon run in which a search asked for at one second under sixty is ended at fifteen |
| `DaemonClocks.Clocks.CaptureTimeoutSettings` | crates/app/src/daemon/lifecycle.rs:184-220 | capturing in place is the specified capture |
| `DaemonClocks.Clocks.EndOverdueSearch` | crates/app/src/daemon/lifecycle.rs:111-136 | ending an overdue search in place is the specified step |
| `DaemonClocks.Clocks.EndOverdueTransfer` | crates/app/src/daemon/lifecycle.rs:138-182 | ending an overdue transfer in place is the specified step |
| `DaemonClocks.Clocks.ProjectVisibility` | crates/app/src/daemon/visibility/control.rs:37-53 | what a projected consent decision does to the share in place is the specified operation |
| `DaemonClocks.Clocks.ApplyTimeouts` | crates/app/src/daemon/lifecycle.rs:66-72 | one pass of the clocks and the projection in place is the specified pass |
| `DaemonClocks.Clocks.AnswerSearch` | crates/app/src/daemon.rs:79-110 | starting and stopping a search in place is the specified answer |
| `DaemonClocks.Clocks.ApplyConfiguration` | crates/app/src/daemon/preferences.rs:158-184 | applying a configuration in place is the specified step |
| `DaemonClocks.Clocks.Reconfigure` | crates/app/src/daemon/preferences.rs:134-156 | reconfiguring in place, with both of its projections, is the specified step |
| `Preferences.RunKeepsInv` | crates/app/src/daemon/preferences.rs:77-184 | every interleaving of commands, acknowledgements, failures and reloads keeps the protocol invariant |
| `Preferences.PendingMeansInFlight` | crates/app/src/daemon/preferences.rs:101-184 | a pending save is still in flight, so it never sticks once the queues drain |
| `Preferences.DrainedSystemsAgree` | crates/app/src/daemon/network/worker.rs:214-243 | with both queues empty the daemon has applied exactly the worker's configuration and nothing is pending |
| `Preferences.PendingMayClearEarly` | crates/app/src/daemon/preferences.rs:158-184 | the converse fails: saving A, B, A clears the flag on the first acknowledgement while B is the one applied |
| `PendingSaves.AcknowledgementClearsEarlyExactly` | crates/app/src/daemon/preferences.rs:158-184 | over every reachable state an acknowledgement clears the flag with the save still in flight if and only if it acknowledges the saved configuration and that is in flight again behind it, which it is as soon as anything is |
| `PendingSaves.PendingIsExactExactly` | crates/app/src/daemon/preferences.rs:77-184 | over whole runs the flag says exactly that the saved configuration is in flight, however the channels move, if and only if no configuration is sent while an equal one is in flight |
| `PendingSaves.RepeatingClearsEarly` | crates/app/src/daemon/preferences.rs:134-184 | the failing family: after any such send the channels can move so that the flag is cleared while the save is in flight |
| `PreferenceControl.WithAWorker` | crates/app/src/daemon/preferences.rs:77-156 | with a worker, saving, reloading and a failed patch are steps of the preference protocol |
| `PreferenceControl.WithoutAWorker` | crates/app/src/daemon/preferences.rs:146-151 | without one a save leaves nothing pending and is applied exactly when it is saved without error |
| `PreferenceControl.PreferenceOwner.ConfigurePreferences` | crates/app/src/daemon/preferences.rs:134-156 | saving a configuration in place, with or without a worker, is the specified step; the policy change, its activation, the leases it closes and the token it cancels are the specified ones |
| `PreferenceControl.PreferenceOwner.ReloadPreferences` | crates/app/src/daemon/preferences.rs:77-99 | reloading in place is the specified step, with the policy of a changed configuration: an invalid file forgets the saved configuration and the pending flag |
| `PreferenceControl.PreferenceOwner.PatchWritten` | crates/app/src/daemon/preferences.rs:106-112 | a written patch in place is the specified step; turning discoverability off closes visibility before the policy follows |
| `PreferenceControl.PreferenceOwner.PatchPreferences` | crates/app/src/daemon/preferences.rs:101-132 | patching in place, written or not, is the specified step on the status and on visibility |
| `PreferenceControl.PreferenceOwner.PreferencesConfigured` | crates/app/src/daemon/preferences.rs:158-184 | an acknowledgement in place is the specified step |
| `PreferenceControl.PreferenceOwner.HandleConfigure` | crates/app/src/daemon/network/worker.rs:214-243 | the worker's turn in place is the specified step |
| `Weave.Fragment` | crates/platform/bluez/src/weave.rs:414-434 | the loop cuts a message into exactly the specified packets, which `PacketIs` gives octet by octet |
| `Weave.HeaderRoundTrip` | crates/platform/bluez/src/weave.rs:436-445 | a data header decodes to the flags it was built from, for every counter |
| `Weave.FragmentsFit` | crates/platform/bluez/src/weave.rs:414-434 | every fragment has one header byte and at most the negotiated payload |
| `Weave.MessageRoundTrip` | crates/platform/bluez/src/weave.rs:173-224 | a fragmented message of any length and chunk size folds back to its content and leaves the assembler idle |
| `Weave.Assembler.Push` | crates/platform/bluez/src/weave.rs:174-186 | the mutable assembler takes a packet as specified |
| `Weave.Assembler.PushFragment` | crates/platform/bluez/src/weave.rs:188-224 | the mutable assembler takes a data fragment as specified |
| `WeaveStream.RecvConserves` | crates/platform/bluez/src/weave.rs:325-363 | a receive call takes exactly the next content message, or none if it times out in mid-message or its confirm is refused, and leaves the others; each request consumed was confirmed once |
| `WeaveStream.ReadConserves` | crates/platform/bluez/src/io.rs:384-425 | a buffered read of any size loses nothing |
| `WeaveStream.ReadsConserve` | crates/platform/bluez/src/io.rs:384-425 | nor does any sequence of reads with any buffer sizes |
| `WeaveStream.WeaveRefinesABytePipe` | crates/platform/bluez/src/io.rs:401-425 | with control packets mixed in anywhere and calls interrupted anyhow, the bytes read are a prefix of the payloads sent, and all of them once drained |
| `WeaveStream.SentBytesAreReadBytes` | crates/platform/bluez/src/weave.rs:228-263 | end to end from this sender to this receiver, the bytes read are the concatenated payloads |
| `WeaveStream.ReadTakes` | crates/platform/bluez/src/io.rs:384-432 | a read with room returns no bytes exactly when it takes an empty message |
| `WeaveStream.EmptyReadsConserve` | crates/platform/bluez/src/io.rs:384-432 | over any reads with room and any interruptions, the empty reads so far and the empty messages still unread are the empty messages of the stream |
| `WeaveStream.EmptyReadsAreEmptyPayloads` | crates/platform/bluez/src/io.rs:384-432 | on an open pipe there are never more empty reads than empty payloads, and as many once every packet is read: no read of a drained conversation is empty if and only if no payload is |
| `WeaveStream.SentEmptyIsReadEmpty` | crates/platform/bluez/src/weave.rs:228-263 | end to end from this sender, a drained conversation has an empty read if and only if an empty payload was sent |
| `WeaveStream.EmptyPayloadReadsAsNothing` | crates/platform/bluez/src/io.rs:384-432 | such a read: this sender's empty payload at an idle reader |
| `WeaveStream.PlannedPacketsFit` | crates/platform/bluez/src/weave.rs:73-101 | every packet sent is non-empty and fits the negotiated size, and the request and confirm decode as what they are |
| `WeaveStream.WeaveSender.WritePackets` | crates/platform/bluez/src/weave.rs:228-263 | the writing loop writes exactly as many of the packets as the pipe accepts |
| `WeaveStream.WeaveSender.SendData` | crates/platform/bluez/src/weave.rs:228-263 | the sending loop writes exactly the specified packets and updates the requested flag |
| `WeaveStream.WeaveReader.RecvData` | crates/platform/bluez/src/weave.rs:325-363 | the receiving loop is the specified receive, including what it confirms and leaves |
| `WeaveStream.WeaveReader.ReadInto` | crates/platform/bluez/src/io.rs:384-425 | the buffered read in place is the specified read |
| `Crc32.UpdateBytes` | crates/app/src/archive.rs:285-297 | the nested loops compute the specified register update, which `UpdateDivides` shows to be polynomial division |
| `Crc32.ChecksumAndSize` | crates/app/src/archive.rs:304-336 | over any chunking, the size and the checksum of the whole content, which `ChecksumIsTheRemainder` characterises, refused exactly above 32 bits |
| `Crc32.UpdateConcat` | crates/app/src/archive.rs:285-297 | updating over a concatenation is updating twice: chunking is invisible |
| `Crc32.UpdateIsBijective` | crates/app/src/archive.rs:285-297 | for fixed bytes the update is a bijection of the 32-bit state, with its inverse given |
| `Crc32.UpdateIsWordwise` | crates/app/src/archive.rs:285-297 | absorbing up to four bytes one by one equals mixing in their word at once |
| `Crc32.BurstsAreDetected` | crates/app/src/archive.rs:285-336 | contents that differ only within four consecutive bytes (so in one byte) never share a checksum |
| `ZipNames.EncodeName` | crates/app/src/archive.rs:183-204 | the loop computes the specified name or refusal |
| `Utf8.LossyIsText` | crates/app/src/archive.rs:195-195 | the recorded form of any component is well-formed UTF-8 |
| `Utf8.LossyKeepsExactly` | crates/app/src/archive.rs:195-195 | a component is recorded unchanged exactly when it is well-formed |
| `ZipNames.NameRoundTrip` | crates/app/src/archive.rs:183-204 | cutting the recorded name at its slashes gives the lossy forms of the path components |
| `ZipNames.NamesCollideExactly` | crates/app/src/archive.rs:183-204 | two files are recorded under one name exactly when the lossy forms of their components are the same |
| `ZipNames.TextNamesAreDistinct` | crates/app/src/archive.rs:183-204 | files with well-formed names are recorded under one name exactly when they are at the same path |
| `ZipNames.IllFormedNamesCollide` | crates/app/src/archive.rs:195-195 | the failing family: paths that differ in one byte that is in no character are recorded under one name |
| `Utf8Scalars.TextExactly` | crates/core/sharing/src/protocol/advertisement.rs:110-154 | the names taken as text are exactly the encodings of Unicode scalar values, one after another |
| `Utf8Scalars.EncodedIsWhole` | crates/core/sharing/src/protocol/advertisement.rs:110-154 | every encoding of a scalar value is one whole character, whatever follows it |
| `Utf8Scalars.WholeIsEncoding` | crates/core/sharing/src/protocol/advertisement.rs:110-154 | and every whole character is such an encoding |
| `Utf8Scalars.MaximalSubpart` | crates/app/src/archive.rs:195-195 | what the lossy form replaces is the longest start of a character there is, or else a single byte |
| `Utf8Scalars.ReplacementIs` | crates/app/src/archive.rs:195-195 | the replacement is the encoding of U+FFFD |
| `ZipText.FlagsAreRead` | crates/app/src/archive.rs:229-248 | no directory entry sets the flag bit that says its name is UTF-8 |
| `ZipText.NamesAreTextExactly` | crates/app/src/archive.rs:229-248 | a reader that honours that bit lists every file of a finished archive, and shows the recorded name as text if and only if the whole path is ASCII |
| `ZipText.OtherNamesAreGarbled` | crates/app/src/archive.rs:229-248 | the failing family: a folder of one empty file under any short name that is text but not ASCII is archived, and its name is listed as something else |
| `ZipText.AccentIsSuchAName` | crates/app/src/archive.rs:229-248 | a concrete such name: one accented letter in two octets |
| `Zip.ParseRoundTrip` | crates/app/src/archive.rs:207-265 | a record read back from its little-endian fields is the record, whatever follows it |
| `Zip.LocalIsRead` | crates/app/src/archive.rs:207-226 | a local record is read back anywhere in a file |
| `Zip.EntryIsRead` | crates/app/src/archive.rs:229-248 | a directory record is read back, and leaves what follows |
| `Zip.EndIsRead` | crates/app/src/archive.rs:251-265 | a backward scan finds the end record just written |
| `Zip.ArchiveIsRead` | crates/app/src/archive.rs:49-82 | the reader recovers exactly the items, in order |
| `Zip.RecordsTile` | crates/app/src/archive.rs:120-131 | the recorded offsets tile the file up to the directory, each at its own record |
| `Zip.WriteSucceeds` | crates/app/src/archive.rs:49-132 | writing succeeds exactly when every file can be stored and counts, offsets and directory size fit their fields |
| `Zip.WrittenIsRead` | crates/app/src/archive.rs:49-132 | every finished archive is read back with the names, the first pass's checksums and the second pass's bytes |
| `Zip.ChecksumMeansBothPasses` | crates/app/src/archive.rs:98-117 | the recorded checksum matches the stored bytes exactly when both passes have the same checksum |
| `Zip.TornCopyIsExposed` | crates/app/src/archive.rs:98-117 | a same-size change of up to four consecutive bytes between the passes is archived but exposed by the checksum |
| `Zip.DirectorySize` | crates/app/src/archive.rs:268-282 | the size computed for the directory is the number of directory bytes written, refused exactly above 32 bits |
| `Zip.Output.WriteRecord` | crates/app/src/archive.rs:207-265 | the run of field writes lays down the specified bytes |
| `Zip.Output.AppendStoredFile` | crates/app/src/archive.rs:89-132 | appends exactly the record of the stored item, advances the offset and reports the first failure |
| `Zip.Output.WriteCentrals` | crates/app/src/archive.rs:65-68 | the directory loop appends exactly the directory bytes |
| `Zip.Output.WriteEntries` | crates/app/src/archive.rs:50-64 | the file loop writes the records, offset and directory of all items, or reports the first failure |
| `Zip.Output.Finish` | crates/app/src/archive.rs:49-82 | the whole writer produces the specified archive or failure |
| `Ukey2.CoordinateRoundTrip` | crates/core/crypto/src/primitives.rs:156-175 | a coordinate encoded as a non-negative integer decodes to itself, leading zero or not |
| `Ukey2.PointRoundTrip` | crates/core/crypto/src/primitives.rs:110-147 | an encoded public key parses to the same point |
| `Ukey2.TranscriptIsBound` | crates/core/crypto/src/lib.rs:225-270 | for arbitrary deliveries, a responder that completes received a finish that hashes to the commitment of the client-init it recorded |
| `Ukey2.CompletionNeedsBothMessages` | crates/core/crypto/src/lib.rs:271-308 | completion succeeds exactly in the final state with both transcript messages recorded |
| `Ukey2.EarlyFinishNeverCompletes` | crates/core/crypto/src/lib.rs:431-453 | a responder handed the finish before it replied is final, accepts nothing more and can never derive keys |
| `Ukey2.CompletedSidesAgree` | crates/core/crypto/src/lib.rs:271-308 | for any schedule and number of calls on messages the peer produced, two completed sides hold the same token and mirrored keys; which ones is `CompletedKeysAre` |
| `Ukey2.FinalStatesComplete` | crates/core/crypto/src/lib.rs:225-308 | between two such sides a final state always completes, and the responder finishes only after the initiator |
| `Ukey2.OrderlyExchangeCompletes` | crates/core/crypto/src/lib.rs:225-308 | the intended order of the three messages completes both sides |
| `Ukey2.SessionsMatch` | crates/core/crypto/src/secure_channel.rs:165-177 | both sides digest the same session bytes exactly when the key hashes differ or the keys are equal |
| `Ukey2.SessionsCanDiffer` | crates/core/crypto/src/primitives.rs:149-155 | the failing family: keys that differ in a colliding last pair share a hash, and the sides then digest different bytes |
| `Ukey2.CompletedSessionsMatch` | crates/core/crypto/src/secure_channel.rs:165-177 | for two completed sides the session bytes agree exactly under that condition |
| `Ukey2.Exchange.constructor` | crates/core/crypto/src/lib.rs:185-202 | an exchange starts with nothing recorded |
| `Ukey2.Exchange.Next` | crates/core/crypto/src/lib.rs:225-241 | producing a message in place is the specified step |
| `Ukey2.Exchange.Accept` | crates/core/crypto/src/lib.rs:248-264 | accepting a message in place is the specified step |
| `SecureChannel.SendingNumbers` | crates/core/crypto/src/secure_channel.rs:69-121 | a fresh sender numbers messages from one and refuses exactly those past the largest 32-bit number |
| `SecureChannel.SignedIsRead` | crates/core/crypto/src/secure_channel.rs:69-161 | what is sealed and signed under a key reads as its packet under that key |
| `SecureChannel.AcceptedArePrefix` | crates/core/crypto/src/secure_channel.rs:129-199 | whatever is reordered, dropped, repeated or forged, the accepted plaintexts are a prefix of those sent |
| `SecureChannel.InTurnIsDelivered` | crates/core/crypto/src/secure_channel.rs:179-199 | messages that arrive in order are all accepted, whatever arrives between them |
| `SecureChannel.InOrderIsAccepted` | crates/core/crypto/src/secure_channel.rs:129-199 | the sender's own stream is accepted in full |
| `SecureChannel.GenuineRejectionIsInert` | crates/core/crypto/src/secure_channel.rs:179-199 | rejecting a genuine message changes nothing |
| `SecureChannel.RejectionAdvancesExactlyWhen` | crates/core/crypto/src/secure_channel.rs:189-198 | in general a rejection moves the sequence exactly when an authenticated packet has the expected number and no message |
| `SecureChannel.EmptyPacketAdvances` | crates/core/crypto/src/secure_channel.rs:189-198 | such packets exist for every channel with numbers left: one is rejected and uses its number up |
| `SecureChannel.ExchangedKeysCarry` | crates/core/crypto/src/lib.rs:288-308 | after any exchange that completes, streams of any length are carried both ways, in full while numbers last |
| `SecureChannel.Endpoint.constructor` | crates/core/crypto/src/secure_channel.rs:50-61 | a channel starts at sequence zero both ways |
| `SecureChannel.Endpoint.Encrypt` | crates/core/crypto/src/secure_channel.rs:69-121 | sealing in place is the specified step |
| `SecureChannel.Endpoint.Decrypt` | crates/core/crypto/src/secure_channel.rs:129-199 | opening in place is the specified step |
| `EndpointInfo.FirstByteReads` | crates/core/sharing/src/protocol/advertisement.rs:59-63 | the packed first byte reads back as version, type and name flag |
| `EndpointInfo.Encode` | crates/core/sharing/src/protocol/advertisement.rs:58-78 | the appends build the specified bytes |
| `EndpointInfo.ScanOne` | crates/core/sharing/src/protocol/advertisement.rs:163-183 | one turn of the scan is one record of the specified decoding |
| `EndpointInfo.ScanExtensions` | crates/core/sharing/src/protocol/advertisement.rs:157-186 | the scan over any bytes stays in bounds and is the specified decoding |
| `EndpointInfo.ReadName` | crates/core/sharing/src/protocol/advertisement.rs:110-154 | reading the name of any bytes stays in bounds and is the specified reading |
| `EndpointInfo.Decode` | crates/core/sharing/src/protocol/advertisement.rs:110-154 | decoding any bytes stays in bounds and is the specified decoding |
| `EndpointInfo.AcceptedAreRecords` | crates/core/sharing/src/protocol/advertisement.rs:157-186 | extension bytes are accepted exactly when they are records end to end with no ill-sized vendor |
| `EndpointInfo.LastRecordWins` | crates/core/sharing/src/protocol/advertisement.rs:174-181 | what is found is the last vendor and the last capabilities |
| `EndpointInfo.DecodeEncode` | crates/core/sharing/src/protocol/advertisement.rs:26-154 | decoding gives back every constructed value, except one with an empty name, which is refused |
| `EndpointInfo.DecodedSurvivesEncoding` | crates/core/sharing/src/protocol/advertisement.rs:58-154 | re-encoding a decoded value decodes to it again |
| `EndpointInfo.UnknownRecordsAreInvisible` | crates/core/sharing/src/protocol/advertisement.rs:174-182 | inserting a record of unknown type between records never changes the result |
| `Offers.ReadApp` | crates/core/sharing/src/protocol/offer.rs:153-274 | the loop computes the specified offer or first fault |
| `Offers.AppAccepted` | crates/core/sharing/src/protocol/offer.rs:153-274 | accepted exactly when lists align, identifiers are distinct and nonzero, names safe, sizes non-negative, and the exact sum fits 64 bits and is the declared size |
| `Offers.AcceptedOffersAreSound` | crates/core/sharing/src/protocol/offer.rs:100-338 | every accepted offer has distinct nonzero identifiers, non-negative sizes and their exact sum |
| `Offers.ReceiveFiles` | crates/app/src/daemon/network/inbound.rs:312-338 | the receiving loop emits exact, unsaturated totals and reports the offered size |
| `Offers.ProgressIsExact` | crates/app/src/daemon/network/inbound.rs:312-338 | overall progress never goes back and never passes the offered size |
| `Offers.ReceivedShareCompletes` | crates/core/sharing/src/coordinator.rs:51-63 | a transferring file share fed that progress completes with every byte counted |
| `Offers.ReceivedTextCompletes` | crates/app/src/daemon/production.rs:54-78 | received text completes its share exactly when no more bytes had been counted than arrived |
| `Staging.RunKeepsInv` | crates/platform/storage/src/staging.rs:164-380 | every interleaving of staging steps and other processes keeps the invariant |
| `Staging.ReservedAreLive` | crates/platform/storage/src/staging.rs:164-178 | the reserved names are exactly those of live staged files, pairwise distinct |
| `Staging.PublishedIsExact` | crates/platform/storage/src/staging.rs:238-273 | each published file took exactly its declared bytes, and holds exactly them if and only if no failed write left a residue |
| `StagedBytes.PublishedIsExactExactly` | crates/platform/storage/src/staging.rs:238-326 | a published file holds exactly its accepted bytes if and only if no failing whole-buffer write on its handle left bytes at any step of the run, and is longer than declared by exactly what they left |
| `Staging.CleanRunsPublishExactly` | crates/platform/storage/src/staging.rs:312-326 | without such residue every published file is exactly its accepted writes, of the declared size |
| `Staging.ResidueIsPublished` | crates/platform/storage/src/staging.rs:312-326 | the failing family: after a partial failed write, the published file is longer than declared |
| `Staging.NothingIsReplaced` | crates/platform/storage/src/staging.rs:254-273 | over any run an existing destination keeps its file, a file no open handle writes keeps its contents, and nothing is published there |
| `Staging.ReceiveTarget.constructor` | crates/platform/storage/src/staging.rs:80-88 | a target starts with nothing reserved |
| `Staging.ReceiveTarget.Reserve` | crates/platform/storage/src/staging.rs:164-178 | reserving in place is the specified step |
| `Staging.ReceiveTarget.AttemptCreate` | crates/platform/storage/src/staging.rs:411-433 | one turn of the retry loop is one specified attempt: created, collided or failed |
| `Staging.ReceiveTarget.CreateStagingFile` | crates/platform/storage/src/staging.rs:409-440 | the bounded retry loop is that many specified attempts, ending open or released, or released at the first other error |
| `Staging.ReceiveTarget.WriteBuffer` | crates/platform/storage/src/staging.rs:312-326 | a whole-buffer write in place is the specified step, refused exactly past the declared size |
| `Staging.ReceiveTarget.Publish` | crates/platform/storage/src/staging.rs:238-261 | publishing in place is the specified step |
| `Staging.ReceiveTarget.Release` | crates/platform/storage/src/staging.rs:366-380 | dropping in place is the specified step |
| `Consent.OutcomesAre` | crates/app/src/daemon/visibility/consent.rs:59-142 | every outcome a token can have after every action, by what can have left it, both ways: the timeout first, then the action's own decision |
| `Consent.SuccessIsTheDecision` | crates/app/src/daemon/visibility/consent.rs:72-115 | admitting, accepting and rejecting report success exactly when the decision is taken |
| `Consent.NewTokenLasts` | crates/app/src/daemon/visibility/consent.rs:38-70 | a new offer can be decided until its timeout has passed or the clock saturates, and not after |
| `VisibilityLaws.RequestStarts` | crates/app/src/daemon/visibility.rs:80-93 | a request when none stands starts the next generation, without a deadline, and hands exactly that generation out for activation |
| `VisibilityLaws.PolicyOnStarts` | crates/app/src/daemon/visibility.rs:145-161 | turning the policy on starts a generation in the same way, or makes the standing one durable |
| `VisibilityLaws.WithdrawalCloses` | crates/app/src/daemon/visibility.rs:59-78 | turning it off and closing take the lease back, start a closed generation and cancel the offer |
| `VisibilityLaws.SamePolicyIsInert` | crates/app/src/daemon/visibility.rs:145-161 | setting the policy it already has changes nothing |
| `VisibilityLaws.ExpiryCloses` | crates/app/src/daemon/visibility.rs:107-123 | the temporary deadline closes and returns the lease, exactly from the deadline on, and leaves offers alone |
| `VisibilityLaws.ActivationOpens` | crates/app/src/daemon/visibility.rs:171-200 | the awaited activation opens under its lease for six hundred seconds or for as long as the policy lasts; a failed one leaves the endpoint unavailable |
| `VisibilityLaws.UnwantedActivationIsReturned` | crates/app/src/daemon/visibility.rs:171-182 | any other result changes nothing and its lease goes straight back |
| `VisibilityLaws.ExhaustionPoisons` | crates/app/src/daemon/visibility.rs:59-93 | at the largest 64-bit generation a new one cannot be started: the lock is poisoned and stays so |
| `VisibilityLaws.OpeningAndClosing` | crates/app/src/daemon/visibility.rs:80-200 | request, activate and close leave the endpoint as before but for two generations, and the lease is returned |
| `VisibilityLaws.RefusalDecides` | crates/app/src/daemon/visibility.rs:243-264 | which refusals reject an offer without a share and which leave its own decision, with the exact condition of admission |
| `InboundOutcomes.ProjectionShows` | crates/app/src/daemon/visibility/control.rs:28-65 | the share a settled token belongs to is displayed as cancelled or failed, and the token is let go |
| `InboundOutcomes.WithdrawalCancelsShare` | crates/app/src/daemon/visibility/control.rs:28-65 | after an explicit withdrawal while an offer is displayed in time, and whatever happens beside the display, the next projection shows the share cancelled |
| `InboundOutcomes.DeadlineFailsShare` | crates/app/src/daemon/visibility/control.rs:28-65 | a projection at or past the deadline of the displayed offer shows its share failed; one before it changes nothing |
| `InboundOutcomes.RejectionRejects` | crates/app/src/daemon/visibility/control.rs:120-129 | rejecting the displayed offer in time rejects its token for that share and the share |
| `InboundOutcomes.CancellationCancels` | crates/app/src/daemon.rs:354-360 | cancelling a displayed share cancels it and its undecided token, and spares an accepted one |
| `InboundOutcomes.BusyRefusesOffer` | crates/app/src/daemon/visibility/control.rs:79-103 | an offer that finds a share in the way is rejected without one |
| `InboundOutcomes.UnknownSenderIsRejected` | crates/app/src/daemon/visibility/control.rs:79-103 | an admitted offer of an unknown sender displays nothing and is rejected without a share |
| `InboundOutcomes.ForgottenTokensDoNotBlock` | crates/app/src/daemon/visibility.rs:243-264 | a token nobody holds any more does not stand in the way of an offer |
| `InboundOutcomes.WorkersDecide` | crates/app/src/daemon/visibility/consent.rs:124-142 | a worker that holds a token may cancel or fail it while it is undecided in time |
| `InboundOutcomes.ReferencesAreCounted` | crates/app/src/daemon/visibility/consent.rs:38-53 | a reference taken and given back leaves everything as it was |
| `InboundOutcomes.EndpointOpens` | crates/app/src/daemon/visibility.rs:80-200 | from the initial state a request and its activation open the endpoint |
| `InboundOutcomes.OfferIsPresented` | crates/app/src/daemon/visibility/control.rs:79-103 | then any proposed offer with time left is admitted, displayed and bound to its share |
| `InboundOutcomes.OfferIsReceived` | crates/app/src/daemon/visibility/control.rs:79-118 | a whole run from the initial state in which the offer is accepted and its share transfers |
| `SharingLaws.PhasesMove` | crates/core/sharing/src/coordinator.rs:19-316 | a displayed share changes phase only along the listed moves of its direction, or by the choice of a known peer |
| `SharingLaws.MovesAreMade` | crates/core/sharing/src/coordinator.rs:19-316 | and makes each of those moves when asked |
| `SharingLaws.FieldsFollow` | crates/core/sharing/src/coordinator.rs:203-255 | what every operation leaves of the other things a share says |
| `SharingLaws.ReportsAreTaken` | crates/core/sharing/src/coordinator.rs:203-215 | progress is recorded exactly while transferring, between what was counted and the total, both included |
| `SharingLaws.CodesFollow` | crates/core/sharing/src/coordinator.rs:259-270 | a verification code is shown exactly from its recording until the share is decided |
| `SharingLaws.OffersAwaitConsent` | crates/core/sharing/src/coordinator.rs:124-146 | an offer from a known peer waits for consent under the next identifier; any other is refused |
| `SharingLaws.QueuedSharesWait` | crates/core/sharing/src/coordinator.rs:175-199 | an outbound share waits for the pinned peer's consent, or for a peer |
| `SharingLaws.SearchFollows` | crates/core/sharing/src/snapshot.rs:192-198 | what starts the search, what ends it and when it is shown as timed out |
| `SharingLaws.ObservedIsKnown` | crates/core/sharing/src/snapshot.rs:244-252 | an observed peer is known under that name, and every other as before |
| `SharingLaws.RemovedIsUnknown` | crates/core/sharing/src/snapshot.rs:290-298 | a removed peer is unknown, and no other |
| `SharingLaws.PinnedIsChosen` | crates/core/sharing/src/snapshot.rs:267-287 | the pinned peer is the one pinned last; after unpinning there is none |
| `SharingLaws.OutboundCompletes` | crates/core/sharing/src/coordinator.rs:19-316 | from any idle endpoint, an outbound share queued, sighted, chosen, accepted and counted in full completes |
| `SharingLaws.InboundCompletes` | crates/core/sharing/src/coordinator.rs:30-146 | an inbound share of any known peer, accepted and counted in full, completes |
| `DaemonLaws.ReportsMove` | crates/app/src/daemon/production.rs:39-323 | a live share changes phase on a network report exactly along the listed moves: cancelled, failed, rejected, accepted, counted in full, or projected |
| `DaemonLaws.OfferedIsDisplayed` | crates/app/src/daemon/production.rs:97-129 | an inbound offer is displayed exactly when nothing live is and it was admitted, as the nearby sender's, with its size and code |
| `DaemonLaws.ProgressCounts` | crates/app/src/daemon/production.rs:246-262 | progress is recorded within its bounds, and the first of it starts the clock |
| `DaemonLaws.PairingIsShown` | crates/app/src/daemon/production.rs:140-153 | a pairing code is shown for the share it names |
| `DaemonLaws.LostIsUnknown` | crates/app/src/daemon/production.rs:206-221 | a lost peer is unknown |
| `DaemonLaws.ChoiceIs` | crates/app/src/daemon/production.rs:344-416 | choosing a peer does nothing without a route or for a share that cannot go there, fails the share if the worker cannot be told, and else waits for that peer |
| `DaemonLaws.SightedIsKnown` | crates/app/src/daemon/production.rs:222-245 | a sighted peer is known under its name, and pinned exactly if it is the configured one |
| `DaemonLaws.SightedIsChosen` | crates/app/src/daemon/production.rs:393-440 | a waiting outbound share is sent to the configured peer once that is sighted with a route |
| `DaemonLaws.RequestsMove` | crates/app/src/daemon.rs:202-422 | a live share changes phase on a request exactly along the listed moves |
| `DaemonLaws.SubmittedIs` | crates/app/src/daemon.rs:145-191 | a submission is refused over a live share; with a target it waits for that peer, is cancelled if it cannot go there, or fails if the worker cannot be told |
| `DaemonLaws.UntargetedIs` | crates/app/src/daemon.rs:145-191 | without a target it waits for the pinned peer, or for any while a search runs |
| `DaemonLaws.SearchesAndDismissals` | crates/app/src/daemon.rs:73-110 | a search starts and stops on request, and an ended share goes when dismissed |
| `DaemonLaws.SimulatedSightingIs` | crates/app/src/daemon/lifecycle.rs:264-268 | a simulated sighting is a sighting without a route |
| `DaemonLaws.ConfigurationPins` | crates/app/src/daemon/preferences.rs:158-184 | a configuration in effect is stored and pins exactly the known peer it names; a failed one changes nothing |
| `PreferenceLaws.SaveRunsItsCourse` | crates/app/src/daemon/preferences.rs:101-184 | a save is sent, pending until answered, and then in force everywhere or reported as failed with nothing applied |
| `PreferenceLaws.SaveAfterStop` | crates/app/src/daemon/preferences.rs:134-155 | a save after the worker stopped is kept and reported, not sent |
| `PreferenceLaws.ReloadIs` | crates/app/src/daemon/preferences.rs:77-97 | an unreadable file, an unchanged one and a changed one |
| `PreferenceLaws.FailedSaveSays` | crates/app/src/daemon/preferences.rs:101-132 | a save that could not be written always says so and adopts what the file holds |
| `PreferenceLaws.StaleAnswers` | crates/app/src/daemon/preferences.rs:158-184 | an answer about a superseded configuration touches neither error nor pending mark |
| `WeaveLayout.PacketIs` | crates/platform/bluez/src/weave.rs:414-445 | every packet of every message and chunk size: packet k carries k modulo eight in bits 4 to 6, 0x08 exactly on the first, 0x04 exactly on the last, the top bit clear, and its part of the message |
| `WeaveLayout.PacketsAreEnough` | crates/platform/bluez/src/weave.rs:414-434 | as many packets as the message needs |
| `WeaveLayout.PayloadIsMarked` | crates/platform/bluez/src/weave.rs:96-101 | an encoded payload begins with FC 9F 5E |
| `WeaveLayout.PduIs` | crates/platform/bluez/src/weave.rs:104-130 | which octets make a data packet, a request, a confirm and an error, both ways |
| `WeaveLayout.MessageIs` | crates/platform/bluez/src/weave.rs:393-452 | which octets make content, a control message and a disconnect |
| `WeaveLayout.HandshakeIs` | crates/platform/bluez/src/weave.rs:75-94 | request and confirm name version one and 509 octets |
| `WeaveLayout.MisplacedFragments` | crates/platform/bluez/src/weave.rs:188-224 | fragments out of order are refused and leave what was collected |
| `WeaveLaws.ConversationOpens` | crates/platform/bluez/src/weave.rs:228-263 | a conversation is one connection request, first, and then the packets of the payloads in order, in chunks of 508 octets |
| `WeaveLaws.ClosingIs` | crates/platform/bluez/src/weave.rs:304-363 | a pipe that closes between messages closes the stream, within one it is an error |
| `WeaveLaws.DisconnectCloses` | crates/platform/bluez/src/weave.rs:447-452 | a disconnect message closes the stream |
| `WeaveLaws.ReadsEnd` | crates/platform/bluez/src/io.rs:384-425 | a closed stream reads as end of file, another failure as itself, and leftovers are read first |
| `CrcPolynomial.PolynomialIsTheGenerator` | crates/app/src/archive.rs:285-297 | the loop's constant is, coefficient by coefficient, x^32 + x^26 + x^23 + x^22 + x^16 + x^12 + x^11 + x^10 + x^8 + x^7 + x^5 + x^4 + x^2 + x + 1 without its highest term |
| `CrcPolynomial.StepDivides` | crates/app/src/archive.rs:285-297 | one step of the register multiplies by x modulo that generator |
| `CrcPolynomial.UpdateDivides` | crates/app/src/archive.rs:285-297 | for every seed and message the register is congruent to the seed before the message, raised by 32, modulo the generator |
| `CrcPolynomial.ChecksumIsTheRemainder` | crates/app/src/archive.rs:304-336 | the checksum of any content is the complement of that remainder for a seed of 32 ones |
| `CrcPolynomial.ValueBit` | crates/app/src/archive.rs:304-336 | bit i of the recorded number is the coefficient of x^(31 - i) |
| `ZipLayout.LocalRecordIs` | crates/app/src/archive.rs:207-226 | a local record octet by octet |
| `ZipLayout.CentralRecordIs` | crates/app/src/archive.rs:229-248 | a directory record octet by octet |
| `ZipLayout.EndRecordIs` | crates/app/src/archive.rs:251-265 | the end record octet by octet |
| `ZipLayout.NamesExactly` | crates/app/src/archive.rs:183-204 | a path is refused as unsafe exactly for a component that is not a plain name, and as nameless exactly when nothing shows |
| `ZipLayout.StoredExactly` | crates/app/src/archive.rs:89-132 | a file is stored exactly below 4 GiB, under a name of at most 65535 octets and with equal readings; the second reading is stored under the first one's checksum |
| `ZipLayout.WritesExactly` | crates/app/src/archive.rs:49-132 | an archive is written exactly for at most 65535 stored files whose records and directory each stay below 4 GiB |
| `Ukey2Laws.CompletedKeysAre` | crates/core/crypto/src/lib.rs:271-308 | over any schedule a completed initiator holds the token of opening and reply in that order, sends under the initiator's key and receives under the responder's; the responder the other way round |
| `Ukey2Laws.ClientInitIsSent` | crates/core/crypto/src/lib.rs:310-337 | the opening field by field: kind 2, version 1, the random, one commitment for cipher 100 to the finish, the next protocol |
| `Ukey2Laws.ServerInitIsSent` | crates/core/crypto/src/lib.rs:374-387 | the reply field by field: kind 3, version 1, the random, cipher 100, the public key |
| `Ukey2Laws.FinishIsSent` | crates/core/crypto/src/lib.rs:419-429 | the finish field by field: kind 4 around the public key |
| `Ukey2Laws.PublicKeyIsSent` | crates/core/crypto/src/primitives.rs:110-164 | a public key is sent as P-256 with two non-negative coordinates |
| `Ukey2Laws.OnlySuchOpenings` | crates/core/crypto/src/lib.rs:339-372 | an opening is taken only with those fields, a 32-octet random and the first commitment present for the cipher |
| `Ukey2Laws.OnlySuchReplies` | crates/core/crypto/src/lib.rs:389-417 | a reply is taken only with those fields, a 32-octet random and a point on the curve |
| `Ukey2Laws.OnlySuchFinishes` | crates/core/crypto/src/lib.rs:431-453 | a finish is taken only if it hashes to the commitment and holds a point on the curve |
| `Ukey2Laws.OnlySuchKeys` | crates/core/crypto/src/primitives.rs:129-175 | a key is taken only as P-256 with coordinates of 32 octets, or 33 with a leading zero |
| `Ukey2Laws.LowerHashComesFirst` | crates/core/crypto/src/secure_channel.rs:165-177 | the session identifier digests the key of the lower hash first, and of equal hashes the receiving one |
| `Ukey2Laws.JavaHashIs` | crates/core/crypto/src/primitives.rs:149-155 | the hash grows by 31 times itself plus the next signed octet, modulo 2^32 |
| `SecureChannelLaws.SealedIs` | crates/core/crypto/src/secure_channel.rs:69-121 | a sealed message layer by layer: signature, cipher, vector, kind and version, and the next number; refused exactly from 2147483647 on |
| `SecureChannelLaws.OpensExactly` | crates/core/crypto/src/secure_channel.rs:129-239 | a message is opened exactly when those layers protect a text under the number after the last one, and the text comes out |
| `SecureChannelLaws.RefusalsAre` | crates/core/crypto/src/secure_channel.rs:129-199 | exactly which messages are refused as unauthentic, out of sequence and past the last number |
| `EndpointLayout.AdvertisementIs` | crates/core/sharing/src/protocol/advertisement.rs:58-78 | an advertisement octet by octet |
| `EndpointLayout.AdvertisedExactly` | crates/core/sharing/src/protocol/advertisement.rs:26-55 | exactly which values may be advertised |
| `OfferLaws.FileAccepted` | crates/core/sharing/src/protocol/offer.rs:100-151 | exactly which file introductions are accepted, and the offer they make |
| `OfferLaws.TextAccepted` | crates/core/sharing/src/protocol/offer.rs:276-338 | exactly which text introductions are accepted, and the offer they make |
| `OfferLaws.PartsAlign` | crates/core/sharing/src/protocol/offer.rs:153-200 | exactly when an application introduction has one size for each part |
| `OfferLaws.AppOfferIs` | crates/core/sharing/src/protocol/offer.rs:153-274 | the parts of an accepted application are the listed ones in order, each a single path component |
| `StagingLaws.SafeNamesAreDirectChildren` | crates/platform/storage/src/path.rs:14-34 | the safe names: no control character, slash or backslash, not a dot name, not a hidden part's, at most 255 octets |
| `StagingLaws.ReservesExactly` | crates/platform/storage/src/staging.rs:164-178 | a name is reserved exactly when it is such a name, not on disk and not reserved |
| `StagingLaws.CollisionsAreCounted` | crates/platform/storage/src/staging.rs:409-440 | up to sixty-three taken hidden names leave another attempt |
| `StagingLaws.SixtyFourCollisionsEnd` | crates/platform/storage/src/staging.rs:409-440 | the sixty-fourth ends the reservation |
| `StagingLaws.WritesExactly` | crates/platform/storage/src/staging.rs:312-326 | a buffer is taken exactly while it fits the declared size |
| `StagingLaws.CommitsExactly` | crates/platform/storage/src/staging.rs:238-273 | a file is published exactly when it holds all it declared, the disk works and its name is free |
| `StagingLaws.FileIsReceived` | crates/platform/storage/src/staging.rs:164-380 | a whole life: the file ends under its name with its data, and nothing else is left of it |
| `StagingLaws.FileIsAbandoned` | crates/platform/storage/src/staging.rs:366-380 | a handle dropped before its commit leaves the directory as it was |

## Left out

- Consent waiting in the network thread, connection negotiation and payload transfer: they reach the model only as the steps and reports they cause.
- BlueZ, NetworkManager, DNS-SD and TCP sessions, the fake radio and connect tokens: foreign calls.
- Command line, JSON control codec, notifications and tracing: plumbing without state to relate.
- Human-readable status: error texts, media lists, observations and remaining seconds are not modelled.
- TOML editing and file watching: a reload is any valid or invalid configuration.
- Directory walking for archives: the list of regular files is given; I/O errors while reading or writing are not modelled.
- Base64 and mDNS labels of advertisements: library encodings.
- `write_vectored` and `preflight` of staged files: they add a summed length and a free-space query.
- Text and file introductions inside protobuf frames: decoding starts from the decoded metadata.
- Upgrade credentials and Wi-Fi Direct routes: the wire form carries one address, so only trivial cases round-trip.
- Control.InboundControl.AdmitInbound: describes the call with no other thread acting inside it, as do its neighbours; the interleavings are in `Inbound`.
- PreferenceControl.PreferenceOwner.ConfigurePreferences: the two projections of visibility onto the share around it are in `DaemonClocks.Clocks.Reconfigure` and `Control.InboundControl.SyncVisibility`, not here.
- Staging.ReceiveTarget.CreateStagingFile: describes the retry loop with no other thread acting inside it; the interleavings are the `Attempt` steps.
- Ukey2.CompletedSidesAgree: assumes the laws of `Lawful`, and says nothing of an active attacker beyond `TranscriptIsBound`.
