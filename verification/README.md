# TapAuth in Dafny

TapAuth lets a paired phone approve a login on a Linux desktop. A PAM module asks
a daemon, the daemon multicasts an encrypted request over Bluetooth and the local
network, a phone answers with a signed grant or denial, and the answer travels
back to the host as a PAM code. This project models the parts of it that carry
state, interleaving or arithmetic, and proves what they guarantee on every run.

Each protocol is a total function `Step` from a state and an event to the next
state (an event that is not enabled changes nothing) and `Run` folds it over any
sequence of events, so a lemma about `Run(es)` speaks about every interleaving.
Where the source updates objects or loops over variables, a class or a method with
the same fields and the same loop is proved to follow `Step` or the function that
specifies it.

| file | what it models |
|---|---|
| `EndToEnd.dfy` | stored phones, packets, race, daemon response, socket, event loop, PAM record and PAM code, composed |
| `VerdictCache.dfy` | the PAM entry point and its 500 ms record, with overlapping calls |
| `PamRace.dfy` | password worker against the event loop, cancel and join; the sequential and the terminal loop |
| `Transport.dfy`, `Messages.dfy` | one transport run: replay cache, decryption, signatures, challenge |
| `Backoff.dfy` | retransmission intervals and how many requests fit into a session |
| `AuthSession.dfy` | the race of two transports and a cancel, gates, outcome |
| `Dedup.dfy` | per-user deduplication with pruning |
| `PairingSlot.dfy` | the daemon's pairing slot, its handlers and timers |
| `PairingSession.dfy` | the two-party key exchange under any delivery |
| `PairingStore.dfy` | the CSK file, the paired servers, the daemon's snapshot, what the phones keep, and the requests that change them |
| `StoreCoherence.dfy`, `StoreUpdates.dfy`, `StoreSnapshot.dfy` | which overlaps of those requests, and which phones, keep phones, updates and snapshot in agreement |
| `StoreRuns.dfy` | the shortest runs that do not, told step by step |
| `FirewallGuard.dfy` | the weak/strong firewall guard with delayed drops |
| `Framing.dfy` | length-prefixed frames, blocking and non-blocking |
| `PairingUrl.dfy`, `Text.dfy` | the pairing URL's printer, parser and the GUI's port reader |
| `Temporal.dfy` | temporal identifiers checked with two clock reads |

Assumptions about libraries are hypotheses of the lemmas that use them. Ed25519
verification accepts what the matching key signed (section 5.1.7 of RFC 8032); where
it matters, a signature under paired keys is one over a single 32-byte challenge.
X25519 agreement commutes (section 6.1 of RFC 7748). Key derivation is a function
(section 2 of RFC 5869). Authenticated decryption inverts encryption, and opens under
the client's pairing key only what was sealed under it. The hash of a CSK is
injective on 32-byte inputs and has no fixed point there. IPv6 text is an inverse
pair free of `&` and `=`.

Nothing in the daemon keeps two administrative requests from overlapping, and nothing
keeps a phone from dropping a key it acknowledged, so what this costs is stated over
policies. A `Policy` says what may happen beside what, and each theorem says for which
policies a property holds in every run.

## What turned out not to hold

Each item names the lemma with the exact condition.

- Stored phones do not always hold the key on disk. They do in every run if and only
  if first pairings do not overlap, no completion begins during a rotation, no
  rotation begins while a completion or a removal is storing, clears succeed, no phone
  acknowledges a key while it keeps another one or fails to keep it, and no phone
  forgets the desktop while it is stored (`StoreCoherence.CoherentIffCareful`;
  `StoreRuns` has a run for each). The pairing slot does not prevent overlapping
  completions, because it is free again while a pairing is finishing
  (`PairingSlot.CompletionsCanOverlap`).
- Serving requests one at a time is not enough for that. It is if and only if the
  phones keep what they acknowledge (`StoreCoherence.AloneCoherentIffReliable`). The app
  does not: paired again after a rotation, it acknowledges the new key and keeps the one
  it had (`StoreRuns.PairedAgainAfterRotation`). It may also fail after the
  acknowledgement (`StoreRuns.PairedWithoutKeeping`; `PairingSession.ExchangeAgrees` is
  one way).
- A rotation that reported success can be undone by a completion that saves the older
  key. It cannot if and only if no completion begins between the clear and the save of
  a rotation and no rotation begins while a completion has yet to save its key
  (`StoreUpdates.RotationsStandIff`).
- An addition, a removal or a clear can be lost to an older map that is saved later.
  It cannot if and only if no load for a change and no rotation begins while another
  change is loaded and unsaved (`StoreUpdates.EditsStandIff`).
- The snapshot does not always equal the files after a request, and a removed phone
  can stay in it (`StoreSnapshot.StaleInstall`). It does if and only if the key is not
  written while a reload has read it and the servers are not written while a reload
  has read them (`StoreSnapshot.InstallsAgreeIff`).
- A rotation whose clear fails goes on to write the new key. It leaves the store
  coherent if and only if the clear succeeded, nobody was stored, or the new key
  did not become readable on disk (`StoreCoherence.RotationWithFailedClear`).
- Deduplication keeps accepted requests of a user a second apart if and only if no
  request waits more than a second for the lock after reading the clock
  (`Dedup.KeepsApartIffWaitsAtMostASecond`, with a three-request run at 1001 ms).
- A replayed PAM code is less than 500 ms old when the lookup has the lock if and only
  if lookups do not wait for it; with a wait it is older by no more than the wait
  (`VerdictCache.AlwaysYoungIffNoWait`, `VerdictCache.AgeAtLock`).
- The phone's session can give up after the client has finished: exactly when the client's
  Ed25519 key reaches it with a length other than 32 (`PairingSession.ExchangeAgrees`).
- A pairing URL parses back to what it was made from if and only if the key text
  contains neither `&` nor `=` (`PairingUrl.UrlRoundTrip`).
- Replay fingerprints are injective between identifiers of lengths m and n, and the
  replay cache leaves every verdict alone on them, if and only if m equals n
  (`Transport.InjectiveIffSameLength`, `Transport.CacheInvisibleIffOneLength`). Phones
  make 16-byte identifiers; the daemon does not check the length of those it receives.
- A temporal identifier that is valid when verification begins can be refused when
  the minute changes between the two clock reads
  (`Temporal.BoundaryBetweenReadsRefuses`; the exact condition is `Temporal.AcceptedIff`).

Where the code and its documentation disagree, the model follows the code. Pairing a
known phone again replaces its entry with the new user alone, while
`client-config-gui/README.md` lines 73-75 describe adding the user
(`PairingStore.ConfigManager.AddPairedServer`). Pairing again after a rotation does not
distribute the new CSK to a phone that still lists the desktop, as
`docs/design-documents/protocol/device-lifecycle.md` line 34 promises
(`StoreRuns.PairedAgainAfterRotation`). A grant is accepted from any paired
phone; the list of allowed users only decides whether a session starts
(`EndToEnd.ResponseIsBacked` states both separately).

## Model

| member | source | states |
|---|---|---|
| `EndToEnd.SuccessMeansAPhoneGranted` | client-pam/src/pam_logic.rs:812-839 | For all overlapping calls, packets, race orders, thread interleavings, event loops and cuts of the daemon's frame: PAM_SUCCESS for a user means a paired phone's grant for the challenge of a session of that same user was received in time and verified and the frame saying so was read, in this call or in one real call for the same user and service that had returned when this one looked, under 500 ms before it read the clock. |
| `EndToEnd.PhoneDecides` | tapauthd/src/auth_handler.rs:260-440 | The way back: when a ready session's race is decided by a task whose run ends with a verified grant or denial, the daemon answers 0 or 1, and any of the three flows that is ended by this response leads to PAM_SUCCESS or PAM_PERM_DENIED. |
| `EndToEnd.RemovedPhoneIsShutOut` | tapauthd/src/auth_handler.rs:273-322 | When the edits made leave no entry for a phone and no request is in flight, a session begun then succeeds only through a verified grant under another key that is stored on disk, and only for a user some stored phone is paired for. |
| `EndToEnd.FlowOnlyReadsWhatWasSent` | client-pam/src/ipc_client.rs:161-244 | However the frame the daemon wrote is cut on its way, none of the three event loops reads any response but the one in it. |
| `EndToEnd.CodeIsTheFlows` | client-pam/src/pam_logic.rs:1119-1250 | The code of a call that is not a replay is the one its threaded flow returned, in every interleaving of its threads. |
| `EndToEnd.FlowAnswersWhatItRead` | client-pam/src/pam_logic.rs:1083-1386 | A threaded, sequential or terminal flow that answers with a response answers with the one it read from the socket. |
| `EndToEnd.FlowIff` | client-pam/src/pam_logic.rs:1083-1386 | Each of the three flows has a path exactly once it has returned, and that of a response if and only if this response was the first thing to end its loop. |
| `EndToEnd.NoGrantServesTwoSessions` | tapauthd/src/auth_handler.rs:1006-1025 | With distinct challenges and signatures that bind a challenge under paired keys, the grants of two sessions are different messages. |
| `EndToEnd.ResponseIsBacked` | tapauthd/src/auth_handler.rs:260-440 | The daemon answers 0 only with a verified grant on an enabled transport and a server paired for the user, and 1 only with a verified denial. |
| `EndToEnd.ResponseIff` | tapauthd/src/auth_handler.rs:260-440 | The daemon answers 0 or 1 if and only if the session was ready and the first of grant, denial and cancel to come was a grant or a denial, 2 if and only if it started and was not over in time, 3 if and only if there was no point in asking or nobody decided. |
| `EndToEnd.TaskResultIff` | tapauthd/src/auth_handler.rs:567-623 | A transport task grants or denies exactly if it is enabled, did not panic and its run did, and has no result exactly while its run has none. |
| `VerdictCache.OutcomeFromRaw` | client-pam/src/pam_logic.rs:1513-1527 | Only raw 0 is a success and only raw 1 a denial; every unknown value is an error. |
| `VerdictCache.MapOutcome` | client-pam/src/pam_logic.rs:1465-1500 | PAM_SUCCESS exactly for raw 0, PAM_PERM_DENIED exactly for raw 1, unavailable exactly for a timeout or an ignore. |
| `VerdictCache.CodeOf` | client-pam/src/pam_logic.rs:841-990 | Exactly which ways through a call give success, a denial, an unknown user and an authentication error; whatever stops before an answer is unavailable or an error and never lets anybody in. |
| `VerdictCache.RecordRefinesHistory` | client-pam/src/pam_logic.rs:140-204 | The one-entry record decides every call exactly as the full history of calls finished before its lookup would, however calls overlap. |
| `VerdictCache.ReplayedIff` | client-pam/src/pam_logic.rs:132-175 | In every run a call is a replay if and only if it reaches the lookup and the last call recorded before that is of the same user and service and under 500 ms old; its code is then that call's, a denial as well as a success, and otherwise that of its own path. |
| `VerdictCache.RecordedIff` | client-pam/src/pam_logic.rs:195-246 | In every run a call replaces the record if and only if it is no replay, its request was sent, its service is known and the lock answers. |
| `VerdictCache.ReplayHasFreshSource` | client-pam/src/pam_logic.rs:971-990 | Every replayed code was concluded by one real transaction of the same user and service that had returned when the lookup got the lock, under 500 ms before the lookup read the clock; replays are never replayed, so chains do not stretch the window. |
| `VerdictCache.AgeAtLock` | client-pam/src/pam_logic.rs:140-175 | When the lookup has the lock, a replayed conclusion is younger than 500 ms plus that lookup's own wait for it. |
| `VerdictCache.AlwaysYoungIffNoWait` | client-pam/src/pam_logic.rs:140-175 | Replayed conclusions are always under 500 ms old at the lock if and only if there is no wait between clock and lock. |
| `VerdictCache.SuccessIsARecentGrant` | client-pam/src/pam_logic.rs:841-990 | Every PAM_SUCCESS goes back to a response with raw outcome exactly 0, of this call or of the one it may replay. |
| `VerdictCache.UnsentCallsLeaveTheRecord` | client-pam/src/pam_logic.rs:225-246 | A call that stops before its request is on the wire neither writes nor clears the record. |
| `VerdictCache.RunKeepsInv` | client-pam/src/pam_logic.rs:195-204 | After any run the record is the latest conclusion among the finished calls, and every running and finished call decided as the history it saw dictates. |
| `VerdictCache.CallsMoveForward` | client-pam/src/pam_logic.rs:812-839 | A call under way goes through lookup, work and return in this order and keeps what it has read and concluded, whatever other calls do in between. |
| `VerdictCache.CallsAreConserved` | client-pam/src/pam_logic.rs:812-839 | In every run the calls that came in are those still running and those finished; none is lost or returns twice. |
| `VerdictCache.PamModule.constructor` | client-pam/src/pam_logic.rs:116 | The process starts with no conclusion recorded. |
| `VerdictCache.PamModule.Authenticate` | client-pam/src/pam_logic.rs:812-839 | One undisturbed call: a record of the same user and service under 500 ms old gives its code whatever it is, any other call the code of its own path; the new record; a success without a grant in this call needs a recorded success inside the window; unsent calls leave the record alone. |
| `PamRace.RunGuiEventLoop` | client-pam/src/pam_logic.rs:600-697 | The loop returns the verdict of the first pass that has one, with response and error text. |
| `PamRace.LoopExits` | client-pam/src/pam_logic.rs:600-697 | Said of poll results, flag and socket alone: the loop goes on exactly while nothing ends it, and exits with a response, at the deadline, by a token, by a dismissed dialog, by a lost connection or by an error, each if and only if the first pass to end it is of that kind; any frame ends it. |
| `PamRace.RunSequentialEventLoop` | client-pam/src/pam_logic.rs:728-787 | The sequential loop ends as the threaded one would on the same passes if the worker never moved. |
| `PamRace.SequentialExits` | client-pam/src/pam_logic.rs:728-787 | The same for the sequential loop: response, deadline or error, each if and only if the first pass to end it is of that kind. |
| `PamRace.RunTerminalLoop` | client-pam/src/pam_logic.rs:1251-1386 | The terminal loop ends with the first response, hang-up, error, Enter or deadline, and stops listening to a terminal that is closed or broken. |
| `PamRace.TerminalExits` | client-pam/src/pam_logic.rs:1251-1386 | It goes on exactly while no frame, hang-up, error, deadline or Enter ends it, answers with a response if and only if the first pass to end it read that frame, and is unanswered otherwise. |
| `PamRace.TerminalEndsAsSequential` | client-pam/src/pam_logic.rs:1251-1386 | The terminal loop ends without an answer when Enter is read from a terminal still listened to before the socket has decided anything, and in every other case exactly as the sequential loop on the same socket. |
| `PamRace.DoneCodeIsPathCode` | client-pam/src/pam_logic.rs:1119-1250 | In every interleaving the code returned is that of a local failure, of the response read, or of no answer, as the path taken says. |
| `PamRace.LibpamIsExclusive` | client-pam/src/pam_logic.rs:1165-1249 | In every interleaving the calling thread and the worker are never in libpam together, the calling thread stays out from spawn to join, and the host gets control back only when the worker is gone. |
| `PamRace.JoinedExactlyOnce` | client-pam/src/pam_logic.rs:565-591 | At most one worker is spawned and every way out joins it exactly once. |
| `PamRace.JoinNeverWaitsForTheUser` | client-pam/src/pam_logic.rs:565-591 | The cancel is skipped only when the worker has left pam_get_authtok; unless pthread_cancel itself fails, steps the worker takes alone complete the join. |
| `PamRace.PasswordSurvivesTheJoin` | client-pam/src/pam_logic.rs:565-591 | After an exit by password the worker was never cancelled and the join finds it finished, with the token or, for a dismissed dialog, without one. |
| `PamRace.PreparationFails` | client-pam/src/pam_logic.rs:1119-1165 | Until the worker is spawned a failing preparation ends the call with an authentication error and nobody in libpam. |
| `PamRace.RemoteEndIsReached` | client-pam/src/pam_logic.rs:565-697 | Any passes the worker has no part in, ended by the last of them, are those of a run that cancels the dialog, joins the worker once and returns. |
| `PamRace.PasswordEndIsReached` | client-pam/src/pam_logic.rs:484-697 | After any passes that did not end the loop the user can end the dialog, with a token or without: the loop leaves by password, nothing is cancelled, the conversation is free again and the call returns unavailable so that the next module asks. |
| `PamRace.NeverStuck` | client-pam/src/pam_logic.rs:1119-1250 | From every reachable state some steps lead to the return, none of them the user's unless pthread_cancel failed. |
| `PamRace.ExitReasonIsTruthful` | client-pam/src/pam_logic.rs:484-697 | PasswordFailed only when the worker finished without a token, PasswordEntered only when it holds one, whatever happens between poll and flag load; a response exactly for IpcResponseReceived and an error text exactly for IpcError. |
| `PamRace.GrantNeedsAFrameAndNoPassword` | client-pam/src/pam_logic.rs:1165-1249 | The threaded flow returns success only if a pass read a complete frame with raw outcome 0 while the password flag it loaded was unset. |
| `PamRace.RunKeepsInv` | client-pam/src/pam_logic.rs:501-536 | In every interleaving: the flag is set exactly when the worker is past its store with a token, a byte in the pipe means the worker is finished, and each stage of the calling thread agrees with worker, flag, pipe and passes seen. |
| `PamRace.PipeHoldsWhatWasSent` | client-pam/src/pam_logic.rs:501-536 | In every interleaving the self-pipe holds exactly the bytes whose write succeeded, at most one, written by a worker that is done. |
| `Messages.SignThenVerify` | shared/src/protocol/messages.rs:48-79 | Signing makes a wrapper verify whatever its signature fields held before, and keeps payload and version. |
| `Messages.GrantRoundTrip` | shared/src/protocol/messages.rs:132-168 | A grant created for a challenge, wrapped and signed by the same key, is accepted for that challenge. |
| `Messages.VerifyGrantIff` | shared/src/protocol/messages.rs:148-168 | A grant is accepted if and only if the challenge has 32 bytes, the wrapper's signature verifies over the encoding of the wrapper without it, and the grant's own signature verifies over the challenge, under the one key. |
| `Messages.SignatureCoversMessage` | shared/src/protocol/messages.rs:67-79 | If a signature binds one encoding, two wrappers that verify with the same signature are the same message, field for field. |
| `Messages.WrapperMessage.Sign` | shared/src/protocol/messages.rs:48-63 | Signing in place leaves exactly the signed wrapper the round trip is about. |
| `Transport.AuthenticateWithTransport` | tapauthd/src/auth_handler.rs:833-953 | The loop's result, its number of sends and its attempt counter are those of the run the lemmas below describe. |
| `Transport.RunEndsAtFirstDecision` | tapauthd/src/auth_handler.rs:841-953 | A run ends at the first round whose input alone decides, with that decision; while it goes on, the cache holds exactly the fingerprints received. |
| `Transport.SuccessIffVerifiedGrant` | tapauthd/src/auth_handler.rs:955-1037 | A run succeeds if and only if the first round to end it brings, in time and not as a replay, a packet that opens under the CSK to a grant whose wrapper signature over its own encoding and whose signature over this 32-byte challenge both verify under one and the same paired key. |
| `Transport.DenialIffVerifiedDenial` | tapauthd/src/auth_handler.rs:1039-1064 | A run is explicitly denied if and only if the first round to end it brings, in time and not as a replay, a denial for this challenge whose wrapper signature verifies under a paired key. |
| `Transport.FailureIff` | tapauthd/src/auth_handler.rs:833-1064 | A run goes on exactly while no round ends it, and times out, fails or gives up on a packet that does not open, each if and only if the first round to end it is of that kind; wrong signatures, other challenges and replays never end it. |
| `Transport.AsksOncePerRound` | tapauthd/src/auth_handler.rs:841-898 | While a run goes on it sends once per round, and the retry counter counts silence, replays and packets no paired phone signed, but not signed messages that answer another challenge. |
| `Transport.AskedUntilTheEnd` | tapauthd/src/auth_handler.rs:841-898 | A run that has ended sent once per round before its last, and in its last exactly if that was in time. |
| `Transport.HonestGrantIsAccepted` | shared/src/protocol/messages.rs:132-168 | A grant a paired phone makes for this challenge and gets through in time is accepted. |
| `Transport.ReplaysChangeNothing` | tapauthd/src/auth_handler.rs:912-925 | If the rounds that bring replays are in time and their sends succeed, removing them changes neither the verdict, nor the cache, nor what is decrypted; other rounds may end the run in any way. |
| `Transport.CacheInvisibleIffOneLength` | tapauthd/src/auth_handler.rs:912-925 | On identifiers of lengths m and n every run ends as one without a replay cache if and only if m equals n. |
| `Transport.CacheIsInvisible` | tapauthd/src/auth_handler.rs:901-953 | With identifiers of one length the result is the first verdict of a run that remembers nothing. |
| `Transport.CopiesChangeNothing` | tapauthd/src/auth_handler.rs:901-953 | Later copies of a ciphertext under other identifiers, which the cache does not catch, change no verdict. |
| `Transport.GrantServesOneSession` | shared/src/protocol/messages.rs:148-168 | With signatures that bind a 32-byte challenge under the paired keys no grant is accepted for two different challenges. |
| `Transport.DecryptedOnce` | tapauthd/src/auth_handler.rs:912-937 | No fingerprint reaches the decryption twice in a run. |
| `Transport.InjectiveIffSameLength` | tapauthd/src/auth_handler.rs:913-917 | Fingerprints of packets with identifier lengths m and n coincide only for equal packets, if and only if m equals n. |
| `Backoff.WaitedClosedForm` | shared/src/network/discovery.rs:5-9 | The first n waits sum to 200(2^n - 1) up to five and to 6200 + 6400(n - 5) from there. |
| `Backoff.AtMost23Requests` | tapauthd/src/auth_handler.rs:841-898 | Without an answer and with waits no shorter than nominal, a session sends at most 23 requests, and longer runs have timed out. |
| `Backoff.ExactWaitsEndAt121400` | shared/src/network/discovery.rs:5-19 | With exact waits it sends exactly 23 requests and ends at 121.4 s. |
| `Backoff.RetransmitWithBackoff` | shared/src/network/discovery.rs:22-49 | The helper sleeps the interval of each silent attempt in time and ends at the first error, answer or silence past the limit: with an error exactly for an error, with true exactly for an answer. |
| `AuthSession.AwaitAuthResult` | tapauthd/src/auth_handler.rs:634-718 | For every order of completions and cancel the result is fixed by the first terminal event, or denied after two plain failures; each round polls exactly the unfinished transports and the cancel. |
| `AuthSession.RaceIff` | tapauthd/src/auth_handler.rs:634-718 | The race is won, denied by a phone or lost, each if and only if the events say so: a grant, a denial or a cancel before any other of these, or both transports done without one. |
| `AuthSession.RaceIsOpen` | tapauthd/src/auth_handler.rs:634-718 | The race is still on if and only if nobody granted, denied or cancelled and a transport is not done. |
| `AuthSession.RaceIsSymmetric` | tapauthd/src/auth_handler.rs:634-718 | Exchanging the transports never changes the result. |
| `AuthSession.RaceIsDecidedOnce` | tapauthd/src/auth_handler.rs:634-718 | Once decided, later events change nothing. |
| `AuthSession.DisabledTransportIsInvisible` | tapauthd/src/auth_handler.rs:567-623 | With either transport switched off and no cancel, the session ends exactly when the other one does and with its result. |
| `AuthSession.OutcomeIff` | tapauthd/src/auth_handler.rs:270-439 | Exactly when each of the five outcomes is answered: Success for a ready session and a won race, Denied for an explicit denial, Timeout when race or awaited clean-up are not over in time, Error when no challenge, key or request could be made, Ignore for a duplicate, a missing transport, no server paired for the user, or a race nobody won. |
| `AuthSession.OutcomeRoundTrip` | proto/ipc.proto:20-26 | The PAM side reads back the outcome the daemon wrote. |
| `Dedup.MapAgreesWithHistory` | tapauthd/src/main.rs:375-404 | An entry is the user's latest accepted time, and what was pruned is too old to make any request still to come a duplicate. |
| `Dedup.PrunedDecidesAsHistory` | tapauthd/src/main.rs:375-404 | With waits up to a second every request is decided exactly as the unpruned history says, although timestamps reach the lock out of order. |
| `Dedup.AcceptedAreASecondApart` | tapauthd/src/main.rs:383-404 | Two accepted requests of one user are at least a second apart. |
| `Dedup.KeepsApartIffWaitsAtMostASecond` | tapauthd/src/main.rs:375-404 | That spacing holds in all runs with waits up to w if and only if w is at most a second. |
| `Dedup.LongerWaitsBreakIt` | tapauthd/src/main.rs:375-404 | A run with a wait of 1001 ms accepts two requests of one user 999 ms apart. |
| `Dedup.RecentRequests.constructor` | tapauthd/src/main.rs:171 | No user has an entry at first. |
| `Dedup.RecentRequests.Admit` | tapauthd/src/main.rs:375-404 | A request is accepted if and only if its user has no entry or one at least a second old; exactly the entries of others that are two seconds old are pruned, the user's own becomes the accepted time, and no other changes. |
| `PairingSlot.PersistedOnceAfterBothPhases` | tapauthd/src/admin_handler.rs:340-628 | In every interleaving a generation only moves forward through pending, accepting, active and finishing; the store is written at most once per generation and only after all of them. |
| `PairingSlot.OneGenerationInSlot` | tapauthd/src/admin_handler.rs:350-358 | Two generations are never in the slot together. |
| `PairingSlot.TimerClearsOnlyItsOwn` | tapauthd/src/admin_handler.rs:365-393 | A timer empties the slot if and only if it was spawned, has not gone off and its own generation is there in its own kind; it ends nothing else and never touches the store. |
| `PairingSlot.TakenIffKindAndPortFit` | tapauthd/src/admin_handler.rs:395-556 | In every run a wait takes the pairing out of the slot if and only if it is pending and the request names its port or none, and a completion if and only if it is active and the port fits. |
| `PairingSlot.EntryHasItsOwnPort` | tapauthd/src/admin_handler.rs:340-362 | In every run the port an occupied slot answers to is the one its generation listens on. |
| `PairingSlot.SlotIsAlwaysWatched` | tapauthd/src/admin_handler.rs:358-393 | An occupied slot has its timer, sleeping or about to be spawned, and letting it run empties the slot, so the slot is never held forever. |
| `PairingSlot.OneTimerPerEntry` | tapauthd/src/admin_handler.rs:356-393 | In every run a generation enters the slot at most once in each kind, and every entry has exactly one timer, about to be spawned, sleeping or gone off. |
| `PairingSlot.CompletionsCanOverlap` | tapauthd/src/admin_handler.rs:395-556 | From any state with a free slot one more generation can reach finishing while all others stay where they are. |
| `PairingSlot.RunKeepsInv` | tapauthd/src/admin_handler.rs:127-136 | Generations are issued once each, the slot holds exactly the generation whose phase says so, and the store lists exactly the generations that ended there. |
| `PairingSlot.PairingState.constructor` | tapauthd/src/admin_handler.rs:127-132 | The slot starts empty. |
| `PairingSlot.PairingState.NextGeneration` | tapauthd/src/admin_handler.rs:134-136 | Each call returns a number never returned before and starts its life. |
| `PairingSlot.PairingState.StorePending` | tapauthd/src/admin_handler.rs:340-362 | A started pairing enters a free slot as pending, and is dropped with an error otherwise. |
| `PairingSlot.PairingState.SpawnTimeout` | tapauthd/src/admin_handler.rs:356-393 | Spawning a timer turns the one the slot still owes into a sleeping one. |
| `PairingSlot.PairingState.Timeout` | tapauthd/src/admin_handler.rs:365-393 | The timeout's locked section is the timer step of the protocol. |
| `PairingSlot.PairingState.BeginWait` | tapauthd/src/admin_handler.rs:395-427 | A wait succeeds if and only if the slot holds a pending pairing and the request names its port or none, and takes exactly that generation; otherwise nothing changes and the error names the reason. |
| `PairingSlot.Refusal` | tapauthd/src/admin_handler.rs:400-427 | Exactly which error a request gets: no session, a wrong port only when the kind fits, still pending, already active. |
| `PairingSlot.PairingState.AcceptFailed` | tapauthd/src/admin_handler.rs:428-466 | A pairing whose connection or key exchange fails is given up for good. |
| `PairingSlot.PairingState.StoreActive` | tapauthd/src/admin_handler.rs:467-483 | An accepted pairing returns to a free slot as active, and is superseded otherwise. |
| `PairingSlot.PairingState.BeginComplete` | tapauthd/src/admin_handler.rs:522-556 | A completion succeeds if and only if the slot holds an active pairing and the request names its port or none, and takes exactly that generation; otherwise nothing changes and the error names the reason. |
| `PairingSlot.PairingState.FinishFailed` | tapauthd/src/admin_handler.rs:558-608 | A completion that fails gives its pairing up for good and stores nothing. |
| `PairingSlot.PairingState.FinishSucceeded` | tapauthd/src/admin_handler.rs:610-627 | A completion that succeeds counts its pairing as stored, once. |
| `PairingSession.HonestPairingAgrees` | shared/src/protocol/pairing.rs:126-541 | Undisturbed delivery gives both sides the same SAS and pairing key, the client the phone's own Ed25519 key and name, and the phone exactly the client's CSK, Ed25519 key and name; the user's name arrives with the CSK. |
| `PairingSession.ExchangeAgrees` | shared/src/protocol/pairing.rs:377-422 | The client finishes with the phone's own key and name whatever Ed25519 key the phone received, the phone if and only if that key has 32 bytes, and then with that key and the client's CSK. |
| `PairingSession.InitiateIff` | shared/src/protocol/pairing.rs:126-199 | The client accepts a hello if and only if it can be read, has version 1, two 32-byte keys and agrees; the peer it returns has the hello's Ed25519 key and name and the SAS of its own key first and the hello's second. |
| `PairingSession.TakeResponseIff` | shared/src/protocol/pairing.rs:377-410 | The phone session accepts a response if and only if it can be read, has version 1, a 32-byte X25519 key and agrees; it keeps the Ed25519 key unchecked and derives SAS and pairing key from the client's key first and its own second. |
| `PairingSession.TakeCskIff` | shared/src/protocol/pairing.rs:468-541 | The phone session takes a CSK if and only if it opens under the pairing key to 32 bytes, changes nothing else, and acknowledges with that key's sealed hash. |
| `PairingSession.CheckCompleteIff` | shared/src/protocol/pairing.rs:317-355 | The client accepts an acknowledgement if and only if it can be read, says success and opens under the pairing key to the hash of the CSK. |
| `PairingSession.FinishedMeansPhoneHoldsCsk` | shared/src/protocol/pairing.rs:204-355 | Whatever is delivered to any number of phone sessions, by other desktops or anybody else, if the client's finish returns Ok then a phone session with the same pairing key decrypted exactly that CSK; authenticity is asked of the client's pairing key alone. |
| `PairingSession.AcceptedCompleteIsBacked` | shared/src/protocol/pairing.rs:317-355 | An acknowledgement the client accepts was sealed by a phone that has its CSK, not by the client itself. |
| `PairingSession.ReflectedCsk` | shared/src/protocol/pairing.rs:317-355 | The client's own ciphertext passes as an acknowledgement if and only if the CSK hashes to itself. |
| `PairingSession.ClientPairingSession.InitiatePairing` | shared/src/protocol/pairing.rs:126-199 | The session's fields and result after a hello are those of the client's step, including fields set before a late error. |
| `PairingSession.ClientPairingSession.ReceivePairingComplete` | shared/src/protocol/pairing.rs:317-355 | Ok only if the acknowledgement opens under the pairing key to the hash of the CSK sent. |
| `PairingSession.ServerPairingSession.ReceiveResponse` | shared/src/protocol/pairing.rs:377-410 | The phone session's fields and SAS after a response are those of its step. |
| `PairingSession.ServerPairingSession.ReceiveCsk` | shared/src/protocol/pairing.rs:468-541 | The phone session takes a 32-byte key it could open and acknowledges its hash, or changes nothing. |
| `PairingSession.ServerPairingSession.Finish` | shared/src/protocol/pairing.rs:412-421 | The phone session finishes if and only if it holds a CSK, a SAS and a 32-byte Ed25519 key of the client, and hands out exactly these with the client's name. |
| `StoreCoherence.CoherentIffCareful` | tapauthd/src/admin_handler.rs:558-669 | Every stored server's phone holds exactly the CSK on disk after every step of every run under a policy, with writes failing before, after or midway, if and only if the policy rules out overlapping first pairings, completions begun during a rotation, rotations begun while a completion or removal is storing, failing clears, phones that acknowledge one key and keep another or none, and phones that forget a desktop that stores them. |
| `StoreCoherence.RunKeepsInv` | tapauthd/src/admin_handler.rs:558-669 | Under such a policy keys held by requests, maps waiting to be saved and phones agree with the key on disk at every step. |
| `StoreCoherence.AloneCoherentIffReliable` | tapauthd/src/admin_handler.rs:205-209 | Requests served one at a time with clears that succeed keep the store coherent if and only if phones keep what they acknowledge for as long as they are stored. |
| `PairingStore.OneAtATimeIsSerial` | tapauthd/src/admin_handler.rs:205-209 | Runs of requests served one at a time follow a policy without any overlap, and never have two in flight. |
| `PairingStore.NobodyWithoutUsers` | shared/src/config.rs:540-579 | In every run, whatever overlaps, no server is stored or about to be stored without users. |
| `PairingStore.ArrivalsDisturbNobody` | tapauthd/src/admin_handler.rs:145-209 | In every run an arriving request remembers the snapshot it finds and leaves requests in flight, files, snapshot and phones alone. |
| `StoreRuns.PairedAgainAfterRotation` | server-android/app/src/main/java/dev/rourunisen/tapauth/network/PairingClient.kt:211-248 | Pair, rotate, pair the same phone again, one request at a time: the phone is stored and holds the key from before the rotation. |
| `StoreRuns.PairedWithoutKeeping` | server-android/app/src/main/java/dev/rourunisen/tapauth/network/PairingClient.kt:197-259 | A phone that fails after its acknowledgement is stored without holding a key. |
| `StoreRuns.PairedAndForgotten` | server-android/app/src/main/java/dev/rourunisen/tapauth/data/DeviceRepository.kt:75-86 | A phone whose user removes the desktop stays stored on it without holding a key. |
| `StoreRuns.TwoFirstPairings` | tapauthd/src/admin_handler.rs:558-627 | Two first pairings at once leave a stored phone with a key that is no longer on disk. |
| `StoreRuns.CompleteWhileRotating` | tapauthd/src/admin_handler.rs:558-669 | So does a completion that stores its phone between the clear and the save of a rotation, whichever of the two began first. |
| `StoreRuns.RotateWhileKeySaved` | tapauthd/src/admin_handler.rs:598-627 | So does a rotation between the key save and the load of a completion. |
| `StoreRuns.RotateWhileAdding` | tapauthd/src/admin_handler.rs:610-669 | So does a rotation between the load and the save of a completion, with every clear succeeding; the clear is lost as well. |
| `StoreRuns.RotateWhileRemoving` | shared/src/config.rs:501-579 | So does a rotation between the load and the save of a removal. |
| `StoreRuns.RotateWithoutClearing` | shared/src/config.rs:501-507 | So does a rotation alone whose clear fails. |
| `StoreUpdates.RotationsStandIff` | tapauthd/src/admin_handler.rs:558-608 | The key of the last rotation that reported success stays on disk in every run under a policy if and only if no completion begins between clear and save of a rotation and no rotation begins while a completion has yet to save its key. |
| `StoreUpdates.EditsStandIff` | shared/src/config.rs:540-579 | The stored servers are always what the saved additions, removals and clears give one after the other, if and only if no load for a change and no rotation begins while another change is loaded and unsaved. |
| `StoreCoherence.RotationWithFailedClear` | shared/src/config.rs:501-507 | From any state of a careful run a rotation keeps the store coherent if and only if the clear succeeded, nobody was stored, or the new key did not become readable. |
| `StoreSnapshot.InstallsAgreeIff` | tapauthd/src/admin_handler.rs:145-209 | After every mutating request whose reload can read the files the installed snapshot equals them, in every run under a policy, if and only if neither file is written while another request's reload has read it and not yet installed it. |
| `StoreSnapshot.StaleInstall` | tapauthd/src/admin_handler.rs:205-209 | A reload read before and installed after a removal leaves the removed phone in the snapshot, with no request left to correct it. |
| `StoreSnapshot.AtRestSnapshotIsDisk` | tapauthd/src/auth_handler.rs:164-223 | Under such a policy the snapshot equals the files whenever no request is in flight; if the policy is also one that keeps the store coherent, every phone in the snapshot holds the key the daemon decrypts with. |
| `StoreSnapshot.RunKeepsInv` | tapauthd/src/auth_handler.rs:164-223 | Without writes during a reload, whatever a reload has read equals the files until it is installed, fallbacks included. |
| `PairingStore.WithoutKeepsTheOthers` | shared/src/config.rs:558-579 | Removing a user from a list removes that user and nobody else, and leaves somebody exactly if there was another. |
| `PairingStore.WithoutDistributes` | shared/src/config.rs:558-579 | Users are kept or removed one by one, so the others stay in their order. |
| `PairingStore.EditsTouchOneEntry` | shared/src/config.rs:540-579 | An addition or removal leaves every other entry as it was; an addition leaves its user alone in the entry; a removal keeps the entry if and only if another user is left, with exactly the others. |
| `PairingStore.SuccessMeansDone` | tapauthd/src/admin_handler.rs:558-669 | In every run a request that answers success has written what it says: the servers on disk show its addition or removal, or there was nothing to remove, or the key on disk is the rotation's. |
| `PairingStore.ErrorIffSomethingWrong` | tapauthd/src/admin_handler.rs:558-669 | A step makes its request answer an error if and only if its read or write goes wrong; a failed clear of a rotation does not count. |
| `PairingStore.WriteThenLoad` | shared/src/config.rs:174-204 | The next load sees the map written, the one before a refused write, or nothing after one cut short; the key file likewise, and neither write touches the other file. |
| `PairingStore.UnreadableReloadChangesNothing` | tapauthd/src/auth_handler.rs:164-223 | A reload that can read neither file puts back what its request found on arrival. |
| `PairingStore.ConfigManager.constructor` | shared/src/config.rs:461-520 | A fresh installation has neither file. |
| `PairingStore.ConfigManager.RotateCsk` | shared/src/config.rs:501-507 | The new key is written whether or not the clear succeeded and the result tells only about the write; the servers are gone if the clear went through and untouched otherwise. |
| `PairingStore.ConfigManager.AddPairedServer` | shared/src/config.rs:540-545 | The entry becomes exactly the new user's; other entries stay; unreadable files stay untouched. |
| `PairingStore.ConfigManager.RemoveUserFromPairing` | shared/src/config.rs:558-579 | Every other entry keeps exactly its users; the entry stays if and only if another user is left, with exactly the others in their order; true is returned exactly when no entry is left, and unreadable files stay untouched. |
| `FirewallGuard.PortProtocol` | shared/src/firewall.rs:62-133 | In every interleaving of creation, cloning, release and delayed drop: at most one live guard, a live guard means open, opens and close attempts alternate beginning with an open, and with no guard live and no drop pending the port is closed. |
| `FirewallGuard.GuardLivesWhileHeld` | shared/src/firewall.rs:62-99 | In every interleaving a guard lives exactly while references to it are held, its count is those handed out by creation and cloning less those released, and the drops still due are the guards whose last reference went and whose drop has not run. |
| `FirewallGuard.RuleBalance` | shared/src/firewall.rs:104-133 | Rules inserted less rules removed are the one of an open port plus one for each failed close. |
| `FirewallGuard.OnlyRefusedClosesLeak` | shared/src/firewall.rs:104-133 | Rules inserted less rules removed are the one of an open port plus one for each drop, due on an open port nobody holds, whose close the host refused. |
| `FirewallGuard.PortsAreIndependent` | shared/src/firewall.rs:46-50 | In the process-wide map every port behaves as if it were alone. |
| `FirewallGuard.GuardMap.constructor` | shared/src/firewall.rs:46-50 | The map starts empty. |
| `FirewallGuard.GuardMap.New` | shared/src/firewall.rs:62-92 | Creation shares the live guard or opens the port; it fails exactly when the port had to be opened and could not be. |
| `FirewallGuard.GuardMap.Clone` | shared/src/firewall.rs:62-92 | A further reference keeps the same guard alive. |
| `FirewallGuard.GuardMap.Release` | shared/src/firewall.rs:95-99 | The last reference to go takes the guard with it and leaves exactly one drop due. |
| `FirewallGuard.GuardMap.DropClose` | shared/src/firewall.rs:95-133 | A drop closes exactly an open port without a live guard and marks it closed even when the command fails. |
| `Framing.HeaderRoundTrip` | client-pam/src/ipc_client.rs:246-260 | A length written as a header reads back as itself. |
| `Framing.HeadersInOrder` | client-pam/src/ipc_client.rs:246-260 | Headers compare byte by byte as their lengths do, most significant byte first. |
| `Framing.FramesOfEncoded` | tapauthd/src/main.rs:457-526 | The blocking reader returns encoded payloads first, unchanged and in order, then whatever follows. |
| `Framing.OversizedIsRefused` | client-pam/src/ipc_client.rs:262-283 | A payload over a reader's limit is refused at its header. |
| `Framing.SplitRefinesReadFrame` | client-pam/src/ipc_client.rs:200-244 | One non-blocking call does to its buffer what one blocking read does to the stream, whether or not it remembered the total. |
| `Framing.BytesAreConserved` | client-pam/src/ipc_client.rs:161-244 | Bytes received equal the frames handed out followed by the buffer, and a remembered total matches the buffered header. |
| `Framing.SameFramesAsBlockingReader` | client-pam/src/ipc_client.rs:161-283 | For every way of cutting a stream into reads the frames are those of the blocking reader on the whole stream, with the same verdict on an oversized header. |
| `Framing.CallingAgainMakesProgress` | client-pam/src/ipc_client.rs:161-244 | A call without new bytes hands out the next buffered frame as long as there is one. |
| `Framing.EncodeThenReassemble` | client-pam/src/ipc_client.rs:161-260 | However encoded payloads up to 1 MiB are cut, reassembly gives back exactly them and an empty buffer. |
| `Framing.HandedOutWasSent` | client-pam/src/ipc_client.rs:161-244 | At any time, with any part of the sent bytes received, the frames handed out are the first ones sent. |
| `Framing.IpcClient.constructor` | client-pam/src/ipc_client.rs:58-63 | A connection starts with an empty buffer and no remembered total. |
| `Framing.DrainedIs` | client-pam/src/ipc_client.rs:161-200 | The bytes read are those of all answers before the first that is not data, and reading fails if and only if that one is an error. |
| `Framing.ResponseIff` | client-pam/src/ipc_client.rs:200-244 | A call answers a response if and only if a payload was handed out and decodes; an unreadable socket, an oversized header and an undecodable payload are told apart. |
| `Framing.IpcClient.ReadAvailable` | client-pam/src/ipc_client.rs:161-200 | The read loop appends all bytes up to the first answer that is not data and reports whether that was an error. |
| `Framing.IpcClient.TryReadResponse` | client-pam/src/ipc_client.rs:161-244 | Buffer, remembered total and result after a call are those of the reader the lemmas are about, with undecodable payloads refused after they are consumed. |
| `PairingUrl.UrlRoundTrip` | shared/src/models.rs:40-111 | Parsing a generated URL returns exactly its key, port and addresses with version 1, if and only if the key contains neither `&` nor `=`. |
| `PairingUrl.GuiReadsTheSamePort` | client-config-gui/src/screens/pairing.rs:62-65 | The GUI's own extraction returns the port of every generated URL whose key has no `&`. |
| `PairingUrl.ParsedKeyIsPlain` | shared/src/models.rs:70-111 | The key of an accepted URL, whatever the URL, contains neither `&` nor `=`. |
| `PairingUrl.RefusedIff` | shared/src/models.rs:70-111 | Each error is returned if and only if the first pair that is wrong is wrong in that way; a wrong scheme comes before. |
| `PairingUrl.AcceptedIff` | shared/src/models.rs:70-111 | A URL of the scheme is accepted if and only if no pair is wrong and version, key and port are given; every field holds the value its key was given last, and unknown keys are skipped. |
| `PairingUrl.Ipv4RoundTrip` | shared/src/models.rs:40-57 | Dotted IPv4 text parses back to the address and contains no separator of the URL. |
| `PairingUrl.Ipv4TextIsCanonical` | shared/src/models.rs:97 | Text parses to an IPv4 address if and only if it is the very text that address is shown as. |
| `PairingUrl.GeneratePairingUrl` | shared/src/models.rs:40-57 | Appending step by step builds the scheme and the joined pairs. |
| `PairingUrl.ParseUrl` | shared/src/models.rs:70-111 | The parser's loop computes the fold over all pairs with its first error, then the check for missing fields. |
| `Temporal.AcceptedIff` | shared/src/crypto/temporal.rs:61-108 | An identifier made at t is accepted if and only if its window is that of the first read or the one before that of the second. |
| `Temporal.FailsIff` | shared/src/crypto/temporal.rs:97-108 | Verification fails if and only if the identifier is not that of the first read and the second read is in the first minute of the epoch. |
| `Temporal.MinuteAndTwoMinutes` | shared/src/crypto/temporal.rs:12-38 | Accepted whenever the second read is at most 60 s after t, rejected whenever the first is at least 120 s after, even with a boundary between the reads. |
| `Temporal.BoundaryBetweenReadsRefuses` | shared/src/crypto/temporal.rs:97-108 | An identifier valid at the first read is refused when the minute changes before the second. |

## Left out

- GUI screens, localisation, logging, build scripts and the JNI bindings: no deep state.
- The Kotlin application, apart from what it keeps of a CSK when it is paired, paired again or told to forget a desktop.
- `ServerPairingSession` is the phone's side of the protocol as the shared library has it; the app runs its own `PairingClient.kt`, which follows the same messages and is not modelled step by step.
- PAM, D-Bus, BlueZ, TPM, socket and firewall calls: their answers are inputs of the events.
- AES-GCM, HKDF, HMAC, Ed25519, X25519, hex and protobuf internals: functions with the hypotheses named above.
- File permissions, ownership and TOML or JSON text: a write succeeds, is refused, is cut short, or fails after the data is in place.
- The tables that choose between the threaded, sequential and terminal flow: the choice is an input.
- The cancel registry and its IPC request: a cancel is an event of the race. The code leaves entries behind on normal completion.
- Grant confirmations and cancel packets, apart from the time they take: a session whose race is won can still time out while its clean-up is awaited.
- A panic of the calling thread between spawning and joining the password worker.
- Poisoned locks in the firewall guard; in the PAM record they are modelled.
- Wrap-around of the 64-bit generation counter and of the 32-bit attempt counter.
- `PortProtocol`: the map is keyed by port alone, so one protocol per port is assumed, and the temporary strong reference in the drop is an atomic observation.
- `GuardMap`: reference counts are values in the map, so clone and release are events of the protocol and not operations on objects.
- `ReplaysChangeNothing`: assumes that rounds with replays are in time and sent, as a replay uses up a round that a session near its end may lack.
- `PairingStore`: checking that a file exists and reading it are one step.
- `PairingSession`: streams are modelled on values; a message that is too long, cut off or undecodable is one that cannot be read.
- `TryReadResponse`: the socket's answers to one call are given as a sequence that stands for the reads until the socket would block.
- TPM recovery, which replaces the key pair and both files at once, and the contents of the configuration: saving it appears as a request that only reloads.
