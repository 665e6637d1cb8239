# A verified model of lightway-cffi

lightway-cffi puts a C interface on the Rust Lightway VPN core. This project
models its three stateful parts and proves what they promise.

**The replay window and the packet session.** Received counters are remembered
in an 8192-bit ring of 128 words that never shifts. `ReplayWindow` is that ring
with its masked word writes, `ReferenceWindow` the shifting bitmap it replaced,
and `History` an unbounded set of accepted counters. All three decide alike on
every counter sequence. On top of the ring, `Session` seals and opens packets
in place with four key slots and a two-key fallback; `SessionRuns` and
`EndToEnd` follow whole runs with key rotations and an arbitrary network;
`SessionThreads` and `SessionKeys` interleave the calls of any number of threads.

**The tick scheduler.** `Timers` and `Ticks` hold the merged connection tick,
the payload ticks and the one host timer; `Client` is the client object with
its nudge, data, connect and disconnect calls. What the core does inside a call
is unknown, so `RunCore` may ask for any ticks, report any states, let any time
pass, return anything, or panic: the C interface contains the panic, and the
connection lives on.

**The lock and the lifecycle.** `ClientLock` interleaves threads that enter,
nest, leave and panic, `Deadlock` says when they can block one another for
good, and `Lifecycle` is the trace of state-change callbacks.

How the code is read:

- Machine words are integers below 2^64, and `Word64` defines the bitwise
  operators by binary expansion, so every wrap and truncation is written out.
- The cipher is an abstract AEAD as in sections 2.1 and 2.2 of RFC 5116, with a
  longest plaintext it seals. A failed in-place seal or open leaves arbitrary
  bytes behind; that is what the second copy of the ciphertext and the zero
  fills are proved against.
- Time is a count of nanoseconds that never decreases between readings.
- Ghost fields (`accepted`, `scheduled`, `dispatched`, `trace`, ...) record
  histories so that invariants can speak about whole runs.

Three promises hold only under a condition, and each has a failing input and an
exact condition:

- A packet under the previous peer key is delivered if and only if the current
  key does not open it to another plaintext (`RoundTrip`). The laws of an AEAD
  do not exclude that: `FallbackCanFail` gives a lawful cipher under which it
  happens to every nonempty packet once the current key begins with another
  byte. `RoundTripUnambiguous` is the form for
  ciphers in which it cannot.
- "At most one DISCONNECTED per connection attempt" does not follow from the
  core reporting Disconnected once (`ReportingOnceIsNotEnough`). Over every run
  of calls it holds if and only if the core reports no second Disconnected
  before a Connecting, and no teardown meets a connection whose Disconnected
  the cached state no longer shows (`OneDisconnectPerAttempt`). For a core that
  cannot know what C will do next, the exact condition adds that a connection
  left up still shows its Disconnected (`OrderlyIsExact`). A core that reports
  nothing after Disconnected meets both (`LastWordIsOrderly`).
- "Only a teardown discards payload ticks" holds if and only if no dispatch of
  due ticks is cut short before its last one (`StoppingLosesTicks`). The due
  ticks leave the pending list before they are handed over, so a panic of the
  core in one of them loses those behind it. `Nudge` says exactly which;
  without panics nothing is ever lost (`AnyCalls`). A panic also leaves the
  published timer as it was, and a connection tick that panics is not re-armed.

The comment at `commit` says its range check only matters for ages strictly
above the window size. `BoundarySharesMaximum` shows that the slot test alone
refuses at every whole number of windows, `RangeCheckNeeded` that after a
single commit it would accept at every other age beyond the window.

## Model

| member | source | states |
|---|---|---|
| Ring.RingIndex | lightway-expresslane/src/replay_window.rs:59-65 | the two masks of the ring index address word `(c mod 8192) / 64`, always in bounds |
| Ring.BitIndex | lightway-expresslane/src/replay_window.rs:67-72 | the bit mask addresses position `(c mod 8192) mod 64` |
| Ring.MaskBetweenBit | lightway-expresslane/src/replay_window.rs:74-79 | exactly the bits from `lo` to `hi` of the mask are set, for every bit |
| Ring.SetSlot | lightway-expresslane/src/replay_window.rs:143 | the `or` sets the counter's slot and no other of the 8192 |
| Ring.MaskedWrite | lightway-expresslane/src/replay_window.rs:201-214 | a masked write clears the named positions of one word and keeps every other slot |
| ReplayWindows.ReplayWindow.constructor | lightway-expresslane/src/replay_window.rs:43-52 | a new window is valid with an empty history |
| ReplayWindows.ReplayWindow.WouldReject | lightway-expresslane/src/replay_window.rs:93-109 | the pre-check rejects exactly the counters the unbounded history would refuse |
| ReplayWindows.ReplayWindow.Commit | lightway-expresslane/src/replay_window.rs:115-184 | accepts exactly when the history does, records exactly that counter, changes nothing on refusal; at most 129 words cleared, none for in-order or older counters |
| ReplayWindows.ReplayWindow.ClearRange | lightway-expresslane/src/replay_window.rs:186-215 | clears the slots of `[lo, hi]` and no other, also when both end writes meet in one word, in at most `(hi - lo)/64 + 2` word writes |
| ReplayWindows.LastWrite | lightway-expresslane/src/replay_window.rs:209-214 | the last masked write completes the range even when its word was already masked at the other end |
| ReplayWindows.ClearingMirrors | lightway-expresslane/src/replay_window.rs:25-34 | the aliasing invariant: clearing the skipped counters makes every slot below the new maximum speak for the one counter in window |
| ReplayWindows.BoundarySharesMaximum | lightway-expresslane/src/replay_window.rs:152-159 | in every valid window, a counter any whole number of windows below the maximum has the maximum's own slot, which is set, and is refused either way |
| ReplayWindows.RangeCheckNeeded | lightway-expresslane/src/replay_window.rs:161-173 | in a window that accepted only its maximum, the slot of an older counter is set if and only if its age is a whole number of windows, so at every other age above 8192 only the range check refuses |
| ReplayWindows.CommitOnly | lightway-expresslane/src/replay_window.rs:115-184 | for every maximum, one commit on a new window makes such a window |
| ReplayWindows.CountExact | lightway-expresslane/src/replay_window.rs:182 | the 64-bit count is the number of distinct accepted counters, at most `max + 1`, and exact if and only if some counter is still missing |
| History.AcceptsByMaximum | lightway-expresslane/src/replay_window.rs:93-109 | the maximum-based rule of the code is the history rule |
| History.AcceptedAtMostOnce | lightway-expresslane/src/replay_window.rs:111-114 | in every run of commits no counter is accepted twice |
| History.RunCounts | lightway-expresslane/src/replay_window.rs:217-220 | acceptances in a run equal the growth of the history |
| History.Stalls | lightway-expresslane/src/replay_window.rs:667-690 | after counter 2^64 - 1, every counter at least 8192 below is refused in every later step |
| History.RefusalsDoNotMatter | lightway-expresslane/src/replay_window.rs:111-114 | removing refused commits from a run changes no verdict and no history |
| History.CountExactUntilFull | lightway-expresslane/src/replay_window.rs:182 | a 64-bit count wraps exactly when all 2^64 counters were accepted |
| ReferenceWindows.ReferenceWindow.TestBit | lightway-expresslane/src/replay_window.rs:264-272 | reads the bit of an age, false past the bitmap |
| ReferenceWindows.ReferenceWindow.SetBit | lightway-expresslane/src/replay_window.rs:256-262 | sets the bit of an age and no other |
| ReferenceWindows.ShiftedWordBit | lightway-expresslane/src/replay_window.rs:291-303 | the lower part and the carry of a word together are the bitmap `count` positions below |
| ReferenceWindows.ReferenceWindow.ShiftLeft | lightway-expresslane/src/replay_window.rs:274-305 | the in-place loops are a true shift of all 8192 bits by `count` |
| ReferenceWindows.ReferenceWindow.WouldReject | lightway-expresslane/src/replay_window.rs:307-319 | rejects exactly what the history refuses |
| ReferenceWindows.ReferenceWindow.Commit | lightway-expresslane/src/replay_window.rs:321-350 | accepts exactly when the history does, and keeps bit `a` equal to "counter of age `a` accepted" |
| WindowEquivalence.SameHistoryAgree | lightway-expresslane/src/replay_window.rs:696-711 | equal histories give equal maxima, counts, answers, and bit `a` equal to the ring bit of `max - a` |
| WindowEquivalence.Differential | lightway-expresslane/src/replay_window.rs:714-782 | for every counter sequence both windows give the verdicts of the unbounded history and agree at the end |
| Wire.IsEncoded | lightway-expresslane/src/session.rs:348 | the encoded flag is the top bit, whatever the fifteen reserved bits are |
| Wire.SentFlags | lightway-expresslane/src/session.rs:215-217 | on send the top bit is the encoded flag and the fifteen reserved bits are 0 |
| Wire.MostSignificantFirst | lightway-expresslane/src/session.rs:343 | fields are read with the most significant byte first |
| Wire.WritesMostSignificantFirst | lightway-expresslane/src/session.rs:234-237 | fields are written with the most significant byte first |
| Wire.AadPositions | lightway-expresslane/src/session.rs:29-37 | bytes 0 to 7 of the associated data are the session id, 8 to 15 the counter, and from Version2 on 16 and 17 the flags; its length is 16 or 18 |
| Wire.AadInjective | lightway-expresslane/src/session.rs:23-38 | equal associated data if and only if equal session, counter and binding rule, and equal flags under Version2 |
| Wire.ParseLayout | lightway-expresslane/src/session.rs:343-347 | every header and payload is read back from its wire layout |
| Aead.LawfulAlgorithmExists | lightway-expresslane/src/cipher.rs:34-70 | the cipher laws assumed throughout can be met |
| Aead.OnlyZeroKeyIsInvalid | lightway-expresslane/src/key.rs:28-36 | exactly one key is refused, the one of 32 zero bytes |
| Aead.SealInPlace | lightway-expresslane/src/cipher.rs:34-55 | seals exactly the given range of the buffer and returns the tag; beyond the cipher's length limit it fails, and nothing is promised about the range |
| Aead.OpenInPlace | lightway-expresslane/src/cipher.rs:57-107 | opens exactly the given range; on failure nothing is promised about its bytes and nothing outside it changes |
| Sessions.ExpresslaneSession.constructor | lightway-expresslane/src/session.rs:100-116 | a new session has no keys, counter 0 and an empty window |
| Sessions.ExpresslaneSession.UpdateNextSelfKey | lightway-expresslane/src/session.rs:150-157 | stages a valid key; the all-zero key changes nothing |
| Sessions.ExpresslaneSession.PromoteSelfKey | lightway-expresslane/src/session.rs:161-169 | the staged key, if any, becomes the send key, and nothing stays staged |
| Sessions.ExpresslaneSession.UpdatePeerKey | lightway-expresslane/src/session.rs:255-264 | a valid key becomes current and the current one becomes the fallback; the all-zero key changes nothing |
| Sessions.ExpresslaneSession.HasValidKeys | lightway-expresslane/src/session.rs:304-307 | true exactly when both keys are installed, between calls |
| Sessions.ExpresslaneSession.Encrypt | lightway-expresslane/src/session.rs:195-241 | writes exactly the packet of the current key and no byte after it; no error counts a packet; an error before sealing touches nothing, a failed sealing leaves the iv and zeros in place of the plaintext and touches nothing else |
| Sessions.ExpresslaneSession.Decrypt | lightway-expresslane/src/session.rs:333-437 | answers `Decide`; a delivery puts the plaintext in the buffer and its counter in the window, an authentication failure zeroes exactly the announced length, any other error touches nothing |
| Sessions.ExpresslaneSession.Authenticate | lightway-expresslane/src/session.rs:387-434 | zero fill on failure; plaintext in place and counter recorded on success |
| Sessions.ExpresslaneSession.CommitCounter | lightway-expresslane/src/session.rs:419-434 | a counter the pre-check let through is always committed |
| Sessions.BufferByte | lightway-expresslane/src/session.rs:318-332 | byte by byte: after an error every byte is the caller's own, or 0 within the announced length after an authentication failure |
| Sessions.ScrubbedByte | lightway-expresslane/src/session.rs:220-231 | byte by byte: after a failed sealing no plaintext is left |
| Sessions.ExpresslaneSession.TryKeys | lightway-expresslane/src/session.rs:387-400 | current key, then previous key on a fresh copy, whatever the failed attempt left in the buffer |
| SessionRuns.TrailingBytesIgnored | lightway-expresslane/src/session.rs:358-391 | bytes after the announced payload never change the answer |
| SessionRuns.RoundTrip | lightway-expresslane/src/session.rs:370-400 | a fresh packet under either peer key is delivered with its plaintext and flag if and only if the current key does not open it to something else |
| SessionRuns.RoundTripUnambiguous | lightway-expresslane/src/session.rs:370-400 | without such key pairs, one of the two keys, a fresh counter and room are enough |
| SessionRuns.FallbackCanFail | lightway-expresslane/src/session.rs:387-400 | under a lawful cipher, every nonempty packet of the previous key is delivered as something else once the current key begins with another byte |
| SessionRuns.FlagsUnboundBeforeVersion2 | lightway-expresslane/src/session.rs:19-22 | before Version2 every packet, under either key or forged, gets the answer it had before its flags were altered, with the flag the wire now says |
| SessionRuns.CutShort | lightway-expresslane/src/session.rs:339-360 | a packet cut short gets InsufficientData, whatever keys and room there are, unless its counter is replayed |
| SessionRuns.NoRoom | lightway-expresslane/src/session.rs:361-363 | a fresh packet larger than the buffer gets BufferTooSmall, whatever keys there are |
| SessionRuns.NoKey | lightway-expresslane/src/session.rs:388-390 | a fresh packet in a run without a valid install gets KeyNotSet |
| SessionRuns.NeitherKeyOpens | lightway-expresslane/src/session.rs:401-417 | a fresh packet that neither key opens gets InvalidData |
| SessionRuns.DeliveredThenReplayed | lightway-expresslane/src/session.rs:352-357 | once a packet was delivered, every later packet with its counter gets Replayed in every run, whatever else it holds |
| SessionRuns.TooOldThenReplayed | lightway-expresslane/src/session.rs:352-357 | so does every later packet 8192 or more counters below a delivered one |
| SessionRuns.RefusalsLeaveNoTrace | lightway-expresslane/src/session.rs:318-332 | putting any refused packets and keys anywhere into a run, or taking them out, changes no other answer, errors included, no delivery and no state |
| SessionRuns.PeerSlotsAreLastTwo | lightway-expresslane/src/session.rs:249-264 | after any run the peer slots are the last two valid installs |
| SessionRuns.StagedKey | lightway-expresslane/src/session.rs:143-157 | the staged key is the last valid one staged since the last promote |
| SessionRuns.SendKey | lightway-expresslane/src/session.rs:159-169 | the send key is the key staged last before the last promote that found one |
| SessionRuns.Handle | lightway-expresslane/src/session.rs:255-437 | one event on a session object is one step of the receiver run, with its answer |
| SessionRuns.ReceiveAll | lightway-expresslane/src/session.rs:255-437 | a session object driven through any events ends in the run's state, with the run's answers and the number of its deliveries |
| SessionRuns.RotateAll | lightway-expresslane/src/session.rs:150-169 | a session object driven through any rotations holds the run's keys |
| EndToEnd.StepKeepsAuthentic | lightway-expresslane/src/session.rs:333-437 | one send, rotation or received packet keeps every arrival authentic |
| EndToEnd.EveryArrivalAuthentic | lightway-expresslane/src/session.rs:195-241 | in every run over any network every decryption is an earlier encryption with the same plaintext, session, counter and iv, and flags under Version2 |
| EndToEnd.ArrivalsHaveOwnSources | lightway-expresslane/src/session.rs:333-437 | from the start, each arrival has a source and no two arrivals share one |
| EndToEnd.SendingArrives | lightway-expresslane/src/session.rs:370-400 | a sent packet whose key and counter are still good is delivered when presented, for any two versions that bind alike |
| EndToEnd.SendOne | lightway-expresslane/src/session.rs:195-241 | an encryption call writes the packet of exactly the sending it is logged as |
| EndToEnd.Drive | lightway-expresslane/src/session.rs:195-437 | two session objects driven through any sends, rotations and deliveries make exactly the world of the run, each packet written is that of its sending, and both packet counts are right |
| EndToEnd.DriveReserved | lightway-expresslane/src/session.rs:128-134 | with every counter reserved from the sending object, they make the world of the run in which the k-th send is on counter k mod 2^64 |
| EndToEnd.ReservedCountersDiffer | lightway-expresslane/src/session.rs:120-134 | in such a run of up to 2^64 sends no two packets share a counter |
| EndToEnd.ExactlyOneSource | lightway-expresslane/src/session.rs:195-437 | and every arrival comes from exactly one sending, made before it |
| SessionThreads.RunKeepsInv | lightway-expresslane/src/session.rs:40-86 | under every interleaving: locks match program points, flags trail keys, the k-th reservation is k mod 2^64, each packet has one key, answers never fall back |
| SessionThreads.EmissionEffects | lightway-expresslane/src/session.rs:212-232 | a packet leaves sealed wholly under the key that is active as it leaves |
| SessionThreads.ReservationsDistinct | lightway-expresslane/src/session.rs:120-134 | the first 2^64 reservations of any run are pairwise distinct |
| SessionThreads.SomeCallCanMove | lightway-expresslane/src/session.rs:159-169 | the lock order never deadlocks |
| SessionThreads.TrueAnswerMeansKeys | lightway-expresslane/src/session.rs:266-307 | after a true answer both keys are present for good and every later answer is true |
| SessionKeys.RunKeepsKeys | lightway-expresslane/src/session.rs:143-169 | under every interleaving the send slots are those of the stages and promotes in store order, the peer slots the last two installs, and a key without its flag exists only inside the rotation about to raise it |
| SessionKeys.QuietAnswers | lightway-expresslane/src/session.rs:266-307 | whenever no rotation is in progress the slots are exact, the flags say exactly which keys are there, and a query answers exactly that |
| SessionKeys.SoloCall | lightway-expresslane/src/session.rs:128-307 | a call that runs alone does what the sequential call does |
| SessionKeys.AloneIsRun | lightway-expresslane/src/session.rs:40-61 | steps taken alone are steps of an interleaved run |
| SessionKeys.BlockedExactly | lightway-expresslane/src/session.rs:51-61 | a call cannot move exactly while another thread holds what it needs; encryptors never wait for one another |
| Timers.EarliestDeadline | src/cffi_state.rs:50-58 | none exactly when nothing is outstanding, otherwise the minimum of all outstanding deadlines |
| Timers.DurationToTimeoutMs | src/cffi_state.rs:61-73 | rounds up within a millisecond, 0 only for 0, capped at the 32-bit maximum |
| Timers.DeadlineToTimeoutMs | src/cffi_state.rs:75-81 | never 0, never a whole millisecond late, and never early: a deadline beyond the 32-bit maximum gets that maximum, every other is waited for in full |
| Timers.NudgeMsUntil | src/lib.rs:1783-1787 | 0 exactly when there is no deadline |
| Ticks.PartitionConserves | src/lib.rs:1947-1950 | due and remaining ticks together are the pending ones, split by deadline |
| Ticks.PartitionKeepsOrder | src/lib.rs:1947-1950 | both parts keep the order in which the ticks were scheduled |
| Ticks.DispatchConserves | src/lib.rs:1927-1950 | handing over due ticks keeps scheduled equal to dispatched plus pending plus lost, wherever it stops |
| Ticks.StoppingLosesTicks | src/lib.rs:1945-1958 | nothing is lost if and only if it stops at the last due tick |
| Ticks.AppState.ScheduleTick | src/cffi_state.rs:112-155 | connection ticks merge to the minimum, payload ticks are all kept, and the host's timer then fires for the earliest outstanding deadline: not late for any, not early for that one |
| Clients.Client.FatalDisconnect | src/lib.rs:164-190 | drops the connection with at most one DISCONNECTED |
| Clients.Client.HandleTickError | src/lib.rs:1789-1815 | timeout and fatal errors clear the timer and tear down; other errors change nothing |
| Clients.Client.RetryAfterError | src/lib.rs:1817-1840 | re-arms exactly for nonfatal errors while the core is Connecting, LinkUp or Authenticating, and arms nothing otherwise |
| Clients.Client.TickConnection | src/lib.rs:1862-1909 | a connection tick goes out if and only if one is armed and due by the clock, at the minimum of the deadlines asked for since the last; a nonfatal failure before Online leaves one armed |
| Clients.Client.DispatchAll | src/lib.rs:1951-1959 | due ticks go out in order with their own type until one fails fatally or panics; the rest is lost; connection ticks asked for stay asked for |
| Clients.Client.DispatchDue | src/lib.rs:1927-1961 | unless cut short, exactly the due ticks are dispatched; those not due and all successors stay pending, connection ticks stay asked for, and the balance is kept on every path |
| Clients.Client.CoreTick | src/lib.rs:1893 | the core receives a tick only when it is due by the clock, with its own type |
| Clients.Client.Nudge | src/lib.rs:1862-1979 | the whole effect on all ticks on every path: an armed connection tick goes out once if due by the clock and stays asked for otherwise; on success exactly the due payload ticks go out, at a time read in this call; a panic loses exactly the due ticks behind it; without one the published timer is 0 exactly when nothing is outstanding or the connection is gone |
| Clients.Client.Connect | src/lib.rs:405-601 | never replaces a live connection; otherwise one CONNECTING step |
| Clients.Client.Disconnect | src/lib.rs:620-657 | calls the core once if it is there, ends without a connection unless the core panics, and makes up for the callbacks the core did not make |
| Clients.Client.OutsideData | src/lib.rs:1702-1730 | a fatal wire error tears down; any other result, a panic too, keeps the connection and all its ticks |
| Clients.NoTickLost | src/lib.rs:1927-1964 | a payload tick once pending has gone out since, is still pending, or was lost to a panic since |
| Clients.AnyCalls | src/lib.rs:405-657 | any calls in any order: between calls ticks are conserved and went out on time, over the life of a connection nothing scheduled or sent is forgotten and a connection tick stays asked for until one goes out, without panics nothing is lost, only a goodbye or a fatal error ends that life, and the callbacks are those of a lifecycle run |
| Lifecycle.NotifyTracks | src/lib.rs:164-190 | one callback keeps the trace in order unless it is a second DISCONNECTED, which breaks it |
| Lifecycle.StateToCIsNumeric | src/cffi_event.rs:106-119 | core states map to the C states of the same number, and no two to one |
| Lifecycle.FatalIsExact | src/lib.rs:164-190 | a fatal error ends without a connection and in DISCONNECTED, and repeats that callback exactly when one stands reported that the cached state no longer shows |
| Lifecycle.GoodbyeIsExact | src/lib.rs:634-655 | a goodbye ends without a connection, adds DISCONNECTING and DISCONNECTED exactly when the core reported neither last, and repeats DISCONNECTED only if one stood reported |
| Lifecycle.StepIsExact | src/lib.rs:584-657 | one call keeps at most one DISCONNECTED per attempt if and only if it fits, and breaks it otherwise |
| Lifecycle.OneDisconnectPerAttempt | src/lib.rs:584-657 | over every run of calls, at most one DISCONNECTED per attempt if and only if every call fits |
| Lifecycle.ConnectAlwaysReports | src/lib.rs:584-598 | in every run, whatever the core reports, a dead connection is never shown as up and the guard on the CONNECTING callback never suppresses it |
| Lifecycle.SafeIsExact | src/cffi_event.rs:37-51 | whatever C calls next and whether or not those calls fail fatally, a core that reports nothing more cannot break the trace, if and only if a live connection reported as disconnected shows it |
| Lifecycle.OrderlyIsExact | src/cffi_event.rs:37-51 | a run is orderly if and only if after every one of its calls that is so |
| Lifecycle.LastWordIsOrderly | src/cffi_event.rs:37-51 | if on each connection the core reports nothing after Disconnected, every run is orderly and has at most one DISCONNECTED per attempt |
| Lifecycle.ReportingOnceIsNotEnough | src/lib.rs:170-190 | a run in which the core reports Disconnected once and C sees two |
| ClientLock.RunKeepsInv | src/lib.rs:79-120 | under every interleaving mutex and token match what each thread is doing |
| ClientLock.MutualExclusion | src/lib.rs:79-120 | at most one call is in a body on a client |
| ClientLock.RefusedExactlyWhenHeld | src/lib.rs:104-107 | a call is turned away if and only if its own thread holds the client, and then at once |
| ClientLock.NeverWaitsForItself | src/lib.rs:81-86 | a blocked thread waits for another thread |
| ClientLock.BlockedExactlyWhenHeld | src/lib.rs:109 | a thread at the mutex is blocked exactly while another thread holds the client |
| Deadlock.StuckHasCycle | src/lib.rs:109 | if no call in progress can go on, at least two threads wait for one another in a cycle |
| Deadlock.SomeThreadCanMove | src/lib.rs:109 | without such a cycle some call in progress can go on |
| Deadlock.CycleNests | src/lib.rs:79-120 | everyone in a cycle waits for one client from inside a body on another |
| Deadlock.CycleStays | src/lib.rs:109 | a cycle is for good, whatever the scheduler does |
| Deadlock.TwoClientsCanDeadlock | src/lib.rs:104-109 | a run of two threads on two clients that ends in a cycle: only calls on a client the thread itself holds are turned away |
| Deadlock.OneClientNeverDeadlocks | src/lib.rs:109 | with one client some call in progress can always go on |
| ClientLock.LeavingClearsToken | src/lib.rs:70-77 | the token is cleared while the mutex is still held, after a panic too, so the next call is not taken for a nested one |

## Left out

- AES-GCM itself, key schedules and nonce uniqueness: the cipher is abstract; `Cipher::new` is given 32 bytes and cannot fail, so its error branch is absent.
- The core (`Connection`, its TLS state, `is_fatal`): replaced by arbitrary behaviour.
- Reordering effects of relaxed atomics: every load and store is one interleaved step.
- Clients.Client.Connect: validation and building are one `problem` parameter, and the core is taken to report no state while a connection is built.
- Clients.Client.NotifyState: a state-change callback is taken to be registered throughout; registering one in the middle of a connection is not modelled.
- Clients.Client.RunCore: a panic of the core leaves its own state arbitrary but usable; panics in the interface code itself and in C callbacks are not modelled.
- Clients.Client.Now: instants are unbounded, so the panic of adding a huge duration to an instant does not occur.
- ClientLock.MutualExclusion: thread tokens are unbounded, so their wrap after 2^64 threads is not modelled.
- Sessions.ExpresslaneSession.Encrypt: the object is used by one thread at a time; interleaving is in `SessionThreads`, where a packet is a list of the keys its pieces were sealed under.
- Data from the inside, key-rotation polling and connection-info snapshots: they add no teardown path and no new property.
- Setters, getters, null checks, return-code names, the callback bridges, `lightway-expresslane-cffi` and the benchmark: one-branch facts, plumbing and measurement.
