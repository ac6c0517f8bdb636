# Verification of the platform's stateful core

Dafny models, with proofs, of the parts of the platform whose behaviour over time is not visible in any
single function: limiters, lockouts and budgets, the relay gate, the membership indexes, the leaderboard,
the calendar printer, the link splitter, the tile and floor geometry, and the key rotation pass.

`dafny verify dfyconfig.toml` checks everything.

## How the models are built

Objects that the program updates in place are classes with the same fields. Their methods carry the
program's loops and branches and are proved equal to step functions (`AfterFailure`, `Take`, `AfterAdmit`,
`AfterEvaluate`, `AfterAllow`, `AfterClient`, ...). A companion module then proves, about those functions,
what holds over whole runs: each run carries a log that is never pruned, and the pruned, evicted, swept or
indexed state is shown to answer exactly as that log does.

| component | step by step | over runs and inputs |
|---|---|---|
| login lockout | `LoginLockout` | `LockoutHistory` |
| link poll bucket | `LinkPoll` | `LinkPollHistory`, `LinkPollDevices` |
| connection and message limits | `GateLimits` | `GateLimitsHistory` |
| read directory and write lists | `ReadPolicy`, `Directory` | `MembershipIndexes`, `ReadYourWrites` |
| write policy | `WritePolicy` | `WritePolicyHistory`, `WritePolicyMeaning` |
| gift-wrap budget | `GiftBudget`, `GiftKeys` | `GiftBudgetHistory` |
| gate session | `GateSession` | `GateSessionHistory`, `GateBudget` |
| reload loop | `ReloadLoop` | `ReloadLoop`, `ReloadProgress` |
| leaderboard | `Leaderboard` | `LeaderboardMeaning`, `LeaderboardReading` |
| link splitter | `Linkify` | `Linkify` |
| calendar feed | `Calendar` | `CalendarReading` |
| map tiles and floors | `Tiles`, `Histogram`, `Floors` | the same |
| encryption and key rotation | `Crypto`, `Rewrap` | `RewrapRuns`, `RewrapRows` |

`SlidingWindow`, `Text`, `Net` and `Wrappers` are shared. Time is a whole number of nanoseconds, or of
milliseconds for the reload loop, that does not decrease within a run; a locked method is one atomic step; the order in which a hash map is visited, and
the entry it happens to give up, are arbitrary choices, so every theorem holds for all of them. An
authenticated cipher is ideal: a ciphertext opens under exactly the key, nonce and associated data it was
sealed with.

## What the proofs found

- A poll bucket is never stored full, so the `retain` of a full poll map drops nothing and an arbitrary
  address is evicted instead (`LinkPollHistory.RetainKeepsAll`). After an idle time of 2^32 seconds the
  32-bit cast of the refill can leave too few cells, and conforming polls are refused, then or later:
  `LinkPollHistory.RuleHoldsIff` says exactly when and `LinkPollHistory.LongIdleRefuses` is such a run. The
  cast never admits too much, so the rate bound holds in every run.
- Each admitted poll drops up to a millisecond of refill, so on a clock finer than that a client that keeps to one
  poll a second can be refused (`LinkPollHistory.PlainRateMayBeRefused`); at 1001 ms a poll it is not.
- The two membership indexes agree on tidy rows. They are compared after trimming and lower-casing, while the
  tables keep the stored columns unique, and ids that differ only in padding do make them differ
  (`MembershipIndexes.StoredUniquenessIsNotEnough`); so do blank ids and padded keys
  (`MembershipIndexes.IndexesRelate`).
- The write side takes the first `h` value, the read side the first that is not blank. An author can read
  back an accepted event exactly when the latter names a channel of theirs that has a team
  (`ReadYourWrites.AcceptedIsReadableIff`); a blank first value may prevent that and need not.
- A gift wrap that names a recipient several times can overshoot that pair's limit
  (`GiftBudgetHistory.ChargesAfterExactly`); with distinct recipients the limit holds.
- When the loop takes its steps as they are due, a reload comes within 2 s of a signal, or of the end of a
  reload under way, unless signals keep coming: it is put off exactly as long as no two of them are more than 500 ms apart
  (`ReloadProgress.EverySignalIsServed`, `ReloadProgress.PostponedIff`). When the timer has run out and a
  signal is queued, the random choice of `select!` may let the signal miss the reload that starts
  (`ReloadProgress.TimerMayWin`). A channel closed during a burst loses exactly the signals
  since the last reload (`ReloadLoop.LostExactly`).
- The leaderboard totals are independent of row order if and only if each member has one display name; with
  two, the first name stays (`LeaderboardMeaning.OrderFreeIff`).
- The tile shift overflows exactly when the top zoom is 32 or more (`Tiles.GenerateTilePyramid`): when it is
  given so, or when it is computed and the image is more than 2^31 tiles long (`Tiles.ShiftOverflowsIff`).
- A legacy blob already at the current key version is skipped by the rotation and still does not open in
  strict mode afterwards (`RewrapRuns.StrictAfterOk`).

## Model

| member | source | states |
|---|---|---|
| LoginLockout.RetrySecs | crates/site-server/src/login_lockout.rs:200-207 | the reported wait is the duration rounded up to whole seconds and never zero |
| LoginLockout.TierTable | crates/site-server/src/login_lockout.rs:58-71 | the tier search yields 30 s from 5 failures, 120 s from 8, 900 s from 12, and nothing below 5 |
| LoginLockout.LoginLockout.RetryAfterAt | crates/site-server/src/login_lockout.rs:109-113 | an answer exactly when the user is locked out, and then the whole seconds, rounded up, to the end of the lock |
| LoginLockout.LoginLockout.RecordFailureAt | crates/site-server/src/login_lockout.rs:115-145 | the whole new map: unchanged during a lock, else room is made (idle records first, then a least valuable one, only when the map is full) and the failure is counted; the answer is what a query would now report, and what is evicted is a permitted choice |
| LoginLockout.LoginLockout.FindLock | crates/site-server/src/login_lockout.rs:133-137 | the scan from the last tier finds the highest tier reached |
| LoginLockout.LoginLockout.EvictLeastValuable | crates/site-server/src/login_lockout.rs:175-184 | the one record removed has a least rank (unlocked first, then fewest failures in the window, then the oldest), whatever the map's iteration order |
| LockoutHistory.LockMatchesLog | crates/site-server/src/login_lockout.rs:109-164 | in every run the pruned, evicting map locks a user exactly when the complete log of counted failures does, until the same instant, and holds at most 8192 entries |
| LockoutHistory.AnswerMatchesLog | crates/site-server/src/login_lockout.rs:109-113 | in every run a query answers exactly while the log's lock runs, with the whole seconds left of it rounded up |
| LockoutHistory.SuccessEndsTheBackoff | crates/site-server/src/login_lockout.rs:104-107 | a correct password ends the backoff at once: in every run the user is not locked out again before five further failures, however many came before |
| LockoutHistory.LockIsTierOfLog | crates/site-server/src/login_lockout.rs:128-144 | the lock a counted failure starts is the tier of the log's failures in the last 30 minutes |
| LockoutHistory.ActiveLockSurvives | crates/site-server/src/login_lockout.rs:38-48 | a failure of another user ends an active lock only when all 8192 records are locked and this one is the victim |
| LockoutHistory.EvictedExactly | crates/site-server/src/login_lockout.rs:175-198 | in every run, whom an eviction takes, by the complete log: an account that is not locked before any that is; then fewest failures in the last half hour; then the oldest of them |
| LockoutHistory.AttemptDuringLockIsIgnored | crates/site-server/src/login_lockout.rs:117-121 | an attempt during a lock changes neither the deadline nor the window |
| LockoutHistory.LogIsComplete | crates/site-server/src/login_lockout.rs:115-145 | for a user never reset and never evicted the log holds every counted failure of the run |
| LockoutHistory.AtMostThirteenPerHalfHour | crates/site-server/src/login_lockout.rs:58-145 | for such a user any span shorter than 30 minutes holds at most 13 counted checks, in every run |
| LockoutHistory.FourteenTakeHalfAnHour | crates/site-server/src/login_lockout.rs:58-145 | fourteen consecutive counted failures take at least 30 minutes |
| LockoutHistory.LongRunRate | crates/site-server/src/login_lockout.rs:58-145 | a span of n half hours holds at most 13 n counted checks |
| LockoutHistory.SpacedLogsHappen | crates/site-server/src/login_lockout.rs:115-145 | completeness of the bound's description: every sequence of instants that waits out each lock is the counted log of a real run |
| LockoutHistory.ThirteenHappen | crates/site-server/src/login_lockout.rs:58-145 | the bound is tight: a run with 13 counted checks in under 30 minutes |
| LockoutHistory.FewUsersStay | crates/site-server/src/login_lockout.rs:38-49 | no account is evicted in a run with at most 8192 users |
| LockoutHistory.FewUsersNeverForgotten | crates/site-server/src/login_lockout.rs:38-49 | so with that few users the bounds hold for every user for whom no correct password comes |
| LinkPoll.CastIsHarmlessIff | crates/site-server/src/link_poll.rs:128-135 | the exact condition under which the 32-bit cast of the refilled cells changes nothing |
| LinkPoll.CastRefusesAfterLongIdle | crates/site-server/src/link_poll.rs:133-143 | a concrete idle time of 2^32 s after which the cast makes an empty bucket refuse |
| LinkPoll.RefusalIsOneSecond | crates/site-server/src/link_poll.rs:140-143 | every refusal asks for exactly one second and leaves the bucket as it was |
| LinkPoll.LinkPollGate.TakeAt | crates/site-server/src/link_poll.rs:112-147 | answer and whole new map of one poll, eviction of an arbitrary entry of a full map included |
| LinkPollHistory.AdmittedIffCounted | crates/site-server/src/link_poll.rs:112-147 | in every run, whatever the idle times, a poll is admitted if and only if the log holds a whole cell when each refill is counted as the code does, the 32-bit cast included; an admitted poll conforms to the rule, a refused one changes nothing; at most 4096 entries |
| LinkPollHistory.AdmittedIffConforms | crates/site-server/src/link_poll.rs:112-147 | on any nondecreasing nanosecond clock, when the admitted polls of an address never lie 2^32 - 1 seconds apart, a poll is admitted if and only if it conforms to the log of the earlier admitted ones |
| LinkPollHistory.RuleHoldsIff | crates/site-server/src/link_poll.rs:133-147 | in every run, admission and the rule differ at a poll exactly when the log holds a cell in full but none as counted |
| LinkPollHistory.LongIdleRefuses | crates/site-server/src/link_poll.rs:133-143 | a concrete run: a burst, a poll 2^32 + 1 s later on the one cell the cast leaves, and a conforming poll refused at that same instant |
| LinkPollHistory.AdmittedOnWholeClock | crates/site-server/src/link_poll.rs:112-147 | on a whole-millisecond clock with those gaps poll k is admitted iff 1000 (k - i + 1) <= 30000 + (now - a_i) for every earlier admitted a_i |
| LinkPollHistory.RateIsBounded | crates/site-server/src/link_poll.rs:18-21 | in every run, whatever the idle times, no stretch of admitted polls of an address that is not evicted exceeds the burst plus one a second |
| LinkPollHistory.NeverRefusedIff | crates/site-server/src/link_poll.rs:112-147 | in every run on any nanosecond clock, whatever other addresses do, such an address is never refused if and only if each of its polls conforms to all before it |
| LinkPollHistory.RetainKeepsAll | crates/site-server/src/link_poll.rs:114-123 | in every run the retain of a full map drops nothing, since every stored bucket has been spent from; so a full map always loses an arbitrary entry |
| LinkPollHistory.WithinRateIsNeverRefused | crates/site-server/src/link_poll.rs:112-147 | in every run on any nanosecond clock: an address that is not evicted and stays idle under 2^32 - 1 s is never refused when each stretch of more than 30 polls takes the refill it needs and 1 ms for each poll but the first |
| LinkPollHistory.PlainRateOnWholeClock | crates/site-server/src/link_poll.rs:112-147 | on a whole-millisecond clock it is never refused if and only if it keeps to the burst plus one poll a second |
| LinkPollHistory.PlainRateMayBeRefused | crates/site-server/src/link_poll.rs:128-145 | on a finer clock that is not enough: thirty polls at 0, one at 1000.9 ms that is admitted, one at 2000 ms that is refused |
| LinkPollHistory.FewAddressesStay | crates/site-server/src/link_poll.rs:112-123 | no address is evicted in a run with at most 4096 of them |
| LinkPollDevices.SteadyDevicesStayWithinRate | crates/site-server/src/link_poll.rs:1-10 | on any nanosecond clock up to 29 devices on one address, each polling at most once in 1001 ms for each device, stay within that rate in any phases and any interleaving |
| LinkPollDevices.SteadyDevicesAreNeverRefused | crates/site-server/src/link_poll.rs:1-10 | so in every run in which the address is not evicted none of their polls is refused; three devices every five seconds are such devices |
| LinkPollDevices.SteadyDevicesOnWholeClock | crates/site-server/src/link_poll.rs:1-10 | on a whole-millisecond clock the same for up to 30 devices at one poll a second together |
| GateLimits.GateLimits.Prune | crates/relay-policy/src/limits.rs:36-51 | popping the stale front of both queues |
| GateLimits.GateLimits.TryAdmit | crates/relay-policy/src/limits.rs:151-177 | answer and whole new map of a connection attempt; the attempt is stamped even when refused |
| GateLimits.GateLimits.AllowMessage | crates/relay-policy/src/limits.rs:179-199 | answer and whole new map of a message |
| GateLimits.GateLimits.DropSlot | crates/relay-policy/src/limits.rs:79-95 | dropping an admission gives its slot back and removes the bucket when idle |
| GateLimits.PopStaleIsRecent | crates/relay-policy/src/limits.rs:36-51 | on an ordered queue popping from the front keeps exactly the stamps of the closed window |
| GateLimitsHistory.AnswersMatchLog | crates/relay-policy/src/limits.rs:151-199 | in every interleaving of admits, drops and messages each answer is the one the never-pruned logs call for |
| GateLimitsHistory.ConnectionsAreLiveSlots | crates/relay-policy/src/limits.rs:79-95 | the counter equals the live admissions and stays within its cap, and a live slot always finds a positive counter, so the saturating subtraction never saturates |
| GateLimitsHistory.LiveIsAdmitsLessDrops | crates/relay-policy/src/limits.rs:74-95 | live admissions are the admitted attempts less the drops of the run |
| GateLimitsHistory.DropLeavesNoIdle | crates/relay-policy/src/limits.rs:79-95 | in every run a drop leaves a bucket exactly when a connection or a stamp in the window remains |
| GateLimitsHistory.AdmittedWithinCap | crates/relay-policy/src/limits.rs:151-177 | no closed window holds more admitted connections than the cap |
| GateLimitsHistory.MessagesWithinCap | crates/relay-policy/src/limits.rs:179-199 | no closed window holds more allowed messages than the cap |
| ReadPolicy.FromParts | crates/relay-policy/src/read_policy.rs:58-76 | keys are canonical, malformed keys and blank ids are left out, later entries win |
| ReadPolicy.PartsAreKeyed | crates/relay-policy/src/read_policy.rs:58-76 | every reader of a built directory is filed under its own key, 64 hexadecimal digits in lower case |
| ReadPolicy.FirstTagIsFirst | crates/relay-policy/src/read_policy.rs:123-147 | the lookup finds the first non-blank value of a tag name, and finds one exactly when there is one |
| Text.HexExactly | crates/relay-policy/src/read_policy.rs:64-68 | a key is 64 characters of 0-9, a-f and A-F |
| Text.LowerExactly | crates/relay-policy/src/read_policy.rs:64-68 | lowering a key moves capital letters 32 places on and leaves all else |
| Text.TrimCutsSpace | crates/relay-policy/src/read_policy.rs:134-149 | trimming cuts white space at both ends and nothing else |
| ReadPolicy.DeliveredExactly | crates/relay-policy/src/read_policy.rs:200-255 | for any directory, key and event: it may be received if and only if the reader is known and, for a gift wrap, some `p` tag has the reader's key as its value; for all else the first tag of the kind's name that is not blank names a group of the reader's team, with the officer rule |
| ReadPolicy.WithheldExactly | crates/relay-policy/src/read_policy.rs:214-255 | why an event is withheld from a member: no group named, a group that is not known, not on its team, or no officer of it |
| ReadPolicy.WrapsReachTheirRecipients | crates/relay-policy/src/read_policy.rs:149-152 | a gift wrap reaches exactly the members that some `p` tag names; one that names only other keys is refused, with which reason |
| Directory.LoadReadDirectory | crates/relay-policy/src/directory.rs:22-56 | the loop's directory is a function of the row lists, in both orders of iteration it uses |
| Directory.LoadGroupWriters | crates/relay-policy/src/directory.rs:70-125 | the loop's writer sets are a function of the row lists |
| MembershipIndexes.LastIsLast | crates/relay-policy/src/read_policy.rs:57-76 | what a later map entry replaces: the last row that fits is the one no later row fits |
| MembershipIndexes.AcceptsExactly | crates/relay-policy/src/directory.rs:22-56 | for all rows with distinct member ids and any group id, the member-first index accepts a key exactly when the last member with that key belongs to the last channel known under that id |
| MembershipIndexes.ListsExactly | crates/relay-policy/src/directory.rs:70-125 | for all rows with distinct member ids and any group id, the team-first index lists a key exactly when a member with that key belongs to the last active channel with that id as stored |
| MembershipIndexes.AcceptsMeaning | crates/relay-policy/src/directory.rs:22-56 | where keys and trimmed ids are unique: a key is accepted for a group id exactly when a member with that key belongs to a channel with that trimmed id and a team |
| MembershipIndexes.WritesMeaning | crates/relay-policy/src/directory.rs:70-125 | where keys and trimmed ids are unique: a key is listed for an active channel exactly when a member with that key belongs to it |
| MembershipIndexes.IndexesRelate | crates/relay-policy/src/directory.rs:22-125 | where keys and trimmed ids are unique the two indexes differ exactly on blank or untrimmed channel ids, blank team ids and padded keys |
| MembershipIndexes.IndexesAgree | crates/relay-policy/src/directory.rs:22-125 | on tidy rows (trimmed ids, non-empty team ids, unpadded keys) they are the same relation for every active channel |
| MembershipIndexes.StoredUniquenessIsNotEnough | crates/relay-policy/src/directory.rs:22-125 | with ids unique only as stored they can differ: two ids that differ in padding are one group to the read side |
| ReadYourWrites.SameTag | crates/relay-policy/src/policy.rs:310-322 | where the write side's first value is not blank the read side picks the same `h` tag |
| ReadYourWrites.AcceptedIsReadableExactly | crates/relay-policy/src/policy.rs:209-228 | the same for all rows with distinct member ids: the last member with the key and the last channel known under the id decide |
| ReadYourWrites.AcceptedIsReadableIff | crates/relay-policy/src/policy.rs:209-228 | where keys and trimmed ids are unique: every accepted group event is readable by its author if and only if its first `h` value that is not blank is the trimmed id of a channel that has a team and that the author belongs to |
| ReadYourWrites.NamedGroupIsReadableIff | crates/relay-policy/src/policy.rs:209-228 | so an accepted event whose group id is not blank is readable by its author if and only if its channel has a team |
| ReadYourWrites.BlankGroupIsNotReadable | crates/relay-policy/src/read_policy.rs:58-76 | a blank group id: an accepted event that its author cannot read back |
| ReadYourWrites.BlankGroupMayBeReadable | crates/relay-policy/src/read_policy.rs:133-147 | and one that its author can, by a later `h` tag |
| ReadYourWrites.AcceptedIsReadable | crates/relay-policy/src/read_policy.rs:200-255 | read your writes: on tidy rows every accepted group event is readable by its author |
| WritePolicy.PolicyEngine.Evaluate | crates/relay-policy/src/policy.rs:173-246 | decision and whole new bucket map of one event |
| WritePolicy.RecipientIsFirst | crates/relay-policy/src/policy.rs:160-171 | the recipient is the lower-cased value of the first `p` tag whose value is allowlisted, and there is none only where no `p` tag has one |
| WritePolicy.PolicyEngine.FindRecipient | crates/relay-policy/src/policy.rs:160-171 | the scan computes the recursive lookup that RecipientIsFirst describes |
| WritePolicy.PolicyEngine.FindGroupId | crates/relay-policy/src/policy.rs:310-322 | the scan finds the first `h` value |
| WritePolicy.PolicyEngine.PruneRateBucketsAt | crates/relay-policy/src/policy.rs:252-261 | every bucket keeps its stamps in the window, and empty ones go |
| WritePolicyHistory.AfterIsRecent | crates/relay-policy/src/policy.rs:108-113 | the two retention rules of the code keep the same stamps |
| WritePolicyHistory.DecisionMatchesLog | crates/relay-policy/src/policy.rs:173-246 | in every run each decision is the one the complete log calls for: accepted iff screened in and the attempts of its key in the window, rate-limited ones included, are within the limit; a refusal for kind, allowlist or group changes no bucket |
| WritePolicyHistory.AcceptedWithinLimit | crates/relay-policy/src/policy.rs:230-245 | no key has more than the limit accepted within a window |
| WritePolicyHistory.PrunesAreInvisible | crates/relay-policy/src/policy.rs:248-261 | sweeps inserted anywhere change no decision of the run |
| WritePolicyMeaning.AcceptedExactly | crates/relay-policy/src/policy.rs:173-246 | in every run, an event is accepted if and only if its kind is not 4 and is allowed; for 1059 some `p` value in lower case is on the allowlist, else its author is; with groups enforced its first `h` value, if any, names a group with its author among the writers, under the lists reloaded last; and the bucket it counts in has room for it among the run's attempts |
| WritePolicyMeaning.RefusedExactly | crates/relay-policy/src/policy.rs:173-246 | for each other reason exactly when it is given |
| WritePolicyMeaning.RefusedForGroupExactly | crates/relay-policy/src/policy.rs:215-229 | and exactly when a group is unknown, or does not list the author |
| WritePolicyMeaning.LogIsAttempts | crates/relay-policy/src/policy.rs:185-243 | which bucket an attempt counts in: the author's, or, for a gift wrap, that of the key proved to the relay, if well formed and else the author, with the first member its `p` tags name |
| WritePolicyMeaning.SweepExactly | crates/relay-policy/src/policy.rs:252-261 | a sweep keeps exactly the stamps younger than the window and no bucket without one |
| GiftKeys.GiftKeysAreDistinct | crates/relay-policy/src/policy.rs:283-293 | a gift key determines sender and recipient, and is no author's own key |
| GiftBudget.GiftBudget.Allow | crates/relay-policy/src/session.rs:70-106 | answer and whole new bucket map of one frame |
| GiftBudget.GiftBudget.SweepAt | crates/relay-policy/src/session.rs:112-120 | every bucket keeps its stamps in the window, and empty ones go |
| GiftBudgetHistory.AllOrNothing | crates/relay-policy/src/session.rs:70-106 | in every run a frame is allowed iff every pair of it has room in the complete log; then each pair is charged as often as the frame names it, else nothing changes |
| GiftBudgetHistory.ChargesWithinLimit | crates/relay-policy/src/session.rs:70-106 | with at most m mentions of a pair in a frame no window holds more than limit + m - 1 charges of a pair; with distinct recipients that is the limit |
| GiftBudgetHistory.ChargesAfterExactly | crates/relay-policy/src/session.rs:90-104 | after any allowed frame a pair has exactly as many charges in the window as before plus its mentions in the frame, so the limit is passed exactly when that sum exceeds it |
| GiftBudgetHistory.RepeatsOvershoot | crates/relay-policy/src/session.rs:90-104 | that happens: with room for one more, a frame that names a recipient m times is allowed and charges m |
| GiftBudgetHistory.NoWindowNoLimit | crates/relay-policy/src/session.rs:70-106 | with an empty window no charge counts: every frame is allowed unless the limit is zero |
| GiftBudgetHistory.SweepsAreInvisible | crates/relay-policy/src/session.rs:108-120 | sweeps inserted anywhere change no answer of the run |
| GiftBudgetHistory.SweepExactly | crates/relay-policy/src/session.rs:108-120 | a sweep keeps exactly the stamps younger than the window and no bucket without one |
| GateSession.RecipientPubkeys | crates/relay-policy/src/session.rs:130-156 | the recipients are the well-formed `p` values in order, canonical |
| GateSession.RecipientsAreKeys | crates/relay-policy/src/session.rs:130-156 | every recipient charged is a 64-digit hexadecimal key |
| GateSession.GateSession.OnClientText | crates/relay-policy/src/session.rs:189-239 | new session key, new budget and both outgoing lists of one client frame |
| GateSession.GateSession.GateEvent | crates/relay-policy/src/session.rs:241-283 | the publish checks in their order: signed in, member, not kind 4, budget |
| GateSession.GateSession.OnAuth | crates/relay-policy/src/session.rs:322-353 | a verified key replaces the session key; a failed one leaves it |
| GateSessionHistory.AuthedIsLatestProved | crates/relay-policy/src/session.rs:322-353 | in every run the session is signed in with exactly the key proved last on this challenge |
| GateSessionHistory.ForwardedExactly | crates/relay-policy/src/session.rs:189-320 | in every run with changing directories, exactly which client frames are forwarded: CLOSE; REQ after a proof; EVENT of a then-current member, not kind 4, within the budget |
| GateSessionHistory.CountAndSyncStayHere | crates/relay-policy/src/session.rs:216-226 | COUNT and negentropy frames are never forwarded |
| GateSessionHistory.RefusedExactly | crates/relay-policy/src/session.rs:241-283 | why a publish is refused: not by a member, a plain message, or over the budget, in this order, with its reply |
| GateSessionHistory.ClosedExactly | crates/relay-policy/src/session.rs:204-226 | exactly which subscriptions are closed, and with which reason: a REQ before a proof, every COUNT, every negentropy frame |
| GateSessionHistory.DeliveredFramesExactly | crates/relay-policy/src/session.rs:285-307 | at every step of every run, exactly which relay frames are delivered, unaltered: all but text that is no frame and the relay's own AUTH; of events those that the key proved last may receive under the directory of that moment, by the rule that ReadPolicy.DeliveredExactly states |
| GateSessionHistory.DeliveredWrapsExactly | crates/relay-policy/src/session.rs:285-307 | so a gift wrap is delivered if and only if some `p` tag names the member whose key was proved last |
| GateSessionHistory.ViewExactly | crates/relay-policy/src/read_policy.rs:100-121 | the read policy sees an event that has a key and a kind: that kind, the canonical key, the strings of its tags |
| GateSessionHistory.AnsweredOrForwarded | crates/relay-policy/src/session.rs:189-353 | in any state a known frame is forwarded or answered by one reply that names its subscription or event, never both; an acceptance only for a proof |
| GateSessionHistory.BudgetIsForWraps | crates/relay-policy/src/session.rs:262-282 | in any state the budget changes only for a gift wrap of a signed-in member that is forwarded |
| GateBudget.SharedBudget | crates/relay-policy/src/session.rs:30-41 | over any interleaving of connections and sweeps the shared budget runs as the one budget of all their wraps |
| GateBudget.ChargesAreForwardedWraps | crates/relay-policy/src/session.rs:268-282 | the budget's complete log of a sender and recipient is the log of the wraps forwarded for them, over all connections |
| GateBudget.WrapsWithinLimit | crates/relay-policy/src/session.rs:30-119 | however many connections a member has, no window holds more forwarded wraps from it to one recipient than the limit, when no frame names a recipient twice; with m mentions at most m - 1 more |
| GateBudget.NamedByTags | crates/relay-policy/src/session.rs:130-156 | a key is charged once for each `p` tag whose value it is, trimmed and in lower case, and never when it is not 64 hexadecimal digits |
| GateBudget.RecipientsExactly | crates/relay-policy/src/session.rs:130-156 | so it is charged if and only if it is such a key and some `p` tag names it |
| ReloadLoop.NoSignalIsLost | crates/relay-policy/src/directory.rs:202-235 | until the loop stops every sent signal is queued, or pending in the current burst, or followed by a reload that started after it was consumed, and exactly one of these |
| ReloadLoop.ServedExactly | crates/relay-policy/src/directory.rs:202-235 | in every run the consumed signals that had a reload after them are exactly those the last reload covers |
| ReloadProgress.EverySignalIsServed | crates/relay-policy/src/directory.rs:202-235 | every signal is served in time: from any moment of any run with the channel open, in every continuation without further signals in which due steps are taken, a signal sent before has its reload once 500 ms have passed and 2 s since the last reload, unless a reload is under way; with no reload under way and no signal queued behind an expired timer the first reload serves it, at most 2 s on |
| ReloadProgress.EverySignalCanBeServed | crates/relay-policy/src/directory.rs:202-235 | such continuations exist: the loop alone can have served every signal by then |
| ReloadProgress.OnlySteadySignalsPostpone | crates/relay-policy/src/directory.rs:208-231 | with further signals, in every run in which due steps are taken: a consumed signal waits longer than 2 s after the last reload only while no two signals since it were more than 500 ms apart and the last is at most 500 ms old |
| ReloadProgress.PostponedIff | crates/relay-policy/src/directory.rs:208-224 | a burst of more than 2 s can go without a reload if and only if no two of its signals are more than 500 ms apart |
| ReloadProgress.SteadySignalsPostpone | crates/relay-policy/src/directory.rs:208-224 | signals at any gaps of at most 500 ms are all consumed and reloaded for by none in some run, a gap of exactly 500 ms included |
| ReloadProgress.EitherMayWin | crates/relay-policy/src/directory.rs:213-224 | with the timer expired and a signal queued the select may take either: the signal puts the reload off, the timer, with no pause to come, starts a reload that misses the signal |
| ReloadProgress.TimerMayWin | crates/relay-policy/src/directory.rs:213-224 | a run in which the timer wins and a queued signal misses the reload |
| ReloadLoop.ReloadsAreSpaced | crates/relay-policy/src/directory.rs:225-234 | each reload starts at least 2 s after the one before ended, and 500 ms after the last signal of its burst |
| ReloadLoop.ReloadsNeverOutnumberSignals | crates/relay-policy/src/directory.rs:202-235 | each reload has a signal of its own |
| ReloadLoop.LostExactly | crates/relay-policy/src/directory.rs:208-219 | once the loop has stopped the channel is closed, every signal was consumed, and exactly those since the last reload are never served |
| ReloadLoop.ClosingDropsTheBurst | crates/relay-policy/src/directory.rs:216-219 | a run in which that loses a signal |
| Leaderboard.FromRows | crates/db/src/types.rs:645-666 | the lists hold, in any order, exactly the group-by of the played rows, per hero and over all heroes |
| Leaderboard.IntoValues | crates/db/src/types.rs:660-664 | listing a map in any order gives each value once |
| Leaderboard.Project | crates/db/src/types.rs:672-736 | the rows that qualify, in the metric's order, cut at the limit |
| Leaderboard.Sort | crates/db/src/types.rs:705-731 | a sorted permutation |
| LeaderboardMeaning.CountersAreCappedSums | crates/db/src/types.rs:834-847 | each counter is the true sum of the member's rows capped at 2^32 - 1, and a member is listed iff one of the rows is theirs |
| LeaderboardMeaning.GroupByPermutes | crates/db/src/types.rs:834-847 | with one name per member the totals do not depend on row order |
| LeaderboardMeaning.OrderFreeIff | crates/db/src/types.rs:834-847 | the totals are the same for every order of the rows if and only if each member has one display name |
| LeaderboardMeaning.BoardIsUnique | crates/db/src/types.rs:672-736 | two boards over the same members are the same list |
| LeaderboardMeaning.BoardIsStrict | crates/db/src/types.rs:705-731 | a board is strictly sorted under metric, tie break and member id |
| LeaderboardMeaning.RowOrderDoesNotMatter | crates/db/src/types.rs:645-736 | every permutation of the rows, through any hash map order, projects to the same list |
| LeaderboardMeaning.SmallerLimitIsPrefix | crates/db/src/types.rs:732-735 | a smaller limit gives the prefix of that length |
| LeaderboardMeaning.AllIsRollupOfHeroes | crates/db/src/types.rs:647-666 | each capped total over all heroes is the capped sum of the capped totals per hero |
| LeaderboardReading.LinesExactly | crates/db/src/types.rs:645-736 | read off the match rows: each line is of a member with games (five for a rate, and five that count for K/D), shows the capped sums, wins over games, eliminations over deaths or one, and the first name; a larger figure of the metric stands first, then a larger tie break, then the alphabetically smaller id |
| LeaderboardReading.NobodyIsPassedOver | crates/db/src/types.rs:645-736 | every member who qualifies is on the board, or the board is as long as the limit and each of its lines ranks before that member's figures |
| Linkify.HrefExactly | crates/app/src/util.rs:26-50 | a URL is linkable exactly when trimmed it has an http scheme and no white space, control or backslash; checking again changes nothing |
| Linkify.LinkifyHttpSpans | crates/app/src/util.rs:75-109 | lossless, no empty span, and the links are exactly the content's links, each at its place with its text; it ends on every input |
| Linkify.LinksExactly | crates/app/src/util.rs:75-131 | what a link is: a scheme boundary outside any earlier token whose text, less trailing punctuation, holds no control and no backslash |
| Linkify.TokenFacts | crates/app/src/util.rs:84-104 | a token keeps at least its scheme after trimming, and no other link starts inside it |
| Linkify.SchemeExactly | crates/app/src/util.rs:110-131 | a scheme is one of the two spellings in any case |
| Linkify.LinkMeaning | crates/app/src/util.rs:56-131 | character by character, what is a link and what its URL: a scheme not after a letter or digit, with a space since any earlier one, whose token less its last punctuation holds no control and no backslash |
| Calendar.Escape | crates/site-server/src/calendar.rs:169-190 | the loop computes the escaping function |
| Calendar.GenerateVevent | crates/site-server/src/calendar.rs:120-167 | the block is the rendering of the event's lines, and none for an event that has no place |
| Calendar.GenerateIcal | crates/site-server/src/calendar.rs:213-230 | the text is the rendering of the calendar's lines |
| CalendarReading.UnescapeUndoesEscape | crates/site-server/src/calendar.rs:169-190 | unescaping returns every text with line breaks normalised and other controls dropped (section 3.3.11 of RFC 5545) |
| CalendarReading.TzidIsName | crates/site-server/src/calendar.rs:200-211 | the printed zone keeps exactly the allowed characters, is the given one when all are allowed and UTC when none is; it is never empty and has no line break and no colon |
| CalendarReading.ClockExactly | crates/site-server/src/calendar.rs:61-79 | a clock is accepted iff it is two digits, a colon, two digits, in range |
| CalendarReading.InstantsExactly | crates/site-server/src/calendar.rs:101-118 | an event is placed iff its clock parses and its duration is positive and ends within 31 days, and DTEND minus DTSTART is exactly the duration |
| CalendarReading.StoredSchedulesArePrinted | crates/site-server/src/calendar.rs:81-99 | every schedule the API accepts is printed |
| CalendarReading.SplitUndoesRender | crates/site-server/src/calendar.rs:213-230 | splitting on CRLF yields exactly the lines printed: no value starts a line (section 3.1 of RFC 5545) |
| CalendarReading.ReadUndoesPrint | crates/site-server/src/calendar.rs:120-230 | reading the printed calendar back gives the name and, for exactly the placeable events in order, uid, zone, start and end, title, weekday if weekly, and team |
| CalendarReading.PrintsAlikeIff | crates/site-server/src/calendar.rs:120-230 | what printing loses: two calendars print alike if and only if those views and the names agree |
| CalendarReading.SingleWeekdayIsLost | crates/site-server/src/calendar.rs:120-167 | the weekday of an event that does not recur is lost; all events start on 1 January |
| CalendarReading.WeekdaysExactly | crates/site-server/src/calendar.rs:7-18 | day 0 is Monday, day 6 Sunday, and what is no day is printed as Monday |
| CalendarReading.StripOne | crates/site-server/src/calendar.rs:192-198 | exactly the controls and the line and paragraph separators are dropped from an id |
| CalendarReading.StripJoins | crates/site-server/src/calendar.rs:192-198 | character by character |
| CalendarReading.UidExactly | crates/site-server/src/calendar.rs:120-167 | a uid names the id of the event and the host, as they stand when they hold no such character |
| Tiles.GenerateZoomLevel | crates/map-pipeline/src/tiles.rs:68-130 | a tile is written for every column and row, with its crop; none is skipped as empty |
| Tiles.GenerateTilePyramid | crates/map-pipeline/src/tiles.rs:39-66 | for a given or a computed top zoom: a shift overflows if and only if the top zoom is 32 or more, and otherwise every level from 0 to the top is generated |
| Tiles.CropsPartition | crates/map-pipeline/src/tiles.rs:68-118 | every pixel of the image, halved once for each level below the top and rounded down to at least one, lies in exactly one crop; no crop is empty or reaches outside, and nothing exceeds 32 bits |
| Tiles.AreasAddUp | crates/map-pipeline/src/tiles.rs:68-118 | the areas of the crops add up to the scaled image |
| Tiles.MaxZoomIsLeast | crates/map-pipeline/src/tiles.rs:25-32 | the top zoom is the least z with the larger side at most tile size times 2^z |
| Tiles.LowestZoomIsOneTile | crates/map-pipeline/src/tiles.rs:7-32 | with the computed top zoom zoom 0 is one tile |
| Tiles.LowestIsOneTileIff | crates/map-pipeline/src/tiles.rs:7-23 | for any top zoom under 32 zoom 0 is one tile if and only if the larger side is under (tile size + 1) times 2^top |
| Tiles.ShiftOverflowsIff | crates/map-pipeline/src/tiles.rs:7-32 | for the computed top zoom the shift overflows exactly when the larger side exceeds 2^31 tiles |
| Histogram.Extremes | crates/map-pipeline/src/histogram.rs:11-18 | least and greatest value |
| Histogram.BuildHistogram | crates/map-pipeline/src/histogram.rs:3-35 | each count is the weight between its edges, the first edge is the least value, and the last bin is the first that starts at or above the greatest |
| Histogram.BinIsInRange | crates/map-pipeline/src/histogram.rs:28-32 | the clamp of the bin never fires |
| Histogram.WeightIsConserved | crates/map-pipeline/src/histogram.rs:20-34 | the counts add up to the total weight |
| Histogram.FindValleys | crates/map-pipeline/src/histogram.rs:85-104 | each valley is the first least value from one peak to the next |
| Floors.DetectFloors | crates/map-pipeline/src/floor_detect.rs:28-135 | from samples to floors: an error exactly when there are no samples or no peaks, else the floors of the histogram's own edges and peaks |
| Floors.BuildFloors | crates/map-pipeline/src/floor_detect.rs:69-126 | a floor per peak, bounded by the valleys, with the ground floor the only default |
| Floors.FindGround | crates/map-pipeline/src/floor_detect.rs:113-122 | the first floor of least distance from zero |
| Floors.FloorsChain | crates/map-pipeline/src/floor_detect.rs:69-111 | floors chain with no gap and no overlap from first to last edge |
| Floors.FloorsMeetAtValleys | crates/map-pipeline/src/floor_detect.rs:69-111 | two floors meet at the edge of the first bin of least signal between their peaks |
| Floors.PeakIsInside | crates/map-pipeline/src/floor_detect.rs:69-111 | each floor contains its own peak's edge |
| Floors.OneDefault | crates/map-pipeline/src/floor_detect.rs:112-126 | exactly one floor is the default, and it is the ground floor |
| Floors.DefaultIsNearest | crates/map-pipeline/src/floor_detect.rs:113-126 | no floor's middle is nearer to zero than the default's by a thousandth or more, and none below it is as near |
| Floors.EverySampleHasAFloor | crates/map-pipeline/src/floor_detect.rs:28-126 | every sample of the histogram is on exactly one floor |
| Crypto.PurposesAreSeparate | crates/auth/src/crypto.rs:60-75 | associated data of different purposes never coincide and are never empty |
| Crypto.FieldsAreNamed | crates/auth/src/crypto.rs:60-75 | within a purpose the associated data determines its fields, while the user id or gift wrap id holds no bar |
| Crypto.BarsCollide | crates/auth/src/crypto.rs:60-75 | with bars two users can share associated data |
| Crypto.FromKeyring | crates/auth/src/crypto.rs:135-170 | succeeds iff every key is well formed and none takes the current version; the first offence is reported; each version then has its last configured key |
| Crypto.ConfiguredExactly | crates/auth/src/crypto.rs:135-170 | the key of a version is the current one, or that of the last entry that names it |
| Crypto.OpensExactly | crates/auth/src/crypto.rs:286-335 | a blob opens to a text iff it was sealed with that version's key under this associated data, or under the empty one where that is allowed |
| Crypto.DecryptUndoesEncrypt | crates/auth/src/crypto.rs:244-335 | what was encrypted is decrypted by every keyring that still has the key, and strictly only under the same associated data |
| Crypto.RewrapKeepsPlaintext | crates/auth/src/crypto.rs:345-355 | a rewrapped blob has the current version and opens, in strict mode too, to what the old one held |
| Rewrap.Database.RewrapUsers | crates/db/src/rewrap.rs:75-141 | the rows, the statistics and the end of the pass over users, error or not |
| Rewrap.Database.RewrapMembers | crates/db/src/rewrap.rs:153-231 | the same for server-managed keys of members |
| Rewrap.Database.RewrapDmMessages | crates/db/src/rewrap.rs:242-317 | the same for encrypted messages |
| Rewrap.Database.RewrapAllEncryptedFields | crates/db/src/rewrap.rs:50-65 | the three passes in order, the first error ending the run and leaving later rows alone; only the encrypted fields are written |
| RewrapRuns.EveryPointKeepsPlaintexts | crates/db/src/rewrap.rs:75-317 | at every point of a pass each field opens to what it opened to before, and each changed one is current and opens strictly |
| RewrapRuns.RunKeepsPlaintexts | crates/db/src/rewrap.rs:50-317 | so for all fields of a whole run, ended or failed |
| RewrapRuns.AllCurrentAfterOk | crates/db/src/rewrap.rs:75-317 | on Ok every targeted field is at the current version |
| RewrapRuns.OldKeysCanGo | crates/db/src/rewrap.rs:50-317 | what a rotation is for: after Ok every targeted field opens with the current key alone to exactly what it held |
| RewrapRuns.StrictAfterOk | crates/db/src/rewrap.rs:75-317 | exactly which fields open strictly afterwards: legacy blobs already at the current version are skipped and stay legacy |
| RewrapRuns.StatsBalanceOnOk | crates/db/src/rewrap.rs:50-65 | on Ok scanned is rewrapped plus skipped, and is the number of targeted fields |
| RewrapRuns.SecondRunRewrapsNothing | crates/db/src/rewrap.rs:50-317 | a second run cannot fail, rewraps nothing and changes nothing |
| RewrapRuns.RepeatedRunResumes | crates/db/src/rewrap.rs:50-317 | a run repeated after an error leaves finished rows alone and finds the others as they were |
| RewrapRows.UsersKeepTexts | crates/db/src/rewrap.rs:75-141 | at every point of the pass each user row keeps its id, its provider and the text that opens under the associated data spelled from them; once dealt with it is at the current version |
| RewrapRows.MembersKeepTexts | crates/db/src/rewrap.rs:153-231 | the same for secret keys under the public key of their row; members the server does not manage stay as they are |
| RewrapRows.DmsKeepTexts | crates/db/src/rewrap.rs:242-317 | the same for messages under the gift wrap id and the conversation key of their row |
| RewrapRows.RotationKeepsTexts | crates/db/src/rewrap.rs:50-317 | in every rotation, ended or failed, no row of the three tables loses its text or what it is bound to |
| RewrapRows.RotationRenews | crates/db/src/rewrap.rs:50-317 | and on Ok each is at the current version |
| RewrapRows.RotationEndsOkIff | crates/db/src/rewrap.rs:50-317 | with every nonce drawn and every update taken, a rotation ends Ok if and only if it meets no field to reseal in a row without an id, no blob that is none, and no blob of an old version that does not open under its row's data |

## Left out

- Sockets, HTTP, WebSockets, database queries, LIVE streams (`watch_one`, `watch_writer_tables`), environment
  reading and logging: rows and frames are inputs, and updates are written by row position.
- JSON text: frames are datatypes with the fields that the gate looks at, a missing or mistyped field included,
  and an opaque rest for the verifier.
- The cipher, hashes and signatures: the cipher is ideal, `verify_auth` is a parameter, and a nonce or a
  database update may fail at any row.
- Mutex poisoning and threads inside a locked method; a wall clock that runs backwards between polls. The
  lockout, the poll bucket and the gift budget read the clock before they take their lock, so calls that race
  may come with instants out of order; runs assume that they do not.
- Floating point: the histogram and floors are over exact reals. Leaderboard rates are arbitrary functions of
  the counters into the reals, so any rounding is covered but NaN is not (the divisors are never zero).
- `gaussian_smooth` and the peak finder: any function that keeps the length, and any that gives rising
  positions inside the signal. The filter for walkable triangles is not modelled.
- Decoding, resizing, padding and encoding of images, the parallel order of tiles, and what an overflowing shift does in an optimised build.
- Strings are sequences of Unicode scalar values, not UTF-8 bytes; offsets into text count characters.
- Rust's sorts, `retain`, `filter` and `into_values` appear as the functions that they compute.
- Messages and refusal texts are constructors, not strings.
- Calendar line folding: the printer does not fold, so nothing is proved about long lines.
- `resolve_client_ip`, `reload_on_write_miss`, configuration defaults, `link_attempts`, `challenge_store` and
  `nostr_rate_limit`: simpler relatives of what is modelled.
- The user interface, the map canvas and the Blender and Bevy code: rendering.
- LinkPollHistory.AdmittedIffConforms: needs gaps under 2^32 - 1 seconds, since part of a cell that is carried can add up to a second; `LinkPollHistory.RuleHoldsIff` covers every run.
- Floors.DefaultIsNearest: is about a compared floor under 2^63 thousandths from zero, where the program's cast to 64 bits does not saturate.
- Tiles.GenerateZoomLevel: is about zoom differences under 32, since the program's shift overflows beyond.
- LeaderboardMeaning.RowOrderDoesNotMatter: needs one display name per member; `LeaderboardMeaning.OrderFreeIff` shows that the totals need it.
- MembershipIndexes.IndexesRelate: needs member ids, canonical keys and trimmed group ids to be unique, which is more than the unique columns of the database give; `MembershipIndexes.AcceptsExactly` and `MembershipIndexes.ListsExactly` need distinct member ids only.
