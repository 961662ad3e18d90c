# wg_manager: a verified model

A Dafny model of the parts of wg_manager where correctness depends on interleavings, on time or on
whole tables: the reconfigure protocol, enrollment, rate limiting, host-certificate rotation, the
PROXY-protocol listener, leaf renewal, peer discovery, and backup and restore. Everything is proved
for all inputs and all runs; I/O, clocks, the network and remote hosts are parameters or abstract
steps.

| file | models |
|---|---|
| `Reconfigure.dfy`, `LockLoss.dfy`, `TaskLife.dfy` | request and applied generations, the hub lock, hub writes; lost locks; retries, crashes and endings of one task |
| `Ipam.dfy` | CIDR blocks, pools, lowest-free-host allocation |
| `Tokens.dfy` | enrollment token status, consume, revoke, sweep |
| `Enrollment.dfy`, `EnrollmentRuns.dfy`, `Submissions.dfy`, `TokenLife.dfy`, `CleanCommits.dfy` | concurrent redemptions over committed tables, at two isolation levels; what the rows say; what a token admits; exactly when clients clash |
| `RateLimit.dfy`, `EnrollLimits.dfy` | the in-process fixed-window limiter; the two buckets in front of enrollment |
| `HostCerts.dfy`, `HostCertSkips.dfy` | settings validation, the rotation sweep, one host certificate over time, with and without skipped rotations |
| `Text.dfy`, `ProxyHeader.dfy`, `ProxyRoundTrip.dfy`, `ProxyConnection.dfy` | PROXY v1 and v2 headers (sections 2.1 and 2.2 of the HAProxy PROXY protocol specification) and the connection that reads one and starts TLS |
| `PosixPath.dfy`, `CertRenewal.dfy`, `CertRuns.dfy` | `certs renew --due`, run after run |
| `Discovery.dfy`, `DiscoveryRaces.dfy` | one peer-discovery pass; passes racing on a hub |
| `BackupRows.dfy`, `BackupTables.dfy`, `BackupRestore.dfy`, `BackupTheorems.dfy` | `db backup`, `db restore` |

Protocols are action-labelled state machines (`Enabled`, `Next`, `ValidRun`, `Final`) and the results
hold of every `ValidRun`. Objects the source updates in place (the limiter, the token, certificate and
discovery tables, the connection, the database) are classes whose methods are proved against
functions; the laws are lemmas about those functions.

## What the proofs found

Where a promise does not hold of the code as written, the code is modelled as it is, a lemma exhibits
a failing case, and another says exactly when the promise holds.

- **Addresses.** A redemption looks its token up before it takes the per-hub lock, on the same
  session. If reads see every earlier commit (READ COMMITTED), addresses, keys and names stay
  distinct (`ReadCommittedKeepsClientsDistinct`). At MySQL's default REPEATABLE READ the client list
  is as old as the token lookup, and two clients can get one address
  (`RepeatableReadSharesAnAddress`). So can they at READ COMMITTED if the lock is lost between the
  choice of an address and the commit (`LosingTheLockSharesAnAddress`). At either level, with deletions
  and lost locks, clients stay distinct if and only if no redemption commits onto a client that came
  after what it had read and is still there with the same address or key (`DistinctExactlyWhenClean`).
- **Token expiry.** `consume_token` re-checks revocation and the use cap, not expiry, so a token can be
  consumed after it expired (`ExpiredTokenIsRedeemed`). What an inactive token still admits is bounded
  by the redemptions that had looked it up before (`OnlyFlightsLand`); with none in flight it admits
  nobody (`QuietTokenIsClosed`), and one in flight that finds nothing in its way does land
  (`FlightLands`).
- **Limiter.** The module says about twice the limit fits across a window boundary. The exact bound
  is `2 * limit - 1`, and it is reached for every limit and window.
- **Rotation.** The settings check keeps certificates valid if every dispatched rotation finishes in
  less than `renew_before - interval` (`CertsNeverLapse`). But a rotation that finds the row lock
  taken is skipped for good, and then no accepted settings are enough under that latency
  (`ValidatedSettingsAreNotEnough`). With rotations that take less than `latency`, certificates never
  lapse if and only if `interval + 2 * latency <= renew_before` and `interval + 3 * latency < ttl`
  (`NeverLapsesIff`).
- **Renewal.** `certs renew --due` documents itself as idempotent. A second run mints nothing if and
  only if every renewed row's stored path is in the form `str(Path(p))` produces and its new leaf is
  not already due (`IdempotentIff`). The successor row stores that form, so a row stored as `a/` is
  never recognised as superseded: after any runs, each that finds it due renews it once more
  (`StuckIsRenewedByEveryRun`). Rows written by the CLI have that form.
- **Renewal, fresh leaves.** The docstring of `_row_is_due` says a fresh leaf is never due. The local
  backend dates leaves one minute back, so at the default threshold a certificate of a minute or less
  is renewed again by a second run at the same instant (`ShortLeafIsRenewedAgain`,
  `LocalIdempotentIff`). Each renewal makes the window a minute longer, so the runs settle: `n` of them
  leave nothing to renew if and only if a minute is under the threshold's share of every renewed row's
  lifetime and `n` minutes more (`SettlesIff`). At the default threshold two runs always do
  (`DefaultSettlesInTwo`), at any positive one `n` do once `n` times the threshold reaches one hundred
  (`SettlesInTime`), and at zero none ever does (`ZeroNeverSettles`). A renewed row has no tenant
  (`RenewalKeepsSubject`).
- **Lock loss.** If the advisory lock is dropped while its holder carries on, an update can be lost
  (`LosingTheLockLosesAnUpdate`). It is lost exactly at a hub write of a list older than the newest
  applied request, or at recording a generation newer than the hub's list
  (`NoLossExactlyWhenKept`). A worker that reads `applied` again just before its write, and finds it no
  newer than its target, loses nothing (`RecheckSuffices`). `applied <= requested` survives even a lost
  lock.
- **Racing discovery passes.** Passes that report the same keys converge, whichever of them fail
  (`RacesConverge`), with every last sighting that of the later writer (`LaterWriterWins`); of all that
  find a key missing exactly one commits, and the others fail on the unique index (`OneInserts`). If the hub changed between them, the later commit can leave a key it did not
  see (`GhostRowRemains`); it leaves exactly its report if and only if no row outside it came after
  its snapshot (`CommitReconcilesIff`).
- **Partial restores.** A restore that carries only some tables succeeds under an exact condition on
  the outcome alone (`RestoreSucceedsIff`): the statement order never makes it fail.
- **Uneven rows in a backup.** All rows of a table go into one insert, compiled for the columns of the
  first. A later row that lacks one of them makes the restore fail (`LoadSucceedsIff`), and what a
  later row has beyond them is lost without notice (`FirstRowDecides`). A dump made by `db backup` has
  the same columns in every row (`DumpedTableLoads`).

## Model

| member | source | states |
|---|---|---|
| Reconfigure.NoUpdateIsEverLost | src/wg_manager/tasks.py:753-906 | In every interleaving of commits, bumps, dispatches, duplicate deliveries, retries, reconfigures, provisions, failures and crashes that keeps mutual exclusion, the hub holds exactly its ready clients in some committed table version, read no earlier than every change whose generation counts as applied, and a caller whose task reported success has its change on the hub |
| Reconfigure.Converges | src/wg_manager/tasks.py:776-906 | If every change to the hub's peer list was followed by a request, other commits or not, and every dispatched task ended applied or coalesced, then applied equals requested and the hub holds exactly its ready clients in the newest table |
| Reconfigure.HubRows | src/wg_manager/tasks.py:211-220 | Row by row, in every run under the lock: a client is on the hub if and only if it is in the table version last written, has the hub's server id and is ready, and its row there is the table's; once requests have settled, the same of the newest table |
| Reconfigure.ReadyIsHeld | src/wg_manager/tasks.py:211-220 | The query's result is exactly the rows with the hub's server id and status ready, unchanged |
| Reconfigure.CountersOrdered | src/wg_manager/tasks.py:890-898 | In every run, even with the lock lost, applied never decreases and never exceeds requested |
| Reconfigure.CoalescedIsCovered | src/wg_manager/tasks.py:852-861 | Any task that coalesces, the caller's own, a redelivered copy or another's, leaves covered every change requested no later than its generation, then and ever after, and does not touch the hub |
| Reconfigure.CopiesReachTheBump | src/wg_manager/tasks.py:776-791 | In every run after its dispatch, a caller's task, every copy of it and every copy of a copy carries a generation that reaches the caller's own bump |
| Reconfigure.BurstCoalesces | src/wg_manager/tasks.py:852-861 | Once the newest request is applied, a task queued for any earlier generation coalesces without touching the hub |
| Reconfigure.ExclusiveStep | src/wg_manager/tasks.py:841-906 | Every single step that does not lose the lock keeps the protocol invariant and never moves the hub to an older list |
| Reconfigure.OthersWait | src/wg_manager/locks.py:85-167 | While a task runs under the lock, no other task's step changes the lock or the hub |
| Reconfigure.HubStep | src/wg_manager/tasks.py:381-429 | Hub writes by reconfigures and provisions only move the hub forward, far enough for every generation recorded as applied |
| Reconfigure.LooseStep | src/wg_manager/tasks.py:776-898 | What holds of counters, requests and tasks is kept by every step, lock or no lock |
| Reconfigure.LosingTheLockLosesAnUpdate | src/wg_manager/locks.py:85-167 | A reachable state, after the lock was dropped under a running task, in which an applied change is missing from the hub |
| LockLoss.StepKeepsIff | src/wg_manager/tasks.py:880-898 | With or without the lock, a step loses no update exactly when the list it writes is no older than the newest applied request, or the generation it records no newer than the hub's list |
| LockLoss.SafeIff | src/wg_manager/tasks.py:853-898 | No update is lost exactly when the newest applied generation was requested no later than the hub's list |
| LockLoss.RecheckSuffices | src/wg_manager/tasks.py:853-898 | A hub write is safe, lock or no lock, when `applied` read just before it has not passed the target the task read before its list |
| LockLoss.NoLossExactlyWhenKept | src/wg_manager/tasks.py:841-906 | Over every run, lock lost or not, no update is lost at any point if and only if every hub write and every record passes that comparison |
| TaskLife.LockIsTheHolders | src/wg_manager/locks.py:85-167 | A held lock goes only by the holder's release or crash, or by being lost; no other task frees it |
| TaskLife.FreeLockIsTaken | src/wg_manager/locks.py:85-167 | A free lock stays free until a task takes it, and then that task has it |
| TaskLife.LockIsHandedOn | src/wg_manager/locks.py:85-167 | A finished holder can release, and any queued task can then take the lock |
| TaskLife.RetriesRunOut | src/wg_manager/tasks.py:794-844 | In every run a reconfigure task's retries are the times it was turned away, up to 30, and the next time fails it for good |
| TaskLife.TurnedAwayProvisioningIsSkipped | src/wg_manager/tasks.py:381-429 | Provisioning that finds the lock taken is skipped, in every later run, with nothing written |
| TaskLife.EndedForGood | src/wg_manager/tasks.py:794-906 | A task that has ended and let go of the lock keeps its outcome in every run |
| TaskLife.FailureStands | src/wg_manager/tasks.py:794-906 | A failed attempt stays failed in every run after its lock is released |
| TaskLife.LegacyAlwaysApplies | src/wg_manager/tasks.py:830-833 | A message queued without a generation is never coalesced, in any run |
| TaskLife.QueuedTaskGetsThrough | src/wg_manager/tasks.py:841-906 | From every state with the lock free a queued task has a run to success, after which it coalesced or the hub holds exactly the ready clients of the newest table |
| TaskLife.CrashedTaskRecovers | src/wg_manager/tasks.py:794-800 | A crashed task is queued again with its generation and retries, and has a run to success |
| Ipam.OverlapsDecidesSharing | src/wg_manager/ipam.py:55-64 | The endpoint comparison of `pools_overlap` is true exactly when the two blocks share an address |
| Ipam.SubnetOfDecidesContainment | src/wg_manager/ipam.py:39-52 | The endpoint comparison of `subnet_in_pool` is true exactly when every address of the subnet is in the pool |
| Ipam.NestedOrDisjoint | src/wg_manager/ipam.py:39-64 | Any two aligned blocks are nested or disjoint |
| Ipam.BlockMembers | src/wg_manager/ipam.py:33-36 | An aligned block is exactly the addresses that agree with its base above the host bits |
| Ipam.ParsePool | src/wg_manager/ipam.py:33-36 | A pool parses exactly when it is an aligned block, and then to itself |
| Ipam.PoolsSeparateClients | src/wg_manager/ipam.py:39-64 | Subnets inside pools accepted as disjoint have no address in common |
| Ipam.AllocationsNeverCollide | src/wg_manager/ipam.py:78-107 | Addresses allocated by hubs inside disjoint pools never coincide, whatever each has in use |
| Ipam.AllocateIsLeastFreeHost | src/wg_manager/ipam.py:78-107 | Allocation fails exactly when every address strictly inside the network, the server's aside, is in use; otherwise it returns the lowest that is not, inside the address space |
| Ipam.AllocateClientIp | src/wg_manager/ipam.py:78-107 | The loop that collects taken addresses and scans the hosts returns the specified address, or PoolExhausted exactly when there is none |
| Tokens.FilterAgreesWithStatus | src/wg_manager/enrollment.py:142-170 | The SQL filter selects a row exactly when its derived status is active, for every row and time |
| Tokens.InactiveForGood | src/wg_manager/enrollment.py:132-223 | A row that is not active stays so through consumes, revokes and the passing of time |
| Tokens.DeadIsInactive | src/wg_manager/enrollment.py:226-259 | The sweep's condition holds exactly of tokens that expired, or were revoked, more than the retention ago, and no such token can be redeemed |
| Tokens.TokenTable.Consume | src/wg_manager/enrollment.py:199-223 | One guarded update: a use is added exactly when the row is neither revoked nor used up, otherwise nothing changes |
| Tokens.TokenTable.Revoke | src/wg_manager/enrollment.py:173-196 | The row is stamped once; revoking it again changes nothing and reports false |
| Tokens.TokenTable.DeleteDead | src/wg_manager/enrollment.py:226-259 | Exactly the tokens with expiry or revocation more than the retention ago disappear, reported in ascending order; all others are unchanged |
| Enrollment.Step | src/wg_manager/enroll_app.py:197-235 | Every step of redemptions, deletions, revokes and sweeps keeps addresses, keys and names distinct and well placed, provided a lock is taken with current reads |
| Enrollment.RowStep | src/wg_manager/enroll_app.py:206-234 | Every step at every isolation level keeps use counts equal to committed rows |
| Enrollment.RowLockShieldsToken | src/wg_manager/enrollment.py:199-223 | While a redemption has a token's row locked, no one else changes that row |
| Enrollment.LockShieldsHub | src/wg_manager/enroll_app.py:197-205 | While a redemption holds a hub's lock, no one else adds a client to the hub |
| Enrollment.IndexShieldsName | src/wg_manager/enroll_app.py:251-316 | A pending name keeps its place in the unique index against every other step |
| Enrollment.CandidateFits | src/wg_manager/enroll_app.py:251-316 | What `_admit` builds on a current view has a free usable address, a free name, and the submitted key, which no client of the hub has |
| Enrollment.CandidateExactly | src/wg_manager/enroll_app.py:260-316 | For every view: a host is admitted if and only if no visible client has its name or key and an address is left; the row then has the prefixed name, the submitted key, the token's hub, the token and the lowest address left |
| Submissions.RowsSayWhatWasSubmitted | src/wg_manager/enroll_app.py:143-316 | In every run, each row added to the client table carries the hostname, key and token of the request that committed it, the token's hub and its name prefix, in the order of the commits, and nothing else is added |
| Submissions.NewClientsAreLogged | src/wg_manager/enroll_app.py:206-234 | A client row that a run did not find there is one of the rows it committed |
| EnrollmentRuns.ClientsStayDistinct | src/wg_manager/enroll_app.py:197-235 | In every run whose locks are taken with current reads, clients of a hub never share an address or key, names are unique, and each address is a usable host of the subnet |
| EnrollmentRuns.ReadCommittedKeepsClientsDistinct | src/wg_manager/enroll_app.py:197-235 | At READ COMMITTED the same holds of every run, deletions included |
| EnrollmentRuns.UsesAreConserved | src/wg_manager/enroll_app.py:206-234 | In every reachable state, whatever the client table held at the start, a token's use count equals the client rows ever committed through it and is at most its cap |
| TokenLife.UsesAreCommits | src/wg_manager/enroll_app.py:206-234 | Over any run a token's use count grows by exactly the redemptions of it that commit |
| TokenLife.FailureGivesTheUseBack | src/wg_manager/enroll_app.py:206-234 | However many redemptions consume a token and then fail, roll back or die, as long as none commits and nobody revokes it, its row at the end of the run, unless swept, is the one it was |
| EnrollmentRuns.TokenEvolves | src/wg_manager/enrollment.py:173-259 | Every step keeps a token row, adds exactly one use to it, stamps it revoked, or deletes it once dead |
| EnrollmentRuns.SweepExactly | src/wg_manager/enrollment.py:226-259 | A sweep among concurrent redemptions deletes exactly the tokens that expired or were revoked more than the retention ago |
| EnrollmentRuns.NeverActiveAgain | src/wg_manager/enrollment.py:132-223 | Once revoked, expired, exhausted or swept, a token is never active again in any run |
| EnrollmentRuns.NoClientAfterClosing | src/wg_manager/enrollment.py:199-223 | After a token is revoked, used up or swept, no run commits another client through it |
| TokenLife.OnlyFlightsLand | src/wg_manager/enrollment.py:132-223 | Once a token is inactive for whatever reason, expiry included, any run commits through it at most the redemptions that had looked it up before |
| TokenLife.QuietTokenIsClosed | src/wg_manager/enrollment.py:132-223 | An inactive token with no redemption in flight admits nobody in any run |
| TokenLife.FlightLands | src/wg_manager/enroll_app.py:197-235 | Whatever the clock says, a redemption in flight lands in some run when its token is neither revoked nor used up, nothing it needs is held, and it is admitted |
| TokenLife.ExpiredTokenIsRedeemed | src/wg_manager/enrollment.py:199-223 | A run in which a client is committed through a token that has already expired |
| TokenLife.RevokeCloses | src/wg_manager/enrollment.py:173-196 | In every run after a committed revoke, whatever was in flight, no client comes through the token and it stays inactive |
| TokenLife.AbandonedForGood | src/wg_manager/enroll_app.py:197-235 | A redemption that gives up, is rolled back or dies commits in no later run |
| TokenLife.DeathFreesTheHub | src/wg_manager/locks.py:85-167 | A worker that dies or releases leaves the hub's lock free and never holds it again |
| TokenLife.RowsComeAndGo | src/wg_manager/enroll_app.py:206-234 | After any run a client row is there exactly when it was last committed rather than deleted, or was there and left alone |
| EnrollmentRuns.FreshLocksAreCurrent | src/wg_manager/enroll_app.py:143-205 | A lock taken with no commit on the hub since the token lookup is taken with current reads, at any isolation level |
| EnrollmentRuns.FreshLocksKeepClientsDistinct | src/wg_manager/enroll_app.py:197-235 | Runs whose locks are all so taken keep clients distinct at any isolation level |
| EnrollmentRuns.FreeExactlyWhenNoCommitSince | src/wg_manager/enroll_app.py:197-316 | At REPEATABLE READ without deletions, while every lock so far was taken fresh, the address a redemption's view yields is free exactly when no client was committed on the hub since its token lookup |
| CleanCommits.StepIsDistinctIff | src/wg_manager/enroll_app.py:251-316 | A step keeps clients distinct exactly when it is not a commit, or no client that came after what the redemption had read and is still on the hub has its address or key |
| CleanCommits.DistinctExactlyWhenClean | src/wg_manager/enroll_app.py:197-316 | Over every run at either isolation level, with deletions and lost locks, clients stay distinct throughout if and only if every commit is clean in that sense |
| CleanCommits.LosingTheLockSharesAnAddress | src/wg_manager/locks.py:85-167 | A reachable READ COMMITTED state with two clients of one hub clashing, after the hub's lock was lost under a redemption |
| EnrollmentRuns.RepeatableReadSharesAnAddress | src/wg_manager/enroll_app.py:197-316 | A reachable REPEATABLE READ state with two clients of one hub at the same address |
| RateLimit.MemoryLimiter.Current | src/wg_manager/ratelimit.py:79-84 | Returns the open window and forgets one that has reset; other keys are untouched |
| RateLimit.MemoryLimiter.Hit | src/wg_manager/ratelimit.py:89-97 | The table and the decision are those of one hit on the specification |
| RateLimit.MemoryLimiter.Peek | src/wg_manager/ratelimit.py:99-105 | The decision is the specified one and no count changes |
| RateLimit.RetryAfterIsWholeSecondsLeft | src/wg_manager/ratelimit.py:86-87 | The retry hint is at least one, and within half a second of the time to the reset when at least that much is left |
| RateLimit.RoundsToNearestEven | src/wg_manager/ratelimit.py:86-87 | Rounding is to the nearest integer, and to the even one of two equally near |
| RateLimit.HitDecides | src/wg_manager/ratelimit.py:89-97 | A hit is allowed exactly while fewer hits than the limit are counted in the open window, is counted itself, and hints at the reset within half a second |
| RateLimit.PeekDecides | src/wg_manager/ratelimit.py:99-105 | A peek is allowed exactly while fewer hits than the limit are counted in the open window, and a refusal hints at the reset within half a second |
| RateLimit.AtMostTwiceTheLimit | src/wg_manager/ratelimit.py:13-17 | Any half-open interval of one window's length holds at most 2 * limit - 1 allowed hits of a key, for every clock that does not go back and every sequence of hits and peeks |
| RateLimit.BudgetSuffices | src/wg_manager/ratelimit.py:79-105 | The same bound from any intermediate state, by what the open window still allows |
| RateLimit.BoundaryBurstMonotone | src/wg_manager/ratelimit.py:13-17 | The boundary burst is a log whose clock never goes back |
| RateLimit.BoundaryBurstFixed | src/wg_manager/ratelimit.py:13-17 | The boundary burst uses one limit and window throughout |
| RateLimit.TwiceTheLimitIsReached | src/wg_manager/ratelimit.py:13-17 | The boundary burst has 2 * limit - 1 allowed hits in one interval, for every limit and window |
| EnrollLimits.LockoutLasts | src/wg_manager/enroll_app.py:377-430 | Nothing that happens before the failure window resets lifts a lockout or moves its end |
| EnrollLimits.LockedOutRequestIsBlocked | src/wg_manager/enroll_app.py:377-430 | A request that peeks during a lockout is answered 429, is never handled, and changes neither counter |
| EnrollLimits.AnsweredForGood | src/wg_manager/enroll_app.py:377-430 | A request answered before the handler stays so with that status, and is never handled |
| EnrollLimits.PeekClearsExactly | src/wg_manager/enroll_app.py:389-396 | A request goes on past the failure bucket exactly while fewer failures than the limit are counted in the open window, and is answered 429 otherwise |
| EnrollLimits.FailuresAreCounted | src/wg_manager/enroll_app.py:417-424 | Over any run, an open failure window counts every response of 401 or 422 and nothing else |
| EnrollLimits.LockedOutExactly | src/wg_manager/enroll_app.py:417-427 | From the failure that opens a window to the window's end, the address is locked out exactly when the failures in it have reached the limit |
| EnrollLimits.RequestLimitDecides | src/wg_manager/enroll_app.py:397-406 | A request is handed to the handler exactly while fewer requests than the limit are counted in the open window, and is answered 429 otherwise |
| EnrollLimits.OverLimitIsRefused | src/wg_manager/enroll_app.py:402-406 | A request past the request limit is answered 429 and handled in no later run |
| EnrollLimits.AtMostLimitPerWindow | src/wg_manager/enroll_app.py:397-406 | In every run at most the limit of requests per window reach the handler |
| EnrollLimits.WindowsFollowTheClock | src/wg_manager/ratelimit.py:79-97 | A request opens the next window exactly when none is open at its first clock reading, and otherwise counts in the open one |
| EnrollLimits.HandledPassedBoth | src/wg_manager/enroll_app.py:377-416 | In every run a handled request passed the failure bucket and then the request bucket |
| EnrollLimits.AnswerFollowsRecording | src/wg_manager/enroll_app.py:414-430 | In every run the handler's status goes out unchanged, exactly once the failure bucket has been told of it |
| EnrollLimits.SwitchedOff | src/wg_manager/enroll_app.py:387-400 | With limits of zero or less every request is cleared and handled |
| EnrollLimits.SwitchedOffIsSilent | src/wg_manager/enroll_app.py:387-424 | A bucket whose limit is zero or less counts and logs nothing in any run |
| EnrollLimits.OneLinePerTrippedWindow | src/wg_manager/enroll_app.py:377-430 | After any interleaving each bucket has written at most one rate-limited line per window, and a bucket past its threshold has written the one of its open window |
| HostCerts.SelectDue | src/wg_manager/tasks.py:687-716 | The selection loop returns, in table order, the ids of exactly the rows that are ready, not manual clients, and without an expiry or with one before now + renew_before |
| HostCerts.DueIdsNeedRotation | src/wg_manager/tasks.py:693-716 | An id is selected exactly when some row with it is ready, not a manual client, and has no expiry or one before now + renew_before |
| HostCerts.DispatchAll | src/wg_manager/tasks.py:717-743 | Every id ends up dispatched or failed, in order; a refused dispatch does not stop the rest |
| HostCerts.KeepSplits | src/wg_manager/tasks.py:717-743 | Dispatched and failed ids together are the due ids, none lost or repeated |
| HostCerts.RotateExpiring | src/wg_manager/tasks.py:687-743 | An id ends up dispatched or failed if and only if some row with it is ready, not a manual client, and has no expiry or one before now + renew_before; the four lists partition the due rows by what the broker did |
| HostCerts.CertsNeverLapse | src/wg_manager/config.py:353-381 | For a host whose first certificate is signed at any time between two sweeps, with settings the validator accepts, sweeps on schedule and every dispatched rotation done in less than renew_before - interval, the certificate is valid at every moment of every run |
| HostCertSkips.RoomSuffices | src/wg_manager/tasks.py:560-645 | With rotations skipped on lock contention, certificates never lapse when the renew window has room for an interval and two rotations and the ttl for a third |
| HostCertSkips.ShortWindowLapses | src/wg_manager/tasks.py:560-645 | For every accepted settings without that room in the renew window, a run that keeps the schedule and lets a certificate lapse |
| HostCertSkips.ShortTtlLapses | src/wg_manager/tasks.py:560-645 | The same for every accepted settings without that room in the ttl |
| HostCertSkips.NeverLapsesIff | src/wg_manager/config.py:353-381 | With skips, accepted settings keep every certificate valid in every run if and only if there is that room |
| HostCertSkips.ValidatedSettingsAreNotEnough | src/wg_manager/config.py:353-381 | The latency that suffices without skips never suffices with them, for any settings the validator accepts |
| HostCerts.SelectedRepeatedlyBeforeExpiry | src/wg_manager/tasks.py:687-716 | At least ceil(renew_before / interval) - 1 sweeps select a certificate before it expires |
| HostCerts.ReselectedExactlyAfter | src/wg_manager/ssh_ca.py:313-314 | A fresh certificate is reselected exactly when ttl - renew_before has passed since its validity began |
| HostCerts.ShortTtlRotatesAlways | src/wg_manager/config.py:353-381 | Settings refused by the first check select every certificate at every sweep |
| HostCerts.LongIntervalLetsCertLapse | src/wg_manager/config.py:353-381 | For every settings refused by the second check, a run that keeps the sweep interval lets a certificate lapse |
| ProxyHeader.DecisionIsStable | src/wg_manager/proxy_protocol.py:74-175 | A header or an error decided on some bytes is unchanged by any bytes appended |
| ProxyHeader.UndecidedIsShort | src/wg_manager/proxy_protocol.py:97-175 | An undecided buffer is under 107 bytes (v1) or 16 + 4096 bytes (v2), and a decided header lies inside the buffer |
| ProxyHeader.FindCrlf | src/wg_manager/proxy_protocol.py:97-108 | The result is the first CR LF that ends within the length limit, and none exactly when there is no such CR LF |
| ProxyHeader.NonAsciiIsRefused | src/wg_manager/proxy_protocol.py:107-110 | A line with any byte of 128 or more is refused |
| ProxyRoundTrip.V4RoundTrip | src/wg_manager/proxy_protocol.py:125-132 | Printing then parsing an IPv4 address gives it back |
| ProxyRoundTrip.V4IsCanonical | src/wg_manager/proxy_protocol.py:125-132 | Accepted IPv4 text is exactly what its address prints as |
| ProxyRoundTrip.Tcp4RoundTrip | src/wg_manager/proxy_protocol.py:97-142 | A printed TCP4 header followed by any bytes parses to its source, consuming exactly the header |
| ProxyRoundTrip.Tcp6RoundTrip | src/wg_manager/proxy_protocol.py:97-142 | The same for TCP6 |
| ProxyRoundTrip.UnknownRoundTrip | src/wg_manager/proxy_protocol.py:109-115 | An UNKNOWN line names no client and is consumed exactly, whatever ASCII it carries up to the first CR LF, a lone CR included |
| ProxyRoundTrip.Tcp4Reprints | src/wg_manager/proxy_protocol.py:97-142 | Every accepted TCP4 header is byte for byte the printed form of its addresses and ports |
| ProxyRoundTrip.Tcp6Reads | src/wg_manager/proxy_protocol.py:97-142 | Every accepted TCP6 header is the printed form of two IPv6 addresses without a zone and two ports, and names the first address and port |
| ProxyRoundTrip.V2RoundTrip | src/wg_manager/proxy_protocol.py:145-175 | A printed v2 header (local, unspecified, TCP4, TCP6, with any trailing TLVs) followed by any bytes parses to its client, consuming exactly the header |
| ProxyRoundTrip.V2Reprints | src/wg_manager/proxy_protocol.py:145-175 | Every accepted v2 header is the printed form of some header with that client |
| ProxyConnection.Tls.Feed | src/wg_manager/proxy_protocol.py:266-275 | The feeding loop ends and hands over all bytes in order, for any non-empty buffer sizes TLS offers |
| ProxyConnection.ProxyProtocolTls.ConnectionMade | src/wg_manager/proxy_protocol.py:210-225 | An untrusted peer is dropped without a timer, a trusted one waits with it armed |
| ProxyConnection.ProxyProtocolTls.DataReceived | src/wg_manager/proxy_protocol.py:227-241 | New state as specified: keep waiting, drop, or switch to TLS with the bytes after the header |
| ProxyConnection.ProxyProtocolTls.Deliver | src/wg_manager/proxy_protocol.py:227-275 | Bytes go to the header, then to TLS, and nowhere once the connection is closed |
| ProxyConnection.ProxyProtocolTls.StartTls | src/wg_manager/proxy_protocol.py:251-275 | TLS gets the client and the leftover bytes; the buffer is cleared |
| ProxyConnection.ProxyProtocolTls.OnTimeout | src/wg_manager/proxy_protocol.py:277-289 | The connection is dropped and the timer gone |
| ProxyConnection.ProxyProtocolTls.ConnectionLost | src/wg_manager/proxy_protocol.py:247-249 | The timer is gone |
| ProxyConnection.TlsReadsWhatFollowsTheHeader | src/wg_manager/proxy_protocol.py:227-275 | In every run of connects, chunks, timeouts and losses, TLS has read exactly the bytes sent after the header, in order, and the timer is armed exactly while the header is incomplete |
| ProxyConnection.ChunkingDoesNotMatter | src/wg_manager/proxy_protocol.py:227-241 | However the bytes are cut into chunks, the decision and what TLS reads are as if they came at once |
| ProxyConnection.UntrustedReachesNothing | src/wg_manager/proxy_protocol.py:210-225 | In no run does anything an untrusted peer sends reach TLS |
| ProxyConnection.TrafficIsARun | src/wg_manager/proxy_protocol.py:227-249 | Once a connection is made, any chunks followed by its loss are a run, so the results on runs cover all traffic |
| CertRenewal.DropSuperseded | src/wg_manager/cli.py:1577-1597 | The two passes keep, in order, exactly the rows with no path or with the highest id on their path |
| CertRenewal.Registry.RenewRow | src/wg_manager/cli.py:1479-1558 | A successor with the row's subject, the leaf's names and window and the row's paths is recorded exactly when all three paths are stored and signing succeeds, and then the certificate, key and chain are each written to their own path; otherwise nothing changes |
| CertRenewal.RenewalKeepsSubject | src/wg_manager/cli.py:1520-1554 | With a backend that certifies what it is asked for, type, operator, common name and alternative names pass to the successor; the tenant does exactly when there is none |
| CertRenewal.SuccessorRecordsTheLeaf | src/wg_manager/cli.py:1520-1554 | The successor records the name, alternative names and window the new leaf certifies, even where the old row says otherwise, and keeps type and operator |
| CertRenewal.SanRoundTrip | src/wg_manager/cli.py:1520-1550 | Stored alternative names survive being split, filtered and joined |
| CertRenewal.Registry.RenewAll | src/wg_manager/cli.py:1789-1818 | One successor per renewable due row, in order, with its files written; renewed and skipped add up to the due rows |
| CertRenewal.Registry.RenewDue | src/wg_manager/cli.py:1769-1818 | The whole run leaves the old rows and one successor for each row it renews, with fresh distinct ids |
| CertRenewal.RenewedExactly | src/wg_manager/cli.py:1769-1818 | A row is renewed exactly when it is live, not superseded, due, has its three paths and can be signed |
| CertRenewal.MintedAt | src/wg_manager/cli.py:1479-1558 | The k-th row minted succeeds the k-th renewable due row: exactly one leaf each |
| CertRenewal.OneLeafPerPath | src/wg_manager/cli.py:1577-1597 | No two rows renewed in one run have the same stored certificate path |
| CertRenewal.SupersededIffNormal | src/wg_manager/cli.py:1499-1597 | A renewed row is superseded by its successor exactly when its stored path is in normal form |
| CertRenewal.RenewedAgainExactly | src/wg_manager/cli.py:1769-1818 | What a second run at the same instant renews is exactly what the first renewed from a path not in normal form, and every minted row that is already due and has no later one on its path |
| CertRenewal.IdempotentIff | src/wg_manager/cli.py:1686-1692 | A second run mints nothing exactly when every row the first renewed had its path in normal form and got a leaf that is not due |
| CertRenewal.RunsKeepNormalPaths | src/wg_manager/cli.py:1542-1554 | A run keeps every stored path in normal form |
| CertRenewal.IdempotentOnNormalPaths | src/wg_manager/cli.py:1686-1692 | On a registry with paths in normal form a second run changes nothing exactly when no renewed row's leaf is due |
| CertRenewal.TrailingSlashIsRenewedAgain | src/wg_manager/cli.py:1577-1597 | A row stored with a trailing slash is renewed again by the next run |
| CertRenewal.LocalLeafIsFresh | src/wg_manager/pki.py:464-467 | A leaf from the local backend is not due at issue exactly when one minute is under the threshold's share of its window |
| CertRenewal.LocalIdempotentIff | src/wg_manager/cli.py:1600-1615 | With the local backend and paths in normal form, a second run changes nothing exactly when a minute is under the threshold's share of the window of every row the first renewed |
| CertRenewal.ShortLeafIsRenewedAgain | src/wg_manager/cli.py:1600-1615 | At the default threshold a certificate of at most a minute is renewed again by a second run at the same instant |
| CertRenewal.LocalRenewalsGrow | src/wg_manager/pki.py:464-467 | Each renewal of a whole-second window through the local backend makes it one minute longer |
| CertRuns.StuckIsRenewedByEveryRun | src/wg_manager/cli.py:1577-1818 | After any sequence of runs, a current row whose stored path is not in normal form is renewed by every further run that finds it due and can sign for it |
| CertRuns.LocalRunIsLocal | src/wg_manager/pki.py:464-467 | A run with the local backend and POSIX path text meets what the results on settling assume of a run |
| CertRuns.SettlesIff | src/wg_manager/cli.py:1600-1818 | With the local backend and paths in normal form, n runs at one instant leave nothing to renew exactly when a minute is under the threshold's share of the lifetime, plus n minutes, of every row the first renews |
| CertRuns.DefaultSettlesInTwo | src/wg_manager/cli.py:1686-1692 | At the default threshold a third run at the same instant renews nothing, whatever the registry |
| CertRuns.SettlesInTime | src/wg_manager/cli.py:1600-1615 | At any positive threshold, n runs settle every registry once n times the threshold reaches one hundred |
| CertRuns.ZeroNeverSettles | src/wg_manager/cli.py:1600-1615 | At a threshold of zero or less a registry with anything to renew never settles |
| CertRuns.FilesMatchNewest | src/wg_manager/cli.py:1502-1558 | For each of certificate, key and chain, kept apart from the other two: after a run every such file holds that part of the leaf of the newest row that names it, however the path is spelled |
| CertRuns.FilesMatchAfterRuns | src/wg_manager/cli.py:1502-1558 | The same after any sequence of runs |
| CertRuns.ThreeFiles | src/wg_manager/cli.py:1539-1541 | After any runs the newest row's certificate, key and chain paths hold its own certificate, key and chain |
| PosixPath.NormalIsNormal | src/wg_manager/cli.py:1502-1510 | The text form of a path is its own text form and never empty |
| PosixPath.AssembleComesApart | src/wg_manager/cli.py:1502-1510 | A path assembled from a root and proper parts parses back to them |
| PosixPath.RootExactly | src/wg_manager/cli.py:1502-1510 | A path that starts with exactly two slashes keeps both, any other number of slashes counts as one |
| Discovery.DiscoveredPeers.Record | src/wg_manager/tasks.py:1140-1178 | One peer is inserted with its first sighting now, or updated keeping its first sighting |
| Discovery.DiscoveredPeers.Upsert | src/wg_manager/tasks.py:1140-1178 | new + updated is the number of peers reported, and the row count grows by new, duplicates included |
| Discovery.DiscoveredPeers.Prune | src/wg_manager/tasks.py:1180-1200 | Exactly the hub's rows that were not observed disappear, and pruned is their number |
| Discovery.DiscoveredPeers.Discover | src/wg_manager/tasks.py:1100-1211 | After a successful pass the table is the reconciled one, managed keys taken from the hub's client rows, with exact counts; an unreachable hub changes nothing |
| Discovery.FoldedIsUpserted | src/wg_manager/tasks.py:1140-1178 | One upsert after another gives each observed key the last report of it, its managed flag and its original first sighting, and leaves every other row alone |
| Discovery.RowsAreObserved | src/wg_manager/tasks.py:1139-1200 | After a pass the hub's rows are exactly the observed keys, and every other hub's rows are as before |
| Discovery.PeerIsRecorded | src/wg_manager/tasks.py:1127-1178 | The row of a peer holds its last report, a handshake time exactly when one happened, the managed flag exactly when a client of the hub has that non-empty key, now as last sighting, and the old first sighting if there was one |
| Discovery.RepeatedPassOnlyTouches | src/wg_manager/tasks.py:1050-1056 | A repeated pass adds and prunes nothing and only moves the last sighting |
| Discovery.LaterPassWins | src/wg_manager/tasks.py:1058-1064 | After two passes in sequence the rows are those of the later one, up to first sightings |
| Discovery.FirstSightingSurvives | src/wg_manager/tasks.py:1168-1178 | A row that survives a pass keeps its first sighting |
| Discovery.HubsAreIndependent | src/wg_manager/tasks.py:1140-1200 | Passes over different hubs commute |
| DiscoveryRaces.RacesConverge | src/wg_manager/tasks.py:1066-1070 | However many passes race on a hub that reports one set of keys, and whichever fail, once any has committed the hub's rows are exactly those keys |
| DiscoveryRaces.LastWriterWins | src/wg_manager/tasks.py:1066-1070 | In any run, whatever the passes report, a key's last sighting is that of the last pass to commit a report of it |
| DiscoveryRaces.LaterWriterWins | src/wg_manager/tasks.py:1066-1070 | When racing passes report one set of keys and any has committed, every key is there with the last sighting of the later writer |
| DiscoveryRaces.LastChangerWins | src/wg_manager/tasks.py:1140-1178 | In any run each column of a row is what the last pass to change it reported; a pass that found nothing new in a column undoes nobody's update of it |
| DiscoveryRaces.FirstSightingStays | src/wg_manager/tasks.py:1168-1178 | Over any run a row keeps its first sighting, and a row with another one was inserted during the run |
| DiscoveryRaces.InsertsAreBalanced | src/wg_manager/models.py:583-589 | In any run the commits that insert a key and those that delete it balance, so a second pass that found it missing can commit only after a deletion |
| DiscoveryRaces.OneInserts | src/wg_manager/models.py:583-589 | Of all the passes that race to insert a key the hub reports, exactly one commits |
| DiscoveryRaces.CommitReconcilesIff | src/wg_manager/tasks.py:1058-1064 | A commit leaves exactly the keys it reports if and only if no row outside its report came after its snapshot |
| DiscoveryRaces.GhostRowRemains | src/wg_manager/tasks.py:1058-1064 | Two racing passes after which a key the later one did not see is still there |
| DiscoveryRaces.UndisturbedReconciles | src/wg_manager/tasks.py:1127-1211 | A pass that nobody disturbs commits and leaves the reconciled table |
| BackupRows.ValueRoundTrip | src/wg_manager/cli.py:584-597 | A column value that is written to JSON decodes to itself, enum members and moments included |
| BackupRows.LabelRoundTrip | src/wg_manager/cli.py:592-594 | An enum member is found again by its value, although value and name differ |
| BackupRows.DecodeExactly | src/wg_manager/cli.py:583-597 | Text that is no moment or no value of the enum is refused, and any other text, number, flag or null is kept as it is |
| BackupRows.ZonelessTextIsUtc | src/wg_manager/cli.py:590-593 | Text without a zone decodes, in every datetime column, to the moment it names in UTC |
| BackupRows.BadEntryIsRefused | src/wg_manager/cli.py:563-597 | One entry that does not decode keeps the row from decoding |
| BackupRows.SerializeRow | src/wg_manager/cli.py:614-625 | The dumped row has one entry per column, each the encoding of the value |
| BackupRows.DeserializeRow | src/wg_manager/cli.py:563-597 | The column loop decodes the row, leaves out columns it lacks and fails on the first bad value |
| BackupRows.RowRoundTrip | src/wg_manager/cli.py:563-625 | A dumped row decodes to the row it came from |
| BackupRows.RetiredColumnsIgnored | src/wg_manager/cli.py:563-597 | Keys that are no longer columns make no difference |
| BackupRestore.DumpTable | src/wg_manager/cli.py:787-792 | A table is listed completely, each row once, by ascending primary key |
| BackupRestore.Backup | src/wg_manager/cli.py:782-792 | The dump lists every table of the schema |
| BackupRestore.Database.Restore | src/wg_manager/cli.py:908-955 | The outcome is that of the whole transaction, and any failure leaves the state before it |
| BackupRestore.Database.Transaction | src/wg_manager/cli.py:926-955 | Refuses a table with rows unless told to drop, deletes children first, inserts parents first, and stops at the first refused statement |
| BackupRestore.Database.DeleteAll | src/wg_manager/cli.py:943-946 | The deletion loop, last table first, with foreign keys holding after every statement |
| BackupRestore.Database.InsertAll | src/wg_manager/cli.py:948-954 | The insertion loop, first table first: rows are decoded, one statement inserts them with the first row's columns, and foreign keys hold after every statement |
| BackupRestore.ConsistentExactly | src/wg_manager/cli.py:926-930 | Nothing dangles exactly when every whole number in a foreign-key column is the id of a row of the table it points into |
| BackupTheorems.EmptyingSucceedsIff | src/wg_manager/cli.py:943-946 | Deleting children first is refused only if rows outside the carried tables refer to deleted ones |
| BackupTheorems.FillingSucceedsIff | src/wg_manager/cli.py:948-954 | Inserting parents first is refused only if a table does not load or the outcome has a dangling key |
| BackupTheorems.RestoreSucceedsIff | src/wg_manager/cli.py:908-955 | The exact condition, over the modelled constraints, for a restore to succeed, and the only state it can then leave: carried tables as loaded, all others untouched, every foreign key sound |
| BackupTables.InsertedIff | src/wg_manager/models.py:547-553 | Rows bound to the statement's columns go into an empty table exactly when each is complete, well typed, keyed and not NULL where required, and no two share a primary key or a unique index entry |
| BackupTables.LoadSucceedsIff | src/wg_manager/cli.py:948-953 | A table loads exactly when every row decodes, none lacks a column of the first, and the rows cut down to those columns are admissible together in that sense |
| BackupTables.LoadSucceedsInColumns | src/wg_manager/cli.py:948-953 | The same in plain columns: each column of each row has a value of its kind, NULL only where allowed, each row a whole primary key, and any two rows differ in it and in every unique index, where NULL differs from everything |
| BackupTables.AdmittedIff | src/wg_manager/models.py:547-553 | A row is admitted exactly when every column has a value or a fallback of its kind, not NULL where required, and the primary key is a whole number of at least zero |
| BackupTables.StoredUnderItsKey | src/wg_manager/cli.py:948-953 | Every dumped row that loads is found under its own primary key, with its values in the first row's columns |
| BackupTables.TextIsNoNumber | src/wg_manager/cli.py:948-953 | Text where a whole number belongs keeps a table from loading |
| BackupTables.ZonelessMomentIsStored | src/wg_manager/cli.py:590-593 | A moment dumped without a zone is stored as that moment in UTC |
| BackupTables.DeserializeRows | src/wg_manager/cli.py:951 | The rows of a table are decoded one by one, and the first failure is the result |
| BackupTables.FirstRowDecides | src/wg_manager/cli.py:948-953 | Every row that loads is stored with its values in the first row's columns and the fallback in every other column, whatever else it carried |
| BackupTables.LoadedIsSound | src/wg_manager/cli.py:948-953 | Whatever a file contains, a table that loads breaks no constraint |
| BackupTables.DumpedTableLoads | src/wg_manager/cli.py:563-625 | A dumped table that breaks no constraint has the same columns in every row and loads back as the same table |
| BackupTheorems.RestoredIsSound | src/wg_manager/cli.py:926-955 | A restore that succeeds leaves every table and every foreign key sound |
| BackupTheorems.BadEntryFailsTheRestore | src/wg_manager/cli.py:563-597 | One entry that does not decode, in any carried table, makes the whole restore fail |
| BackupTheorems.ZonelessMomentIsRestored | src/wg_manager/cli.py:575-593 | A restore brings a moment that an older backup wrote without a zone back as that moment in UTC |
| BackupTheorems.FullBackupRestores | src/wg_manager/cli.py:547-559 | A full backup of a sound database restored into an empty database, or over any with sound foreign keys when dropping, succeeds and reproduces every row of the source |

## Modelling notes

- Reconfigure: the server row and the client list are two reads of one session; the second sees a
  version no older than the first, which admits both a frozen snapshot and fresh reads. A hub write is
  one step. Crashes requeue the task, as late acknowledgement does.
- Enrollment: token rows are locked by the consuming update until the transaction ends, and names have
  a unique index. Addresses and keys do not; distinctness rests on the advisory lock and on
  what the reads under it see. The isolation level is a parameter of the state. An empty key and the
  address 0 mean not yet set, as for a client that is registered and not provisioned; they clash with
  nothing.
- HostCerts: the premise is the schedule itself, sweeps at most `interval` apart and every dispatched
  rotation done or skipped in less than `latency`. A rotation takes the row lock and signs in one
  step. Time is real; validity starts at the whole second below the signing time.
- Proxy: IPv6 text conversion is an abstract pair that prints what it parses; IPv4 text and v2 binary
  addresses are concrete.
- Renewal: signing is a function of the row that may fail; where a result speaks of the same instant,
  the later run's backend signs for what the first one's did and for what it minted. A
  missing path and an empty one are the same value, as in the code. Shares of a window are exact
  rather than floating-point. A file is what was written to the text form of its path.
- Discovery races: each pass reads from one snapshot; an update writes the columns that differ from
  what was read, and is refused when the row is gone; a pass can fail at any time.
- Backup: ISO 8601 text is an abstract pair with a parse-after-print law. A statement that leaves a
  dangling foreign key, a NULL in a required column, a value of the wrong type, or a duplicate in a
  unique index is refused, as the database does; the proofs show which refusals can happen. One
  statement inserts all rows of a table, with the column names of the first.

## Left out

- Remote work: SSH, WireGuard commands and bootstrap scripts appear only as one hub write or as reported peers.
- Signing: Vault, PKI and SSH CA calls, X.509 and the encrypted backup envelope are opaque libraries; a signature is a validity window with the names certified.
- HTTP: routers, request bodies, audit events, metrics and source-address checks of enrollment act on one request at a time and share no state with the protocols modelled here.
- TLS: the handshake and uvicorn are framework code; only the read buffers it lends are modelled, of any positive size per call.
- Redis limiter and metrics: thin wrappers over a server that is not part of the repository.
- Client registration routers also allocate addresses; they are not part of the enrollment model, which covers redemptions and deletions.
- `certs renew --id`, `--dry-run`, and errors while writing PEM files, which end the run with earlier rows already committed, are not modelled.
- EnrollmentRuns.FreeExactlyWhenNoCommitSince: leaves out deletions and keys, because a deletion can lower the next free address and the equivalence then fails; CleanCommits.DistinctExactlyWhenClean covers both.
- BackupRestore.Database.Restore: does not model reading JSON text or column lengths; a row without an integer primary key is refused, where a database would assign one; all tables have the single primary key `id`, as in the schema.
- HostCerts.CertsNeverLapse: follows one host; hosts do not interact in the sweep. Other tasks that hold a host's row lock are not part of it.
