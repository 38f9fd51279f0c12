# Synchronisation poller of the light node, in Dafny

This project models `SyncPoll.Poll` from `geth/node/syncpoll.go`. The node uses it to wait,
under a caller's context, for the light client's downloader to start synchronising the chain
and then to catch up with the network.

`Poll` runs two loops in sequence:

- Phase 1 (`pollSyncStart`) waits for a timer tick on which `Synchronising()` is true.
- Phase 2 (`pollSyncCompleted`) then waits for a tick on which `Progress()` reports
  `CurrentBlock >= HighestBlock`.

If the context ends during phase 1, `Poll` returns `ErrStartAborted`. If it ends during
phase 2, `Poll` returns `ErrSyncAborted`. Otherwise it returns nil.

The model is in `syncpoll.dfy`, module `SyncPoll`:

- Clocks and the context are replaced by a finite trace of `Event`s. Each event is one pass
  through a loop's `select`. `Cancel` means the context's `Done` case was taken. `Tick(o)`
  means the 100 ms timer fired while the downloader was in state `o`. The order of the trace
  is the order in which `select` picked its cases.
- The downloader is represented only by the observations carried on the ticks. Every call the
  poller makes on it is recorded as a `Query` (`Synchronising` or `Progress`). This makes it
  possible to state when the engine is consulted.
- `Wait` specifies one phase loop. `PollOutcome` and `PollQueries` specify `Poll`.
- The methods `PollSyncStart`, `PollSyncCompleted` and `Poll` are the loops and their
  composition. Each is proved equal to its specification function.
- The lemmas characterise each outcome in terms of the trace.
- `Outcome` has a fourth value, `Pending`. It means the finite trace ran out before the
  poller decided. The Go loops would simply keep waiting.

Two points where a reader might expect other behaviour:

- **Ties.** A reader might expect cancellation to win when the timer and the context are ready
  together. Go's `select` picks between ready cases at random, so the code does not guarantee
  that. The model lets the trace order decide and proves no tie-break rule.
- **When cancellation is seen.** Cancellation is not checked only on a tick. `ctx.Done()` is a
  case of the same `select`, so cancellation ends a phase as soon as `select` takes it, not on
  the next tick. In the model, `Cancel` is an event of its own and does not wait for a tick.

## Model

| member | source | states |
|---|---|---|
| `SyncPoll.Wait` | geth/node/syncpoll.go:46-70 | A phase loop ends on the tick at `next - 1` only if that tick satisfies the phase's condition, at `at` only if that event is a cancellation, and in both cases every earlier event of the phase was a tick that did not satisfy the condition. If the phase never ends, every event it saw was such a tick. |
| `SyncPoll.PollSyncStart` | geth/node/syncpoll.go:46-57 | The phase-1 loop ends exactly where `Wait` says. It asks `Synchronising()` once per tick it takes, and nothing else. |
| `SyncPoll.PollSyncCompleted` | geth/node/syncpoll.go:59-70 | The phase-2 loop, whose condition is `currentBlock >= highestBlock`, ends exactly where `Wait` says. It reads `Progress()` once per tick it takes, and nothing else. |
| `SyncPoll.Poll` | geth/node/syncpoll.go:34-44 | Running phase 1 and then, only on its success, phase 2 from where phase 1 stopped gives `PollOutcome(trace)`. The downloader calls it makes are `PollQueries(trace)`. |
| `SyncPoll.PollTwice` | geth/node/syncpoll.go:20-44 | Two polls on the same trace return the same result. This holds by construction: the model has no poller object, since the Go struct's only field, `downloader`, is never assigned, so `first == second` follows from `Poll`'s contract rather than from a proof about state. |
| `SyncPoll.WaitStopsAtFirstDecision` | geth/node/syncpoll.go:46-70 | Converse of `Wait`'s contract: the first cancellation or satisfying tick after `from` is where the phase ends. |
| `SyncPoll.WaitRunsOut` | geth/node/syncpoll.go:46-70 | A phase whose events are all non-satisfying ticks never ends. |
| `SyncPoll.WaitIgnoresLaterEvents` | geth/node/syncpoll.go:46-70 | Events after the one that ended a phase do not change how that phase ended. |
| `SyncPoll.TicksTaken` | geth/node/syncpoll.go:46-70 | Among the events a phase takes, the number of ticks equals the number of events, minus one when the phase ended on a cancellation. |
| `SyncPoll.StartAbortedIff` | geth/node/syncpoll.go:34-57 | `ErrStartAborted` is returned if and only if a cancellation comes before any phase-1 tick sees `Synchronising()` true. In that case `Progress()` is never read. |
| `SyncPoll.SyncAbortedIff` | geth/node/syncpoll.go:34-70 | `ErrSyncAborted` is returned if and only if phase 1 succeeded at some tick `t`, and a cancellation comes after `t` before any later tick sees the sync complete. |
| `SyncPoll.OkIff` | geth/node/syncpoll.go:34-70 | nil is returned if and only if phase 1 succeeded at some tick `t`, and a later tick `c` sees `currentBlock >= highestBlock`, with only non-completing ticks between `t` and `c`. |
| `SyncPoll.CompletedOnNextTick` | geth/node/syncpoll.go:64-68 | After phase 1 succeeds, the next tick with `currentBlock >= highestBlock` yields nil, whatever `Synchronising()` reports on that tick. |
| `SyncPoll.AheadOfHighestIsDone` | geth/node/syncpoll.go:66 | Completion is `>=`, not `==`: for every trace, once phase 1 has succeeded at tick `t`, a next tick whose current block is above the highest block ends `Poll` with nil. |
| `SyncPoll.QueriesFollowTicks` | geth/node/syncpoll.go:46-70 | The downloader is consulted exactly once per tick `Poll` takes. It is never consulted on entering a phase or on a cancellation. |
| `SyncPoll.CancelledOnEntry` | geth/node/syncpoll.go:46-53 | If the first event is a cancellation, nothing is read and the result is `ErrStartAborted`. |
| `SyncPoll.SynchronisingNotAskedInPhase2` | geth/node/syncpoll.go:34-70 | In the list of calls `Poll` makes, no `Synchronising()` follows a `Progress()`. |
| `SyncPoll.OkNeedsATickPerPhase` | geth/node/syncpoll.go:46-70 | A nil result takes at least two ticks. The first call is `Synchronising()` and the last is `Progress()`, because neither phase checks on entry. |
| `SyncPoll.CompletionIgnoresSynchronising` | geth/node/syncpoll.go:59-70 | How phase 2 ends depends only on cancellations and on the reported block heights. |
| `SyncPoll.Phase2IgnoresSynchronising` | geth/node/syncpoll.go:34-70 | Once phase 1 has succeeded, what later ticks report for `Synchronising()` changes neither the result nor the calls made. Phase 2 never returns to phase 1. |
| `SyncPoll.CancellationDecides` | geth/node/syncpoll.go:46-70 | A cancellation in the trace always decides `Poll` (the result is not `Pending`). No event after it is taken. |
| `SyncPoll.DecisionIsFinal` | geth/node/syncpoll.go:34-70 | Once `Poll` has decided, events appended to the trace change neither the result nor the calls made. |

## Left out

- `NewSyncPoll`: it only wraps the light client's downloader. The downloader is represented
  by the observations on the ticks, so the model has no poller object.
- Real time: the 100 ms interval of `time.After` and context deadlines. A tick is an event,
  not a duration, so no latency bound is stated.
- Go `select` tie-breaking: it is pseudo-random, so the trace order stands for whichever case
  was picked.
- The internals of `downloader.Downloader` and `les.LightEthereum`: they are foreign types,
  consulted only through `Synchronising()` and the two heights of `Progress()`.
- `cmd/wnode-status/main.go`: process plumbing, not part of this model. This covers flag
  parsing, configuration, test accounts, starting the node, waiting on its `started` channel
  and on `node.Wait()`, and the global `backend` variable. The node's start/ready/stop lifecycle
  lives in that file and in the status backend, so it is not modelled either.
- The timers that `time.After` leaves running after each pass: resource use only, with no
  effect on results.
