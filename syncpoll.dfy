/** Model of the node's synchronisation poller (geth/node/syncpoll.go).

    `Poll` waits in two phases: first until the light client's downloader
    reports that it is synchronising, then until its progress shows the
    current block at or past the highest known block. Each phase is a loop
    that, on every pass, either sees the context end or sees the 100 ms timer
    fire and consults the downloader.

    Time and the context are not modelled as clocks: a run of the poller is
    driven by a finite trace of events, one per pass through a `select`, in
    the order `select` picked its cases. What the downloader would answer on
    each tick is carried by the tick itself. */
module SyncPoll {

  /** Block heights, as the downloader's progress reports them. */
  newtype uint64 = x: int | 0 <= x < 0x1_0000_0000_0000_0000

  /** The downloader's state when the poller consults it on a tick:
      what `Synchronising()` and `Progress()` would return. */
  datatype Observation = Observation(synchronising: bool, currentBlock: uint64, highestBlock: uint64)

  /** One pass through a phase loop's `select`: the context is done, or the
      timer fired while the downloader was in state `engine`. */
  datatype Event = Cancel | Tick(engine: Observation)

  /** The two loops of `Poll`: `pollSyncStart` and `pollSyncCompleted`. */
  datatype Phase = SyncStart | SyncCompleted

  /** A call the poller makes on the downloader. */
  datatype Query = Synchronising | Progress

  /** How a phase loop ended: its condition held on the tick at `next - 1`,
      the context ended at `at`, or the trace ran out first. */
  datatype PhaseEnd = Reached(next: nat) | Aborted(at: nat) | Exhausted

  /** What `Poll` returns: nil, `ErrStartAborted`, `ErrSyncAborted`, or no
      decision yet because the trace ran out. */
  datatype Outcome = Ok | StartAborted | SyncAborted | Pending

  /** The condition that ends a phase on a tick. */
  predicate Satisfied(phase: Phase, o: Observation)
  {
    match phase
    case SyncStart => o.synchronising
    case SyncCompleted => o.currentBlock >= o.highestBlock
  }

  /** The downloader call a phase makes on each tick. */
  function Asks(phase: Phase): Query
  {
    match phase
    case SyncStart => Synchronising
    case SyncCompleted => Progress
  }

  /** The event ends the phase's loop, by cancellation or by its condition. */
  predicate Decides(phase: Phase, e: Event)
  {
    match e
    case Cancel => true
    case Tick(o) => Satisfied(phase, o)
  }

  /** Every event in `trace[lo..hi]` is a tick on which `phase` keeps waiting. */
  ghost predicate StillWaiting(trace: seq<Event>, lo: nat, hi: nat, phase: Phase)
    requires lo <= hi <= |trace|
  {
    forall k :: lo <= k < hi ==> !Decides(phase, trace[k])
  }

  /** Phase 1 succeeded on the tick at index `t`: it saw the downloader
      synchronising there, and nothing before ended the phase. */
  ghost predicate StartObservedAt(trace: seq<Event>, t: nat)
  {
    t < |trace| && StillWaiting(trace, 0, t, SyncStart)
    && trace[t].Tick? && trace[t].engine.synchronising
  }

  // ---------------------------------------------------------------------
  // Specification of one phase and of Poll
  // ---------------------------------------------------------------------

  /** Where a phase loop started at `from` ends: at the first event that
      decides it, or nowhere if the trace runs out. */
  function Wait(trace: seq<Event>, from: nat, phase: Phase): (r: PhaseEnd)
    requires from <= |trace|
    ensures r.Reached? ==>
      from < r.next <= |trace| && StillWaiting(trace, from, r.next - 1, phase)
      && trace[r.next - 1].Tick? && Satisfied(phase, trace[r.next - 1].engine)
    ensures r.Aborted? ==>
      from <= r.at < |trace| && StillWaiting(trace, from, r.at, phase) && trace[r.at] == Cancel
    ensures r.Exhausted? ==> StillWaiting(trace, from, |trace|, phase)
    decreases |trace| - from
  {
    if from == |trace| then Exhausted
    else match trace[from]
      case Cancel => Aborted(from)
      case Tick(o) => if Satisfied(phase, o) then Reached(from + 1) else Wait(trace, from + 1, phase)
  }

  /** Index just past the last event the phase loop takes from the trace. */
  function PhaseStop(trace: seq<Event>, from: nat, phase: Phase): (stop: nat)
    requires from <= |trace|
    ensures from <= stop <= |trace|
  {
    match Wait(trace, from, phase)
    case Reached(n) => n
    case Aborted(k) => k + 1
    case Exhausted => |trace|
  }

  /** Number of timer ticks in a stretch of the trace. */
  function Ticks(s: seq<Event>): (n: nat)
    ensures n <= |s|
  {
    if s == [] then 0 else Ticks(s[..|s| - 1]) + (if s[|s| - 1].Tick? then 1 else 0)
  }

  function Repeat(q: Query, n: nat): (s: seq<Query>)
    ensures |s| == n && forall i :: 0 <= i < n ==> s[i] == q
  {
    seq(n, _ => q)
  }

  /** The downloader calls a phase loop makes: one per tick it takes. */
  function PhaseQueries(trace: seq<Event>, from: nat, phase: Phase): seq<Query>
    requires from <= |trace|
  {
    Repeat(Asks(phase), Ticks(trace[from..PhaseStop(trace, from, phase)]))
  }

  /** `Poll`: phase 2 runs only if phase 1 succeeded, from where it stopped. */
  function PollOutcome(trace: seq<Event>): Outcome
  {
    match Wait(trace, 0, SyncStart)
    case Aborted(_) => StartAborted
    case Exhausted => Pending
    case Reached(n) =>
      match Wait(trace, n, SyncCompleted)
      case Aborted(_) => SyncAborted
      case Exhausted => Pending
      case Reached(_) => Ok
  }

  /** Index just past the last event `Poll` takes from the trace. */
  function Consumed(trace: seq<Event>): nat
  {
    match Wait(trace, 0, SyncStart)
    case Reached(n) => PhaseStop(trace, n, SyncCompleted)
    case _ => PhaseStop(trace, 0, SyncStart)
  }

  /** The downloader calls `Poll` makes, in order. */
  function PollQueries(trace: seq<Event>): seq<Query>
  {
    PhaseQueries(trace, 0, SyncStart)
    + match Wait(trace, 0, SyncStart)
      case Reached(n) => PhaseQueries(trace, n, SyncCompleted)
      case _ => []
  }

  // ---------------------------------------------------------------------
  // The poller
  // ---------------------------------------------------------------------

  /** `pollSyncStart`: on each tick ask the downloader whether it is
      synchronising; stop when it is, or when the context ends. */
  method PollSyncStart(trace: seq<Event>, from: nat) returns (r: PhaseEnd, asked: seq<Query>)
    requires from <= |trace|
    ensures r == Wait(trace, from, SyncStart)
    ensures asked == PhaseQueries(trace, from, SyncStart)
  {
    var i := from;
    asked := [];
    while i < |trace|
      invariant from <= i <= |trace|
      invariant Wait(trace, i, SyncStart) == Wait(trace, from, SyncStart)
      invariant asked == Repeat(Synchronising, i - from)
      decreases |trace| - i
    {
      if trace[i].Cancel? {
        r := Aborted(i);
        TicksTaken(trace, from, SyncStart);
        return;
      }
      var o := trace[i].engine;
      asked := asked + [Synchronising];
      if o.synchronising {
        r := Reached(i + 1);
        TicksTaken(trace, from, SyncStart);
        return;
      }
      i := i + 1;
    }
    r := Exhausted;
    TicksTaken(trace, from, SyncStart);
  }

  /** `pollSyncCompleted`: on each tick read the downloader's progress; stop
      when the current block is at or past the highest block, or when the
      context ends. */
  method PollSyncCompleted(trace: seq<Event>, from: nat) returns (r: PhaseEnd, asked: seq<Query>)
    requires from <= |trace|
    ensures r == Wait(trace, from, SyncCompleted)
    ensures asked == PhaseQueries(trace, from, SyncCompleted)
  {
    var i := from;
    asked := [];
    while i < |trace|
      invariant from <= i <= |trace|
      invariant Wait(trace, i, SyncCompleted) == Wait(trace, from, SyncCompleted)
      invariant asked == Repeat(Progress, i - from)
      decreases |trace| - i
    {
      if trace[i].Cancel? {
        r := Aborted(i);
        TicksTaken(trace, from, SyncCompleted);
        return;
      }
      var o := trace[i].engine;
      asked := asked + [Progress];
      if o.currentBlock >= o.highestBlock {
        r := Reached(i + 1);
        TicksTaken(trace, from, SyncCompleted);
        return;
      }
      i := i + 1;
    }
    r := Exhausted;
    TicksTaken(trace, from, SyncCompleted);
  }

  /** `Poll`: phase 1, then, only if it succeeded, phase 2 from where phase 1
      stopped; the first error is returned. */
  method Poll(trace: seq<Event>) returns (r: Outcome, asked: seq<Query>)
    ensures r == PollOutcome(trace)
    ensures asked == PollQueries(trace)
  {
    var started, startQueries := PollSyncStart(trace, 0);
    match started
    case Aborted(_) =>
      r, asked := StartAborted, startQueries;
    case Exhausted =>
      r, asked := Pending, startQueries;
    case Reached(n) =>
      var completed, progressQueries := PollSyncCompleted(trace, n);
      asked := startQueries + progressQueries;
      match completed
      case Aborted(_) => r := SyncAborted;
      case Exhausted => r := Pending;
      case Reached(_) => r := Ok;
  }

  /** Two polls on the same trace agree: the poller keeps no state between
      calls. */
  method PollTwice(trace: seq<Event>) returns (first: Outcome, second: Outcome)
    ensures first == second && second == PollOutcome(trace)
  {
    var asked;
    first, asked := Poll(trace);
    second, asked := Poll(trace);
  }

  // ---------------------------------------------------------------------
  // Lemmas about ticks and phases
  // ---------------------------------------------------------------------

  lemma {:induction false} TicksOfTicks(s: seq<Event>)
    requires forall k :: 0 <= k < |s| ==> s[k].Tick?
    ensures Ticks(s) == |s|
    decreases |s|
  {
    if s != [] {
      TicksOfTicks(s[..|s| - 1]);
    }
  }

  lemma {:induction false} TicksAppend(a: seq<Event>, b: seq<Event>)
    ensures Ticks(a + b) == Ticks(a) + Ticks(b)
    decreases |b|
  {
    if b != [] {
      assert (a + b)[..|a + b| - 1] == a + b[..|b| - 1];
      TicksAppend(a, b[..|b| - 1]);
    } else {
      assert a + b == a;
    }
  }

  /** Events on which a phase keeps waiting are all ticks. */
  lemma AllTicksWhileWaiting(trace: seq<Event>, lo: nat, hi: nat, phase: Phase)
    requires lo <= hi <= |trace| && StillWaiting(trace, lo, hi, phase)
    ensures Ticks(trace[lo..hi]) == hi - lo
  {
    forall j | 0 <= j < hi - lo
      ensures trace[lo..hi][j].Tick?
    {
      assert !Decides(phase, trace[lo + j]);
    }
    TicksOfTicks(trace[lo..hi]);
  }

  /** A phase consults the downloader once per event it takes, except for a
      final cancellation. */
  lemma TicksTaken(trace: seq<Event>, from: nat, phase: Phase)
    requires from <= |trace|
    ensures Ticks(trace[from..PhaseStop(trace, from, phase)])
         == PhaseStop(trace, from, phase) - from - (if Wait(trace, from, phase).Aborted? then 1 else 0)
  {
    var stop := PhaseStop(trace, from, phase);
    match Wait(trace, from, phase)
    case Aborted(k) =>
      AllTicksWhileWaiting(trace, from, k, phase);
      assert trace[from..stop] == trace[from..k] + [trace[k]];
      TicksAppend(trace[from..k], [trace[k]]);
      assert Ticks([trace[k]]) == 0;
    case Reached(n) =>
      AllTicksWhileWaiting(trace, from, n - 1, phase);
      assert trace[from..stop] == trace[from..n - 1] + [trace[n - 1]];
      TicksAppend(trace[from..n - 1], [trace[n - 1]]);
      assert Ticks([trace[n - 1]]) == 1;
    case Exhausted =>
      AllTicksWhileWaiting(trace, from, |trace|, phase);
  }

  /** A phase ends at the first event that decides it: the converse of
      `Wait`'s contract. */
  lemma {:induction false} WaitStopsAtFirstDecision(trace: seq<Event>, from: nat, k: nat, phase: Phase)
    requires from <= k < |trace|
    requires StillWaiting(trace, from, k, phase) && Decides(phase, trace[k])
    ensures Wait(trace, from, phase) == if trace[k].Cancel? then Aborted(k) else Reached(k + 1)
    decreases k - from
  {
    if from < k {
      assert !Decides(phase, trace[from]);
      WaitStopsAtFirstDecision(trace, from + 1, k, phase);
    }
  }

  /** A phase whose events all keep it waiting does not end. */
  lemma {:induction false} WaitRunsOut(trace: seq<Event>, from: nat, phase: Phase)
    requires from <= |trace| && StillWaiting(trace, from, |trace|, phase)
    ensures Wait(trace, from, phase) == Exhausted
    decreases |trace| - from
  {
    if from < |trace| {
      assert !Decides(phase, trace[from]);
      WaitRunsOut(trace, from + 1, phase);
    }
  }

  /** Events after the one that ended a phase do not change how it ended. */
  lemma {:induction false} WaitIgnoresLaterEvents(trace: seq<Event>, more: seq<Event>, from: nat, phase: Phase)
    requires from <= |trace| && !Wait(trace, from, phase).Exhausted?
    ensures Wait(trace + more, from, phase) == Wait(trace, from, phase)
    decreases |trace| - from
  {
    var t := trace + more;
    assert t[from] == trace[from];
    match trace[from]
    case Cancel =>
    case Tick(o) =>
      if !Satisfied(phase, o) {
        WaitIgnoresLaterEvents(trace, more, from + 1, phase);
      }
  }

  // ---------------------------------------------------------------------
  // Properties of Poll
  // ---------------------------------------------------------------------

  /** `ErrStartAborted` exactly when the context ends before any phase-1 tick
      saw the downloader synchronising; phase 2 then never runs. */
  lemma StartAbortedIff(trace: seq<Event>)
    ensures PollOutcome(trace) == StartAborted <==>
      exists k: nat :: k < |trace| && trace[k] == Cancel && StillWaiting(trace, 0, k, SyncStart)
    ensures PollOutcome(trace) == StartAborted ==> Progress !in PollQueries(trace)
  {
    if exists k: nat :: k < |trace| && trace[k] == Cancel && StillWaiting(trace, 0, k, SyncStart) {
      var k: nat :| k < |trace| && trace[k] == Cancel && StillWaiting(trace, 0, k, SyncStart);
      WaitStopsAtFirstDecision(trace, 0, k, SyncStart);
    }
  }

  /** `ErrSyncAborted` exactly when phase 1 succeeded at some tick `t` and the
      context ended after it, before any phase-2 tick saw the sync complete. */
  lemma SyncAbortedIff(trace: seq<Event>)
    ensures PollOutcome(trace) == SyncAborted <==>
      exists t: nat, k: nat :: StartObservedAt(trace, t) && t < k < |trace| && trace[k] == Cancel
                               && StillWaiting(trace, t + 1, k, SyncCompleted)
  {
    if PollOutcome(trace) == SyncAborted {
      var n := Wait(trace, 0, SyncStart).next;
      assert StartObservedAt(trace, n - 1);
      var k := Wait(trace, n, SyncCompleted).at;
      assert trace[k] == Cancel && StillWaiting(trace, n, k, SyncCompleted);
    }
    if exists t: nat, k: nat :: StartObservedAt(trace, t) && t < k < |trace| && trace[k] == Cancel
                                && StillWaiting(trace, t + 1, k, SyncCompleted) {
      var t: nat, k: nat :| StartObservedAt(trace, t) && t < k < |trace| && trace[k] == Cancel
                            && StillWaiting(trace, t + 1, k, SyncCompleted);
      WaitStopsAtFirstDecision(trace, 0, t, SyncStart);
      WaitStopsAtFirstDecision(trace, t + 1, k, SyncCompleted);
    }
  }

  /** nil exactly when phase 1 saw the downloader synchronising at some tick
      `t` and a later tick `c`, with no cancellation or completion between,
      saw the current block at or past the highest block. */
  lemma OkIff(trace: seq<Event>)
    ensures PollOutcome(trace) == Ok <==>
      exists t: nat, c: nat :: StartObservedAt(trace, t) && t < c < |trace|
                               && StillWaiting(trace, t + 1, c, SyncCompleted)
                               && trace[c].Tick? && trace[c].engine.currentBlock >= trace[c].engine.highestBlock
  {
    if PollOutcome(trace) == Ok {
      var n := Wait(trace, 0, SyncStart).next;
      assert StartObservedAt(trace, n - 1);
      var m := Wait(trace, n, SyncCompleted).next;
      assert trace[m - 1].Tick? && trace[m - 1].engine.currentBlock >= trace[m - 1].engine.highestBlock;
      assert StillWaiting(trace, n, m - 1, SyncCompleted);
    }
    if exists t: nat, c: nat :: StartObservedAt(trace, t) && t < c < |trace|
                                && StillWaiting(trace, t + 1, c, SyncCompleted)
                                && trace[c].Tick? && trace[c].engine.currentBlock >= trace[c].engine.highestBlock {
      var t: nat, c: nat :| StartObservedAt(trace, t) && t < c < |trace|
                            && StillWaiting(trace, t + 1, c, SyncCompleted)
                            && trace[c].Tick? && trace[c].engine.currentBlock >= trace[c].engine.highestBlock;
      WaitStopsAtFirstDecision(trace, 0, t, SyncStart);
      WaitStopsAtFirstDecision(trace, t + 1, c, SyncCompleted);
    }
  }

  /** Completion is `>=`: once phase 1 has succeeded, the next tick whose
      current block is at or past the highest block ends `Poll` with nil,
      whatever `Synchronising()` says on that tick. */
  lemma CompletedOnNextTick(trace: seq<Event>, t: nat)
    requires StartObservedAt(trace, t) && t + 1 < |trace|
    requires trace[t + 1].Tick? && trace[t + 1].engine.currentBlock >= trace[t + 1].engine.highestBlock
    ensures PollOutcome(trace) == Ok
  {
    WaitStopsAtFirstDecision(trace, 0, t, SyncStart);
  }

  /** A downloader already past the highest block it knows counts as done:
      the completion test is `>=`, not `==`. */
  lemma AheadOfHighestIsDone(trace: seq<Event>, t: nat)
    requires StartObservedAt(trace, t) && t + 1 < |trace|
    requires trace[t + 1].Tick? && trace[t + 1].engine.currentBlock > trace[t + 1].engine.highestBlock
    ensures PollOutcome(trace) == Ok
  {
    CompletedOnNextTick(trace, t);
  }

  /** The downloader is consulted exactly once per timer tick `Poll` takes,
      never on entering a phase, and never on a cancellation. */
  lemma QueriesFollowTicks(trace: seq<Event>)
    ensures |PollQueries(trace)| == Ticks(trace[..Consumed(trace)])
  {
    TicksTaken(trace, 0, SyncStart);
    match Wait(trace, 0, SyncStart)
    case Reached(n) =>
      var stop := PhaseStop(trace, n, SyncCompleted);
      TicksTaken(trace, n, SyncCompleted);
      assert trace[..stop] == trace[0..n] + trace[n..stop];
      TicksAppend(trace[0..n], trace[n..stop]);
    case _ =>
      assert trace[..Consumed(trace)] == trace[0..PhaseStop(trace, 0, SyncStart)];
  }

  /** A context that is already done on entry: nothing is read and the
      result is `ErrStartAborted`. */
  lemma CancelledOnEntry(trace: seq<Event>)
    requires |trace| > 0 && trace[0] == Cancel
    ensures PollOutcome(trace) == StartAborted && PollQueries(trace) == []
  {
  }

  /** Once phase 2 has begun, `Synchronising()` is never asked again. */
  lemma SynchronisingNotAskedInPhase2(trace: seq<Event>)
    ensures forall i, j :: 0 <= i < j < |PollQueries(trace)| && PollQueries(trace)[i] == Progress
                           ==> PollQueries(trace)[j] == Progress
  {
  }

  /** nil takes at least two ticks: one in each phase, since neither phase
      checks on entry. */
  lemma OkNeedsATickPerPhase(trace: seq<Event>)
    requires PollOutcome(trace) == Ok
    ensures |PollQueries(trace)| >= 2
    ensures PollQueries(trace)[0] == Synchronising
    ensures PollQueries(trace)[|PollQueries(trace)| - 1] == Progress
  {
    TicksTaken(trace, 0, SyncStart);
    match Wait(trace, 0, SyncStart)
    case Reached(n) =>
      TicksTaken(trace, n, SyncCompleted);
  }

  /** Two events that differ at most in what `Synchronising()` reported. */
  predicate SameProgress(a: Event, b: Event)
  {
    match a
    case Cancel => b.Cancel?
    case Tick(o) => b.Tick? && b.engine.currentBlock == o.currentBlock && b.engine.highestBlock == o.highestBlock
  }

  lemma {:induction false} CompletionIgnoresSynchronising(trace: seq<Event>, other: seq<Event>, from: nat)
    requires from <= |trace| == |other|
    requires forall k :: from <= k < |trace| ==> SameProgress(trace[k], other[k])
    ensures Wait(other, from, SyncCompleted) == Wait(trace, from, SyncCompleted)
    decreases |trace| - from
  {
    if from < |trace| {
      assert SameProgress(trace[from], other[from]);
      CompletionIgnoresSynchronising(trace, other, from + 1);
    }
  }

  /** Phase 2 never returns to phase 1: once phase 1 succeeded at tick `t`,
      what later ticks report for `Synchronising()` changes neither the
      result nor the calls made. */
  lemma Phase2IgnoresSynchronising(trace: seq<Event>, other: seq<Event>, t: nat)
    requires StartObservedAt(trace, t) && |other| == |trace|
    requires forall k :: 0 <= k <= t ==> other[k] == trace[k]
    requires forall k :: t < k < |trace| ==> SameProgress(trace[k], other[k])
    ensures PollOutcome(other) == PollOutcome(trace)
    ensures PollQueries(other) == PollQueries(trace)
  {
    assert StartObservedAt(other, t);
    WaitStopsAtFirstDecision(trace, 0, t, SyncStart);
    WaitStopsAtFirstDecision(other, 0, t, SyncStart);
    CompletionIgnoresSynchronising(trace, other, t + 1);
    assert other[0..t + 1] == trace[0..t + 1];
    TicksTaken(trace, t + 1, SyncCompleted);
    TicksTaken(other, t + 1, SyncCompleted);
  }

  /** A cancellation always ends `Poll`: the result is decided and nothing
      after the cancellation is taken from the trace. */
  lemma CancellationDecides(trace: seq<Event>, k: nat)
    requires k < |trace| && trace[k] == Cancel
    ensures PollOutcome(trace) != Pending
    ensures Consumed(trace) <= k + 1
  {
    assert Decides(SyncStart, trace[k]) && Decides(SyncCompleted, trace[k]);
  }

  /** Once `Poll` has decided, later events change neither the result nor
      the calls made. */
  lemma DecisionIsFinal(trace: seq<Event>, more: seq<Event>)
    requires PollOutcome(trace) != Pending
    ensures PollOutcome(trace + more) == PollOutcome(trace)
    ensures PollQueries(trace + more) == PollQueries(trace)
  {
    var t := trace + more;
    WaitIgnoresLaterEvents(trace, more, 0, SyncStart);
    assert t[0..PhaseStop(trace, 0, SyncStart)] == trace[0..PhaseStop(trace, 0, SyncStart)];
    match Wait(trace, 0, SyncStart)
    case Reached(n) =>
      WaitIgnoresLaterEvents(trace, more, n, SyncCompleted);
      assert t[n..PhaseStop(trace, n, SyncCompleted)] == trace[n..PhaseStop(trace, n, SyncCompleted)];
    case _ =>
  }
}
