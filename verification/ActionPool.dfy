/**
 executeActions of internal/capability/marketapp/marketapp_actions.go: a sender, a pool of
 workers and a record closure that share counters, a list of entries and a cancellable context.

 Every run is a sequence of atomic steps: a rendezvous on the unbuffered task channel, a check
 of the context, a call of the executor, one call of the record closure under its mutex.
 */
module ActionPool {
  import opened Collections

  /** How an executed action ended: accepted, rejected by the market, or with an error. */
  datatype Outcome = Accepted | Rejected | Errored

  datatype Entry = Entry(index: nat, outcome: Outcome)

  datatype Sender = AtSend | AtCheck | Closed

  /** Where a worker is; index is the task it holds. */
  datatype Worker =
    | Waiting
    | Holding(index: nat)                       // received, the context not yet checked
    | Working(index: nat)                       // the executor runs
    | Recording(index: nat, outcome: Outcome)   // about to record
    | Sleeping                                  // the delay between two tasks
    | Exited

  /** What stays fixed: the number of actions, the settings, and the actions of the job so far. */
  datatype Setup = Setup(count: nat, continueOnError: bool, limit: nat, before: seq<Entry>)

  datatype Cause = NoError | OfEntry(index: nat) | OfPanic

  datatype Shared = Shared(
    entries: seq<Entry>,
    failed: nat,
    firstErr: Cause,
    jobActions: seq<Entry>,
    cancelled: bool,       // workCtx
    panics: nat)           // the recoveries in workers, which the program does not count apart

  datatype Pool = Pool(
    sender: Sender,
    sent: nat,
    workers: seq<Worker>,
    shared: Shared,
    executed: seq<nat>,    // the calls of Execute that returned, oldest first
    aborted: bool)         // the context of the caller was cancelled

  datatype Event =
    | Hand(w: nat)
    | SenderChecks
    | SenderStops
    | WorkerChecks(w: nat)
    | Executes(w: nat, outcome: Outcome)
    | Records(w: nat)
    | FeedbackPanics(w: nat)
    | Wakes(w: nat)
    | QuitsSleeping(w: nat)
    | Drains(w: nat)
    | Abort

  function Bad(e: Entry): bool { e.outcome != Accepted }

  // ----- the shared part -----

  /** The part of the record closure under its mutex. */
  function Recorded(x: Setup, s: Shared, e: Entry): Shared {
    var firstErr := if Bad(e) && s.firstErr == NoError then OfEntry(e.index) else s.firstErr;
    Shared(
      s.entries + [e],
      if Bad(e) then s.failed + 1 else s.failed,
      firstErr,
      if |s.jobActions| < x.limit then s.jobActions + [e] else s.jobActions,
      s.cancelled || (!x.continueOnError && firstErr != NoError),
      s.panics)
  }

  /** The deferred recovery of a worker. */
  function Recovered(s: Shared): Shared {
    s.(failed := s.failed + 1, panics := s.panics + 1, cancelled := true,
       firstErr := if s.firstErr == NoError then OfPanic else s.firstErr)
  }

  function InitialShared(x: Setup): Shared {
    Shared([], 0, NoError, x.before, false, 0)
  }

  function Initial(x: Setup, workers: nat): Pool
    requires x.count > 0
  {
    Pool(AtSend, 0, seq(workers, _ => Waiting), InitialShared(x), [], false)
  }

  /** How many workers are started. */
  function WorkerCount(maxConcurrent: Int64, configured: Int64, actions: nat): (n: nat)
    requires actions > 0
    ensures 1 <= n <= actions
    ensures maxConcurrent > 0 ==> n <= maxConcurrent && (n == maxConcurrent || n == actions)
    ensures maxConcurrent <= 0 && configured > 0 ==> n <= configured && (n == configured || n == actions)
    ensures maxConcurrent <= 0 && configured <= 0 ==> n <= 32 && (n == 32 || n == actions)
  {
    var wanted := if maxConcurrent > 0 then maxConcurrent else if configured > 0 then configured else 32;
    if wanted > actions then actions else wanted
  }

  // ----- steps -----

  predicate At(p: Pool, w: nat) { w < |p.workers| }

  predicate Enabled(x: Setup, p: Pool, e: Event) {
    match e
    case Hand(w) => p.sender == AtSend && At(p, w) && p.workers[w] == Waiting
    case SenderChecks => p.sender == AtCheck
    case SenderStops => p.sender == AtSend && p.shared.cancelled
    case WorkerChecks(w) => At(p, w) && p.workers[w].Holding?
    case Executes(w, _) => At(p, w) && p.workers[w].Working?
    case Records(w) => At(p, w) && p.workers[w].Recording?
    case FeedbackPanics(w) => At(p, w) && p.workers[w].Recording? && p.workers[w].outcome != Accepted
    case Wakes(w) => At(p, w) && p.workers[w] == Sleeping
    case QuitsSleeping(w) => At(p, w) && p.workers[w] == Sleeping && p.shared.cancelled
    case Drains(w) => At(p, w) && p.workers[w] == Waiting && p.sender == Closed
    case Abort => true
  }

  function Move(p: Pool, w: nat, now: Worker): Pool
    requires At(p, w)
  {
    p.(workers := p.workers[w := now])
  }

  function Step(x: Setup, p: Pool, e: Event): Pool
    requires Enabled(x, p, e)
  {
    match e
    case Hand(w) => Move(p, w, Holding(p.sent)).(sender := AtCheck, sent := p.sent + 1)
    case SenderChecks => p.(sender := if p.shared.cancelled || p.sent >= x.count then Closed else AtSend)
    case SenderStops => p.(sender := Closed)
    case WorkerChecks(w) => Move(p, w, if p.shared.cancelled then Exited else Working(p.workers[w].index))
    case Executes(w, outcome) =>
      Move(p, w, Recording(p.workers[w].index, outcome)).(executed := p.executed + [p.workers[w].index])
    case Records(w) =>
      Move(p, w, Sleeping).(shared := Recorded(x, p.shared, Entry(p.workers[w].index, p.workers[w].outcome)))
    case FeedbackPanics(w) => Move(p, w, Exited).(shared := Recovered(p.shared))
    case Wakes(w) => Move(p, w, Waiting)
    case QuitsSleeping(w) => Move(p, w, Exited)
    case Drains(w) => Move(p, w, Exited)
    case Abort => p.(shared := p.shared.(cancelled := true), aborted := true)
  }

  /** wg.Wait returns: the function is about to return. */
  predicate Finished(p: Pool) {
    p.sender == Closed && forall w :: 0 <= w < |p.workers| ==> p.workers[w] == Exited
  }

  // ----- the record -----

  function BadCount(entries: seq<Entry>): nat {
    if entries == [] then 0
    else BadCount(entries[..|entries| - 1]) + (if Bad(entries[|entries| - 1]) then 1 else 0)
  }

  /** How many of n entries still fit into the job. */
  function Room(x: Setup, n: nat): (k: nat)
    ensures k <= n
  {
    if |x.before| >= x.limit then 0 else if n < x.limit - |x.before| then n else x.limit - |x.before|
  }

  ghost predicate SharedInv(x: Setup, s: Shared) {
    && s.failed == BadCount(s.entries) + s.panics
    && (s.firstErr == NoError <==> s.failed == 0)
    && s.jobActions == x.before + s.entries[..Room(x, |s.entries|)]
    && (!x.continueOnError && s.firstErr != NoError ==> s.cancelled)
    && (s.panics > 0 ==> s.cancelled)
  }

  lemma RecordKeepsInv(x: Setup, s: Shared, e: Entry)
    requires SharedInv(x, s)
    ensures SharedInv(x, Recorded(x, s, e))
  {
    var t := Recorded(x, s, e);
    assert t.entries[..|t.entries| - 1] == s.entries;
    assert t.entries[..Room(x, |s.entries|)] == s.entries[..Room(x, |s.entries|)];
  }

  lemma RecoverKeepsInv(x: Setup, s: Shared)
    requires SharedInv(x, s)
    ensures SharedInv(x, Recovered(s))
  {
  }

  // ----- who has which task -----

  ghost predicate Holds(worker: Worker, i: nat) {
    (worker.Holding? || worker.Working? || worker.Recording?) && worker.index == i
  }

  ghost predicate InEntries(entries: seq<Entry>, i: nat) {
    exists k :: 0 <= k < |entries| && entries[k].index == i
  }

  ghost predicate Held(p: Pool, i: nat) {
    exists w :: 0 <= w < |p.workers| && Holds(p.workers[w], i)
  }

  ghost predicate DistinctEntries(entries: seq<Entry>) {
    forall j, k :: 0 <= j < k < |entries| ==> entries[j].index != entries[k].index
  }

  ghost predicate DistinctNats(s: seq<nat>) {
    forall j, k :: 0 <= j < k < |s| ==> s[j] != s[k]
  }

  /** A task that a worker holds belongs to it alone, and is neither recorded nor, before the
      executor returned, executed. */
  ghost predicate Owned(p: Pool, w: nat, i: nat)
    requires At(p, w)
  {
    && i < p.sent && !InEntries(p.shared.entries, i)
    && (i in p.executed <==> p.workers[w].Recording?)
    && (forall v :: 0 <= v < |p.workers| && Holds(p.workers[v], i) ==> v == w)
  }

  ghost predicate Ownership(p: Pool) {
    forall w, i: nat :: 0 <= w < |p.workers| && Holds(p.workers[w], i) ==> Owned(p, w, i)
  }

  ghost predicate Books(p: Pool) {
    && DistinctEntries(p.shared.entries) && DistinctNats(p.executed)
    && (forall k :: 0 <= k < |p.shared.entries| ==> p.shared.entries[k].index in p.executed)
    && (forall k :: 0 <= k < |p.executed| ==> p.executed[k] < p.sent)
  }

  ghost predicate NothingLost(p: Pool) {
    !p.shared.cancelled ==> forall i: nat :: i < p.sent ==> InEntries(p.shared.entries, i) || Held(p, i)
  }

  ghost predicate Progressing(x: Setup, p: Pool) {
    && p.sent <= x.count
    && (p.sender == AtSend ==> p.sent < x.count)
    && (p.sender == Closed && !p.shared.cancelled ==> p.sent == x.count)
    && (p.sender != Closed && !p.shared.cancelled ==> forall w :: 0 <= w < |p.workers| ==> p.workers[w] != Exited)
    && (p.shared.cancelled <==>
          p.aborted || p.shared.panics > 0 || (!x.continueOnError && p.shared.firstErr != NoError))
  }

  ghost predicate Inv(x: Setup, p: Pool) {
    SharedInv(x, p.shared) && Ownership(p) && Books(p) && NothingLost(p) && Progressing(x, p)
  }

  lemma InitialInv(x: Setup, workers: nat)
    requires x.count > 0
    ensures Inv(x, Initial(x, workers))
  {
  }

  lemma StepKeepsShared(x: Setup, p: Pool, e: Event)
    requires SharedInv(x, p.shared) && Enabled(x, p, e)
    ensures SharedInv(x, Step(x, p, e).shared)
  {
    match e
    case Records(w) => RecordKeepsInv(x, p.shared, Entry(p.workers[w].index, p.workers[w].outcome));
    case FeedbackPanics(w) => RecoverKeepsInv(x, p.shared);
    case _ =>
  }

  lemma StepKeepsOwnership(x: Setup, p: Pool, e: Event)
    requires Ownership(p) && Books(p) && Enabled(x, p, e)
    ensures Ownership(Step(x, p, e))
  {
    var q := Step(x, p, e);
    forall w, i: nat | 0 <= w < |q.workers| && Holds(q.workers[w], i) ensures Owned(q, w, i) {
      if Holds(p.workers[w], i) {
        assert Owned(p, w, i);
      }
    }
  }

  lemma StepKeepsBooks(x: Setup, p: Pool, e: Event)
    requires Ownership(p) && Books(p) && Enabled(x, p, e)
    ensures Books(Step(x, p, e))
  {
    match e
    case Executes(w, _) => assert Holds(p.workers[w], p.workers[w].index);
    case Records(w) => assert Holds(p.workers[w], p.workers[w].index);
    case _ =>
  }

  lemma StepLosesNothing(x: Setup, p: Pool, e: Event)
    requires NothingLost(p) && Enabled(x, p, e)
    ensures NothingLost(Step(x, p, e))
  {
    var q := Step(x, p, e);
    if !q.shared.cancelled {
      forall i: nat | i < q.sent ensures InEntries(q.shared.entries, i) || Held(q, i) {
        if i < p.sent {
          if InEntries(p.shared.entries, i) {
            var k :| 0 <= k < |p.shared.entries| && p.shared.entries[k].index == i;
            assert q.shared.entries[k].index == i;
          } else {
            var w :| 0 <= w < |p.workers| && Holds(p.workers[w], i);
            if e == Records(w) {
              assert q.shared.entries[|p.shared.entries|].index == i;
            } else {
              assert Holds(q.workers[w], i);
            }
          }
        } else {
          assert Holds(q.workers[e.w], i);
        }
      }
    }
  }

  lemma StepKeepsProgress(x: Setup, p: Pool, e: Event)
    requires Progressing(x, p) && SharedInv(x, p.shared) && Enabled(x, p, e)
    ensures Progressing(x, Step(x, p, e))
  {
  }

  lemma StepKeepsInv(x: Setup, p: Pool, e: Event)
    requires Inv(x, p) && Enabled(x, p, e)
    ensures Inv(x, Step(x, p, e))
  {
    StepKeepsShared(x, p, e);
    StepKeepsOwnership(x, p, e);
    StepKeepsBooks(x, p, e);
    StepLosesNothing(x, p, e);
    StepKeepsProgress(x, p, e);
    hide SharedInv, Ownership, Books, NothingLost, Progressing;
  }

  lemma SameWorkers(x: Setup, p: Pool, e: Event)
    requires Enabled(x, p, e)
    ensures |Step(x, p, e).workers| == |p.workers|
  {
    hide Recorded, Recovered;
  }

  // ----- runs -----

  ghost predicate IsRun(x: Setup, workers: nat, run: seq<Pool>, events: seq<Event>) {
    && x.count > 0 && workers > 0
    && |run| == |events| + 1 && run[0] == Initial(x, workers)
    && forall k :: 0 <= k < |events| ==> Enabled(x, run[k], events[k]) && run[k + 1] == Step(x, run[k], events[k])
  }

  lemma {:induction false} RunKeepsInv(x: Setup, workers: nat, run: seq<Pool>, events: seq<Event>, k: nat)
    requires IsRun(x, workers, run, events) && k < |run|
    ensures Inv(x, run[k]) && |run[k].workers| == workers
  {
    if k == 0 {
      InitialInv(x, workers);
    } else {
      RunKeepsInv(x, workers, run, events, k - 1);
      StepKeepsInv(x, run[k - 1], events[k - 1]);
      SameWorkers(x, run[k - 1], events[k - 1]);
      hide Inv, Step, Enabled;
    }
  }

  /** At no time is an action executed twice or recorded twice; only executed actions are recorded. */
  lemma AtMostOnce(x: Setup, workers: nat, run: seq<Pool>, events: seq<Event>, k: nat)
    requires IsRun(x, workers, run, events) && k < |run|
    ensures DistinctEntries(run[k].shared.entries) && DistinctNats(run[k].executed)
    ensures forall j :: 0 <= j < |run[k].shared.entries| ==>
      run[k].shared.entries[j].index in run[k].executed && run[k].shared.entries[j].index < x.count
  {
    RunKeepsInv(x, workers, run, events, k);
    hide SharedInv, Ownership, NothingLost, InEntries;
  }

  /** The work context ends up cancelled exactly for one of three reasons. */
  lemma WhyCancelled(x: Setup, workers: nat, run: seq<Pool>, events: seq<Event>, k: nat)
    requires IsRun(x, workers, run, events) && k < |run|
    ensures var p := run[k];
      p.shared.cancelled <==> p.aborted || p.shared.panics > 0 || (!x.continueOnError && p.shared.failed > 0)
  {
    RunKeepsInv(x, workers, run, events, k);
  }

  ghost function Below(n: nat): set<nat> {
    if n == 0 then {} else Below(n - 1) + {n - 1}
  }

  lemma {:induction false} BelowIs(n: nat)
    ensures |Below(n)| == n && forall i: nat :: i in Below(n) <==> i < n
  {
    if n > 0 { BelowIs(n - 1); }
  }

  lemma DistinctBounded(entries: seq<Entry>, n: nat)
    requires DistinctEntries(entries) && forall k :: 0 <= k < |entries| ==> entries[k].index < n
    requires forall i: nat :: i < n ==> InEntries(entries, i)
    ensures |entries| == n
  {
    var indexes := set k | 0 <= k < |entries| :: entries[k].index;
    BelowIs(n);
    IndexCount(entries);
    forall i: nat ensures i in indexes <==> i < n {
      if i < n {
        var k :| InEntries(entries, i) && 0 <= k < |entries| && entries[k].index == i;
      }
    }
    assert indexes == Below(n);
  }

  lemma {:induction false} IndexCount(entries: seq<Entry>)
    requires DistinctEntries(entries)
    ensures |set k | 0 <= k < |entries| :: entries[k].index| == |entries|
  {
    if entries != [] {
      var rest, last := entries[..|entries| - 1], entries[|entries| - 1];
      IndexCount(rest);
      var these := set k | 0 <= k < |entries| :: entries[k].index;
      var those := set k | 0 <= k < |rest| :: rest[k].index;
      forall i ensures i in these <==> i in those || i == last.index {
        if i in those { var k :| 0 <= k < |rest| && rest[k].index == i; assert entries[k] == rest[k]; }
        if i == last.index { assert entries[|entries| - 1].index == i; }
      }
      assert these == those + {last.index};
    }
  }

  /** When the pool finishes and nothing has cancelled it, every action was executed and recorded
      exactly once; and the reported failures are the entries that are not accepted. */
  lemma ExactlyOnce(x: Setup, workers: nat, run: seq<Pool>, events: seq<Event>, k: nat)
    requires IsRun(x, workers, run, events) && k < |run| && Finished(run[k]) && !run[k].shared.cancelled
    ensures var s := run[k].shared;
      && |s.entries| == x.count && DistinctEntries(s.entries) && DistinctNats(run[k].executed)
      && (forall i: nat :: i < x.count ==> InEntries(s.entries, i) && i in run[k].executed)
      && s.failed == BadCount(s.entries)
  {
    RunKeepsInv(x, workers, run, events, k);
    var p := run[k];
    forall i: nat | i < x.count ensures InEntries(p.shared.entries, i) && i in p.executed {
      assert !Held(p, i);
    }
    DistinctBounded(p.shared.entries, x.count);
  }

  /** What is reported, finished or not: the failures, and the part of the entries in the job. */
  lemma Report(x: Setup, workers: nat, run: seq<Pool>, events: seq<Event>, k: nat)
    requires IsRun(x, workers, run, events) && k < |run|
    ensures var s := run[k].shared;
      && s.failed == BadCount(s.entries) + s.panics
      && (s.firstErr == NoError <==> s.failed == 0)
      && s.jobActions == x.before + s.entries[..Room(x, |s.entries|)]
      && |s.jobActions| <= (if |x.before| > x.limit then |x.before| else x.limit)
  {
    RunKeepsInv(x, workers, run, events, k);
  }

  /** The positions of the entries that were rejected or failed with an error. */
  ghost function Failures(entries: seq<Entry>): set<nat> {
    set i: nat | i < |entries| && (entries[i].outcome == Rejected || entries[i].outcome == Errored)
  }

  lemma {:induction false} BadCountIs(entries: seq<Entry>)
    ensures BadCount(entries) == |Failures(entries)|
  {
    if entries != [] {
      var last: nat := |entries| - 1;
      var rest := entries[..last];
      BadCountIs(rest);
      var more := if entries[last].outcome == Accepted then {} else {last};
      forall i: nat ensures i in Failures(entries) <==> i in Failures(rest) || i in more {
        if i < last { assert rest[i] == entries[i]; }
      }
      assert Failures(entries) == Failures(rest) + more;
    }
  }

  /** In every run the reported failures are the rejected entries, the entries with an error and the
      panics; and where errors stop the job, a single such entry has cancelled it. */
  lemma FailuresCounted(x: Setup, workers: nat, run: seq<Pool>, events: seq<Event>, k: nat)
    requires IsRun(x, workers, run, events) && k < |run|
    ensures var s := run[k].shared;
      && s.failed == |Failures(s.entries)| + s.panics
      && (!x.continueOnError && (exists i :: 0 <= i < |s.entries| && s.entries[i].outcome != Accepted) ==> s.cancelled)
  {
    RunKeepsInv(x, workers, run, events, k);
    var s := run[k].shared;
    BadCountIs(s.entries);
    if i :| 0 <= i < |s.entries| && s.entries[i].outcome != Accepted {
      assert i in Failures(s.entries);
    }
    hide Ownership, Books, NothingLost, BadCount;
  }

  /** The step reports the given cause: it records a rejected entry or one with an error, or its worker panics. */
  predicate Reports(p: Pool, e: Event, cause: Cause) {
    match cause
    case NoError => false
    case OfEntry(i) =>
      && e.Records? && At(p, e.w) && p.workers[e.w].Recording? && p.workers[e.w].index == i
      && (p.workers[e.w].outcome == Rejected || p.workers[e.w].outcome == Errored)
    case OfPanic => e.FeedbackPanics?
  }

  /** The first error is that of the step that reported the first failure. */
  lemma {:induction false} FirstErrorKept(x: Setup, workers: nat, run: seq<Pool>, events: seq<Event>, k: nat)
    returns (j: nat)
    requires IsRun(x, workers, run, events) && k < |run| && run[k].shared.firstErr != NoError
    ensures j < k && run[j].shared.failed == 0 && run[j + 1].shared.failed == 1
    ensures Reports(run[j], events[j], run[k].shared.firstErr)
  {
    hide Step, Enabled, Ownership, Books, NothingLost, Progressing, SharedInv, Reports;
    assert k > 0;
    RunKeepsInv(x, workers, run, events, k - 1);
    FirstErrorStep(x, run[k - 1], events[k - 1]);
    if run[k - 1].shared.firstErr == NoError {
      j := k - 1;
    } else {
      j := FirstErrorKept(x, workers, run, events, k - 1);
    }
  }

  lemma FirstErrorStep(x: Setup, p: Pool, e: Event)
    requires Enabled(x, p, e) && SharedInv(x, p.shared)
    ensures var q := Step(x, p, e);
      && (p.shared.firstErr != NoError ==> q.shared.firstErr == p.shared.firstErr)
      && (p.shared.firstErr == NoError && q.shared.firstErr != NoError ==>
            p.shared.failed == 0 && q.shared.failed == 1 && Reports(p, e, q.shared.firstErr))
  {
    hide BadCount, Room;
  }

  // ----- after a cancellation no new action begins -----

  /** What is executed from the cancellation on was being executed then. */
  ghost predicate OnlyFinishing(p: Pool, q: Pool) {
    && |q.workers| == |p.workers| && q.shared.cancelled
    && (forall w :: 0 <= w < |q.workers| && q.workers[w].Working? ==> p.workers[w] == q.workers[w])
    && (forall i :: i in q.executed ==>
          i in p.executed || exists w :: 0 <= w < |p.workers| && p.workers[w] == Working(i))
  }

  lemma CancelledStep(x: Setup, p: Pool, q: Pool, e: Event)
    requires OnlyFinishing(p, q) && Enabled(x, q, e)
    ensures OnlyFinishing(p, Step(x, q, e))
  {
    hide Recorded, Recovered;
    CancelledStays(x, q, e);
  }

  lemma CancelledStays(x: Setup, p: Pool, e: Event)
    requires Enabled(x, p, e) && p.shared.cancelled
    ensures Step(x, p, e).shared.cancelled
  {
  }

  /** Once the work is cancelled, the only actions that are executed are those an executor is working on
      at that moment. */
  lemma NoNewWorkAfterCancel(x: Setup, workers: nat, run: seq<Pool>, events: seq<Event>, k: nat, m: nat)
    requires IsRun(x, workers, run, events) && k <= m < |run| && run[k].shared.cancelled
    ensures run[m].shared.cancelled
    ensures forall i :: i in run[m].executed ==>
      i in run[k].executed || exists w :: 0 <= w < |run[k].workers| && run[k].workers[w] == Working(i)
  {
    CancelledRun(x, workers, run, events, k, m);
  }

  lemma {:induction false} CancelledRun(x: Setup, workers: nat, run: seq<Pool>, events: seq<Event>, k: nat, m: nat)
    requires IsRun(x, workers, run, events) && k <= m < |run| && run[k].shared.cancelled
    ensures OnlyFinishing(run[k], run[m])
    decreases m - k
  {
    if k < m {
      hide OnlyFinishing, Step, Enabled;
      CancelledRun(x, workers, run, events, k, m - 1);
      CancelledStep(x, run[k], run[m - 1], events[m - 1]);
    }
  }

  // ----- no run gets stuck, and every run ends -----

  /** While the pool has not finished, some step other than an abort is possible. */
  lemma NeverStuck(x: Setup, workers: nat, run: seq<Pool>, events: seq<Event>, k: nat)
    requires IsRun(x, workers, run, events) && k < |run| && !Finished(run[k])
    ensures exists e :: e != Abort && Enabled(x, run[k], e)
  {
    RunKeepsInv(x, workers, run, events, k);
    var p := run[k];
    if p.sender == AtCheck {
      assert Enabled(x, p, SenderChecks);
    } else if p.sender == AtSend && p.shared.cancelled {
      assert Enabled(x, p, SenderStops);
    } else {
      var w := if p.sender == AtSend then 0 else var w :| 0 <= w < |p.workers| && p.workers[w] != Exited; w;
      var e := match p.workers[w]
        case Waiting => if p.sender == AtSend then Hand(w) else Drains(w)
        case Holding(_) => WorkerChecks(w)
        case Working(_) => Executes(w, Accepted)
        case Recording(_, _) => Records(w)
        case Sleeping => Wakes(w)
        case Exited => Abort;
      assert Enabled(x, p, e);
    }
  }

  function Weight(worker: Worker): nat {
    match worker
    case Waiting => 1
    case Holding(_) => 5
    case Working(_) => 4
    case Recording(_, _) => 3
    case Sleeping => 2
    case Exited => 0
  }

  function Load(workers: seq<Worker>): nat {
    if workers == [] then 0 else Load(workers[..|workers| - 1]) + Weight(workers[|workers| - 1])
  }

  /** How many steps the pool can still take at most. */
  function Fuel(x: Setup, p: Pool): int {
    Load(p.workers) + (match p.sender
      case AtSend => 10 * (x.count - p.sent) + 1
      case AtCheck => 10 * (x.count - p.sent) + 2
      case Closed => 0)
  }

  lemma {:induction false} LoadAfter(workers: seq<Worker>, w: nat, now: Worker)
    requires w < |workers|
    ensures Load(workers[w := now]) == Load(workers) - Weight(workers[w]) + Weight(now)
  {
    var changed := workers[w := now];
    if w == |workers| - 1 {
      assert changed[..|workers| - 1] == workers[..|workers| - 1];
    } else {
      assert changed[..|workers| - 1] == workers[..|workers| - 1][w := now];
      LoadAfter(workers[..|workers| - 1], w, now);
    }
  }

  lemma StepBurns(x: Setup, p: Pool, e: Event)
    requires Progressing(x, p) && Enabled(x, p, e) && e != Abort
    ensures 0 <= Fuel(x, Step(x, p, e)) < Fuel(x, p)
  {
    hide Load, Recorded, Recovered;
    match e
    case Hand(w) => LoadAfter(p.workers, w, Holding(p.sent));
    case WorkerChecks(w) => LoadAfter(p.workers, w, Step(x, p, e).workers[w]);
    case Executes(w, outcome) => LoadAfter(p.workers, w, Recording(p.workers[w].index, outcome));
    case Records(w) => LoadAfter(p.workers, w, Sleeping);
    case Wakes(w) => LoadAfter(p.workers, w, Waiting);
    case FeedbackPanics(w) => LoadAfter(p.workers, w, Exited);
    case QuitsSleeping(w) => LoadAfter(p.workers, w, Exited);
    case Drains(w) => LoadAfter(p.workers, w, Exited);
    case SenderChecks =>
    case SenderStops =>
  }

  lemma {:induction false} LoadOfIdle(n: nat)
    ensures Load(seq(n, _ => Waiting)) == n
  {
    if n > 0 {
      LoadOfIdle(n - 1);
      assert seq(n, _ => Waiting)[..n - 1] == seq(n - 1, _ => Waiting);
    }
  }

  function Aborts(events: seq<Event>): nat {
    if events == [] then 0 else Aborts(events[..|events| - 1]) + (if events[|events| - 1] == Abort then 1 else 0)
  }

  lemma StepFuel(x: Setup, p: Pool, e: Event)
    requires Progressing(x, p) && Enabled(x, p, e)
    ensures Fuel(x, Step(x, p, e)) <= Fuel(x, p) - 1 + (if e == Abort then 1 else 0)
  {
    if e != Abort {
      StepBurns(x, p, e);
      hide Fuel, Step;
    }
  }

  lemma {:induction false} FuelBurnt(x: Setup, workers: nat, run: seq<Pool>, events: seq<Event>, k: nat)
    requires IsRun(x, workers, run, events) && k <= |events|
    ensures k + Fuel(x, run[k]) <= 10 * x.count + 1 + workers + Aborts(events[..k])
  {
    if k == 0 {
      LoadOfIdle(workers);
    } else {
      FuelBurnt(x, workers, run, events, k - 1);
      RunKeepsInv(x, workers, run, events, k - 1);
      StepFuel(x, run[k - 1], events[k - 1]);
      assert events[..k][..k - 1] == events[..k - 1];
      hide SharedInv, Ownership, Books, NothingLost, Progressing, Enabled, Fuel, Step;
    }
  }

  /** Every run is finite: not counting aborts it has at most 10 steps per action, one per worker
      and one more.  With NeverStuck: whatever happens, executeActions returns. */
  lemma AlwaysReturns(x: Setup, workers: nat, run: seq<Pool>, events: seq<Event>)
    requires IsRun(x, workers, run, events)
    ensures |events| - Aborts(events) <= 10 * x.count + workers + 1
  {
    FuelBurnt(x, workers, run, events, |events|);
    RunKeepsInv(x, workers, run, events, |events|);
    assert events[..|events|] == events;
    hide SharedInv, Ownership, Books, NothingLost;
  }

  // ----- the closures over shared variables -----

  /** The variables that the record closure and the recovery of a worker change under the mutex. */
  class Record {
    const setup: Setup
    var entries: seq<Entry>
    var failed: nat
    var firstErr: Cause
    var jobActions: seq<Entry>
    var cancelled: bool
    ghost var panics: nat

    ghost function View(): Shared
      reads this
    {
      Shared(entries, failed, firstErr, jobActions, cancelled, panics)
    }

    ghost predicate Valid()
      reads this
    {
      SharedInv(setup, View())
    }

    constructor (setup: Setup)
      ensures this.setup == setup && View() == InitialShared(setup) && Valid()
    {
      this.setup := setup;
      entries, failed, firstErr, jobActions, cancelled, panics := [], 0, NoError, setup.before, false, 0;
    }

    method Add(e: Entry)
      requires Valid()
      modifies this
      ensures View() == Recorded(setup, old(View()), e)
      ensures entries == old(entries) + [e]
      ensures failed == old(failed) + (if e.outcome == Accepted then 0 else 1)
      ensures firstErr ==
        if old(firstErr) != NoError || e.outcome == Accepted then old(firstErr) else OfEntry(e.index)
      ensures cancelled <==> old(cancelled) || (!setup.continueOnError && firstErr != NoError)
      ensures Valid()
    {
      RecordKeepsInv(setup, View(), e);
      hide SharedInv;
      entries := entries + [e];
      if e.outcome == Errored {
        failed := failed + 1;
        if firstErr == NoError {
          firstErr := OfEntry(e.index);
        }
      } else if e.outcome == Rejected {
        failed := failed + 1;
        if firstErr == NoError {
          firstErr := OfEntry(e.index);
        }
      }
      if |jobActions| < setup.limit {
        jobActions := jobActions + [e];
      }
      if !setup.continueOnError && firstErr != NoError {
        cancelled := true;
      }
    }

    method Recover()
      requires Valid()
      modifies this
      ensures View() == Recovered(old(View()))
      ensures failed == old(failed) + 1 && cancelled && entries == old(entries)
      ensures firstErr == if old(firstErr) != NoError then old(firstErr) else OfPanic
      ensures Valid()
    {
      RecoverKeepsInv(setup, View());
      hide SharedInv;
      failed := failed + 1;
      panics := panics + 1;
      if firstErr == NoError {
        firstErr := OfPanic;
      }
      cancelled := true;
    }
  }
}
