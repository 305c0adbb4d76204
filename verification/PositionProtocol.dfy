/**
 The position batcher as a protocol: every lock section of
 internal/scheduler/position_batcher.go is one atomic event, and the timer, the
 goroutine scheduler and the database are free to choose which event comes next.

 Every accepted update gets a number, its index in `accepted`.  The maps of the
 protocol hold these numbers, so that "older" and "newer" have a meaning; the
 class in PositionBatcher.dfy holds the updates themselves.
 */
module PositionProtocol {
  import opened Collections

  datatype Update = Update(uid: Int64, cid: Int64, village: Int64, area: Int64, x: Int64, y: Int64)

  /** The timer field: unset, waiting, or set while its callback waits for the lock. */
  datatype Timer = Unset | Armed | Fired

  /** A write in progress, with the number of the update it carries for each UID. */
  datatype Flight = Flush(batch: map<Int64, nat>) | Final(batch: map<Int64, nat>)

  /** How far the one effective call of Close has come. */
  datatype Closer = NotClosing | Waiting | Idle | Writing | Closed(failed: bool)

  datatype Options = Options(flushDelay: int, retryMin: int, retryMax: int)

  datatype Proto = Proto(
    accepted: seq<Update>,
    pending: map<Int64, nat>,
    flights: seq<Flight>,   // the writes in progress; nothing in the type limits their number
    flushing: bool,
    timer: Timer,
    strays: nat,            // fired callbacks whose timer Close took away
    returning: nat,         // callbacks past their last lock section of flushTimer
    callbackCount: int,
    idleCloses: seq<nat>,   // for each idle channel made so far, how often it was closed
    closed: bool,
    closer: Closer,
    failureCount: nat,
    retryDelay: int,
    delays: seq<int>,       // the delay of every timer armed
    attempts: seq<map<Int64, nat>>,  // every write begun
    written: set<nat>,      // numbers in writes that succeeded
    discarded: set<nat>)    // numbers Discard removed

  datatype Event =
    | Queue(update: Update)
    | Discard(uid: Int64)
    | TimerFires
    | FlushBegins
    | FlushEnds(which: nat, ok: bool)
    | CallbackReturns
    | CloseBegins
    | CloseSeesIdle
    | CloseGivesUp
    | CloseTakes
    | CloseEnds(which: nat, ok: bool)

  const INT64_MAX: int := 0x7FFF_FFFF_FFFF_FFFF

  /** A Go duration is a 64-bit integer: doubling wraps around. */
  function Doubled(d: int): int {
    if 2 * d > INT64_MAX then 2 * d - 0x1_0000_0000_0000_0000 else 2 * d
  }

  function NextRetryDelay(o: Options, retryDelay: int): int {
    if retryDelay <= 0 then o.retryMin
    else if Doubled(retryDelay) > o.retryMax then o.retryMax
    else Doubled(retryDelay)
  }

  predicate ValidOptions(o: Options) {
    && 0 < o.flushDelay <= INT64_MAX
    && 0 < o.retryMin <= o.retryMax <= INT64_MAX
  }

  const INITIAL_PROTO: Proto :=
    Proto([], map[], [], false, Unset, 0, 0, 0, [], false, NotClosing, 0, 0, [], [], {}, {})

  function StartCallback(s: Proto): Proto {
    s.(idleCloses := if s.callbackCount == 0 then s.idleCloses + [0] else s.idleCloses,
       callbackCount := s.callbackCount + 1)
  }

  function FinishCallback(s: Proto): Proto {
    if s.callbackCount <= 0 || s.idleCloses == [] then s
    else
      var last := |s.idleCloses| - 1;
      s.(callbackCount := s.callbackCount - 1,
         idleCloses := if s.callbackCount == 1 then s.idleCloses[last := s.idleCloses[last] + 1] else s.idleCloses)
  }

  function Schedule(s: Proto, delay: int): Proto {
    if s.closed || s.flushing || s.timer != Unset || s.pending == map[] then s
    else StartCallback(s).(timer := Armed, delays := s.delays + [delay])
  }

  /** A failed batch goes back, except where a newer update of the UID is pending. */
  function MergeFailed(pending: map<Int64, nat>, batch: map<Int64, nat>): map<Int64, nat> {
    batch + pending
  }

  function Settle(s: Proto, which: nat, ok: bool): Proto
    requires which < |s.flights|
  {
    var batch := s.flights[which].batch;
    var rest := s.flights[..which] + s.flights[which + 1..];
    if ok then s.(flights := rest, written := s.written + batch.Values)
    else s.(flights := rest, pending := MergeFailed(s.pending, batch))
  }

  function Begin(s: Proto, flight: Flight): Proto {
    s.(pending := map[], flights := s.flights + [flight], attempts := s.attempts + [flight.batch])
  }

  function FlushEnd(o: Options, s: Proto, which: nat, ok: bool): Proto
    requires which < |s.flights|
  {
    var t := Settle(s, which, ok).(flushing := false);
    var delay := NextRetryDelay(o, s.retryDelay);
    var u := if ok then Schedule(t.(failureCount := 0, retryDelay := 0), o.flushDelay)
             else Schedule(t.(failureCount := s.failureCount + 1, retryDelay := delay), delay);
    u.(returning := u.returning + 1)
  }

  function CloseBegin(s: Proto): Proto {
    var t := s.(closed := true, timer := Unset,
                strays := if s.timer == Fired then s.strays + 1 else s.strays);
    var u := if s.timer == Armed then FinishCallback(t) else t;
    u.(closer := if u.callbackCount > 0 then Waiting else Idle)
  }

  /** Whether the event can happen now. */
  predicate Enabled(s: Proto, e: Event) {
    match e
    case Queue(_) => true
    case Discard(_) => true
    case TimerFires => s.timer == Armed
    case FlushBegins => s.timer == Fired || s.strays > 0
    case FlushEnds(which, _) => which < |s.flights| && s.flights[which].Flush?
    case CallbackReturns => s.returning > 0
    case CloseBegins => s.closer == NotClosing
    case CloseSeesIdle => s.closer == Waiting && s.idleCloses != [] && s.idleCloses[|s.idleCloses| - 1] > 0
    case CloseGivesUp => s.closer == Waiting
    case CloseTakes => s.closer == Idle
    case CloseEnds(which, _) => which < |s.flights| && s.flights[which].Final?
  }

  function Step(o: Options, s: Proto, e: Event): Proto
    requires Enabled(s, e)
  {
    match e
    case Queue(update) =>
      if s.closed then s
      else
        var queued := s.(accepted := s.accepted + [update], pending := s.pending[update.uid := |s.accepted|]);
        Schedule(queued, o.flushDelay)
    case Discard(uid) =>
      if uid <= 0 || uid !in s.pending then s
      else s.(pending := s.pending - {uid}, discarded := s.discarded + {s.pending[uid]})
    case TimerFires => s.(timer := Fired)
    case FlushBegins =>
      var t := s.(strays := if s.timer != Fired && s.strays > 0 then s.strays - 1 else s.strays, timer := Unset);
      if s.closed || s.pending == map[] then t.(returning := s.returning + 1)
      else Begin(t, Flush(s.pending)).(flushing := true)
    case FlushEnds(which, ok) => FlushEnd(o, s, which, ok)
    case CallbackReturns => FinishCallback(s.(returning := s.returning - 1))
    case CloseBegins => CloseBegin(s)
    case CloseSeesIdle => s.(closer := Idle)
    case CloseGivesUp => s.(closer := Closed(true))
    case CloseTakes =>
      if s.pending == map[] then s.(closer := Closed(false))
      else Begin(s, Final(s.pending)).(closer := Writing)
    case CloseEnds(which, ok) => Settle(s, which, ok).(closer := Closed(!ok))
  }

  // ----- what the protocol promises about the updates -----

  /** The part of the state that concerns updates; a step changes it in one of five ways. */
  datatype Books = Books(
    accepted: seq<Update>,
    pending: map<Int64, nat>,
    inFlight: map<Int64, nat>,
    attempts: seq<map<Int64, nat>>,
    written: set<nat>,
    discarded: set<nat>)

  function BooksOf(s: Proto): Books {
    Books(s.accepted, s.pending, InFlight(s), s.attempts, s.written, s.discarded)
  }

  /** The batch being written, if any; the invariant allows one write at a time. */
  function InFlight(s: Proto): map<Int64, nat> {
    if s.flights == [] then map[] else s.flights[0].batch
  }

  ghost predicate NumbersOf(accepted: seq<Update>, m: map<Int64, nat>) {
    forall u :: u in m ==> m[u] < |accepted| && accepted[m[u]].uid == u
  }

  ghost predicate Numbered(b: Books) {
    && NumbersOf(b.accepted, b.pending)
    && NumbersOf(b.accepted, b.inFlight)
    && (forall k :: 0 <= k < |b.attempts| ==> NumbersOf(b.accepted, b.attempts[k]))
  }

  /** In the log, a later write never carries an older update of a UID than an earlier one. */
  ghost predicate LogOrdered(attempts: seq<map<Int64, nat>>) {
    forall i, j, u {:trigger u in attempts[i], u in attempts[j]} ::
      0 <= i < j < |attempts| && u in attempts[i] && u in attempts[j] ==> attempts[i][u] <= attempts[j][u]
  }

  ghost predicate NotBehind(attempts: seq<map<Int64, nat>>, m: map<Int64, nat>) {
    forall i, u {:trigger u in attempts[i], u in m} ::
      0 <= i < |attempts| && u in attempts[i] && u in m ==> attempts[i][u] <= m[u]
  }

  ghost predicate Ordered(b: Books) {
    && LogOrdered(b.attempts)
    && NotBehind(b.attempts, b.pending)
    && NotBehind(b.attempts, b.inFlight)
    && (forall u :: u in b.pending && u in b.inFlight ==> b.inFlight[u] < b.pending[u])
  }

  ghost predicate Superseded(accepted: seq<Update>, i: nat)
    requires i < |accepted|
  {
    exists j :: i < j < |accepted| && accepted[j].uid == accepted[i].uid
  }

  ghost predicate Holds(m: map<Int64, nat>, u: Int64, i: nat) {
    u in m && m[u] == i
  }

  /** The five possible fates of an accepted update. */
  ghost predicate Accounted(b: Books, i: nat)
    requires i < |b.accepted|
  {
    || Holds(b.pending, b.accepted[i].uid, i)
    || Holds(b.inFlight, b.accepted[i].uid, i)
    || i in b.written
    || Superseded(b.accepted, i)
    || i in b.discarded
  }

  ghost predicate AllAccounted(b: Books) {
    forall i :: 0 <= i < |b.accepted| ==> Accounted(b, i)
  }

  ghost predicate Good(b: Books) {
    Numbered(b) && Ordered(b) && AllAccounted(b)
  }

  lemma AcceptKeepsGood(b: Books, update: Update)
    requires Good(b)
    ensures Good(b.(accepted := b.accepted + [update], pending := b.pending[update.uid := |b.accepted|]))
  {
    var c := b.(accepted := b.accepted + [update], pending := b.pending[update.uid := |b.accepted|]);
    forall i | 0 <= i < |c.accepted| ensures Accounted(c, i) {
      if i < |b.accepted| {
        assert Accounted(b, i);
        if Superseded(b.accepted, i) {
          var j :| i < j < |b.accepted| && b.accepted[j].uid == b.accepted[i].uid;
          assert c.accepted[j].uid == c.accepted[i].uid;
        } else if b.accepted[i].uid == update.uid {
          assert c.accepted[|b.accepted|].uid == c.accepted[i].uid;
        }
      }
    }
  }

  lemma DiscardKeepsGood(b: Books, uid: Int64)
    requires Good(b) && uid in b.pending
    ensures Good(b.(pending := b.pending - {uid}, discarded := b.discarded + {b.pending[uid]}))
  {
    var c := b.(pending := b.pending - {uid}, discarded := b.discarded + {b.pending[uid]});
    forall i | 0 <= i < |c.accepted| ensures Accounted(c, i) {
      assert Accounted(b, i);
    }
  }

  lemma TakeKeepsGood(b: Books)
    requires Good(b) && b.inFlight == map[]
    ensures Good(b.(pending := map[], inFlight := b.pending, attempts := b.attempts + [b.pending]))
  {
    var c := b.(pending := map[], inFlight := b.pending, attempts := b.attempts + [b.pending]);
    forall i | 0 <= i < |c.accepted| ensures Accounted(c, i) {
      assert Accounted(b, i);
    }
  }

  lemma SuccessKeepsGood(b: Books)
    requires Good(b)
    ensures Good(b.(inFlight := map[], written := b.written + b.inFlight.Values))
  {
    var c := b.(inFlight := map[], written := b.written + b.inFlight.Values);
    forall i | 0 <= i < |c.accepted| ensures Accounted(c, i) {
      assert Accounted(b, i);
    }
  }

  lemma FailureKeepsGood(b: Books)
    requires Good(b)
    ensures Good(b.(inFlight := map[], pending := MergeFailed(b.pending, b.inFlight)))
  {
    var c := b.(inFlight := map[], pending := MergeFailed(b.pending, b.inFlight));
    forall i | 0 <= i < |c.accepted| ensures Accounted(c, i) {
      assert Accounted(b, i);
      var u := b.accepted[i].uid;
      if Holds(b.inFlight, u, i) && u in b.pending {
        assert b.accepted[b.pending[u]].uid == u;
      }
    }
  }

  // ----- what it promises about timers, callbacks and channels -----

  ghost predicate OneWriter(s: Proto) {
    |s.flights| <= 1
  }

  predicate FlushRuns(s: Proto) {
    s.flights != [] && s.flights[0].Flush?
  }

  function TimerCount(t: Timer): nat { if t == Unset then 0 else 1 }

  ghost predicate Counted(s: Proto) {
    s.callbackCount == TimerCount(s.timer) + s.strays + (if FlushRuns(s) then 1 else 0) + s.returning
  }

  /** Every idle channel but the newest was closed once; the newest is open while callbacks exist. */
  ghost predicate ChannelsClosedOnce(s: Proto) {
    && (s.callbackCount > 0 ==> s.idleCloses != [])
    && forall k :: 0 <= k < |s.idleCloses| ==>
      s.idleCloses[k] == if k == |s.idleCloses| - 1 && s.callbackCount > 0 then 0 else 1
  }

  ghost predicate Lifecycle(s: Proto) {
    && (s.flushing <==> FlushRuns(s))
    && (s.closed <==> s.closer != NotClosing)
    && (s.closed ==> s.timer == Unset)
    && (!s.closed ==> s.strays == 0)
    && (s.flushing ==> s.timer == Unset)
    && (s.closer == Writing <==> s.flights != [] && s.flights[0].Final?)
    && (s.closer in {Idle, Writing, Closed(false)} ==> s.callbackCount == 0)
    && (s.closer in {Writing, Closed(false)} ==> s.pending == map[])
    && (s.flights != [] ==> InFlight(s) != map[])
  }

  ghost predicate NoLostWakeUp(s: Proto) {
    !s.closed && s.pending != map[] ==> s.timer != Unset || s.flushing
  }

  /** The delay the k-th failure in a row asks for: retryMin doubled k - 1 times, cut off at retryMax. */
  function Backoff(o: Options, k: nat): int
    requires k > 0
  {
    Min(o.retryMin * Pow2(k - 1), o.retryMax)
  }

  function Min(a: int, b: int): int { if a < b then a else b }

  function Pow2(n: nat): (p: nat)
    ensures p > 0
  {
    if n == 0 then 1 else 2 * Pow2(n - 1)
  }

  ghost predicate Inv(s: Proto) {
    && OneWriter(s)
    && Good(BooksOf(s))
    && Counted(s)
    && ChannelsClosedOnce(s)
    && Lifecycle(s)
    && NoLostWakeUp(s)
  }

  lemma FinishKeepsChannels(s: Proto)
    requires ChannelsClosedOnce(s) && s.callbackCount > 0
    ensures ChannelsClosedOnce(FinishCallback(s))
  {
  }

  lemma ScheduleKeepsChannels(s: Proto, delay: int)
    requires ChannelsClosedOnce(s) && s.callbackCount >= 0
    ensures ChannelsClosedOnce(Schedule(s, delay))
  {
  }

  lemma FlushEndKeepsCallbacks(o: Options, s: Proto, which: nat, ok: bool)
    requires Inv(s) && Enabled(s, FlushEnds(which, ok))
    ensures var t := FlushEnd(o, s, which, ok); Counted(t) && ChannelsClosedOnce(t)
  {
    hide Good;
    var t := Settle(s, which, ok).(flushing := false);
    assert t.flights == [];
    var delay := NextRetryDelay(o, s.retryDelay);
    ScheduleKeepsChannels(t.(failureCount := 0, retryDelay := 0), o.flushDelay);
    ScheduleKeepsChannels(t.(failureCount := s.failureCount + 1, retryDelay := delay), delay);
  }

  lemma CloseBeginKeepsCallbacks(o: Options, s: Proto)
    requires Inv(s) && Enabled(s, CloseBegins)
    ensures var t := Step(o, s, CloseBegins); Counted(t) && ChannelsClosedOnce(t)
  {
    hide Good;
    if s.timer == Armed {
      FinishKeepsChannels(s.(closed := true, timer := Unset));
    }
  }

  lemma QueueKeepsCallbacks(o: Options, s: Proto, update: Update)
    requires Inv(s)
    ensures var t := Step(o, s, Queue(update)); Counted(t) && ChannelsClosedOnce(t)
  {
    hide Good;
    if !s.closed {
      var queued := s.(accepted := s.accepted + [update], pending := s.pending[update.uid := |s.accepted|]);
      ScheduleKeepsChannels(queued, o.flushDelay);
    }
  }

  lemma StepKeepsCallbacks(o: Options, s: Proto, e: Event)
    requires Inv(s) && Enabled(s, e)
    ensures var t := Step(o, s, e); Counted(t) && ChannelsClosedOnce(t)
  {
    hide Good, FlushEnd, CloseBegin, MergeFailed, Schedule;
    match e
    case Queue(update) => QueueKeepsCallbacks(o, s, update);
    case FlushEnds(which, ok) => FlushEndKeepsCallbacks(o, s, which, ok);
    case CallbackReturns => FinishKeepsChannels(s.(returning := s.returning - 1));
    case CloseBegins => CloseBeginKeepsCallbacks(o, s);
    case _ =>
  }

  lemma FlushEndKeepsLifecycle(o: Options, s: Proto, which: nat, ok: bool)
    requires Inv(s) && Enabled(s, FlushEnds(which, ok))
    ensures var t := FlushEnd(o, s, which, ok); OneWriter(t) && Lifecycle(t)
  {
    hide Good;
    assert which == 0 && Settle(s, which, ok).flights == [];
  }

  lemma CloseEndKeepsLifecycle(o: Options, s: Proto, which: nat, ok: bool)
    requires Inv(s) && Enabled(s, CloseEnds(which, ok))
    ensures var t := Step(o, s, CloseEnds(which, ok)); OneWriter(t) && Lifecycle(t)
  {
    hide Good, ChannelsClosedOnce;
    assert which == 0 && Settle(s, which, ok).flights == [];
  }

  lemma CloseBeginKeepsLifecycle(o: Options, s: Proto)
    requires Inv(s) && Enabled(s, CloseBegins)
    ensures var t := Step(o, s, CloseBegins); OneWriter(t) && Lifecycle(t)
  {
    hide Good;
  }

  lemma StepKeepsLifecycle(o: Options, s: Proto, e: Event)
    requires Inv(s) && Enabled(s, e)
    ensures var t := Step(o, s, e); OneWriter(t) && Lifecycle(t)
  {
    hide Good, FlushEnd, Settle, CloseBegin;
    match e
    case FlushEnds(which, ok) => FlushEndKeepsLifecycle(o, s, which, ok);
    case CloseEnds(which, ok) => CloseEndKeepsLifecycle(o, s, which, ok);
    case CloseBegins => CloseBeginKeepsLifecycle(o, s);
    case _ =>
  }

  lemma StepKeepsWakeUp(o: Options, s: Proto, e: Event)
    requires Inv(s) && Enabled(s, e)
    ensures NoLostWakeUp(Step(o, s, e))
  {
  }

  lemma SettleKeepsGood(s: Proto, which: nat, ok: bool)
    requires OneWriter(s) && Good(BooksOf(s)) && which < |s.flights|
    ensures Good(BooksOf(Settle(s, which, ok)))
  {
    var b, c := BooksOf(s), BooksOf(Settle(s, which, ok));
    if ok {
      SuccessKeepsGood(b);
      assert c == b.(inFlight := map[], written := b.written + b.inFlight.Values);
    } else {
      FailureKeepsGood(b);
      assert c == b.(inFlight := map[], pending := MergeFailed(b.pending, b.inFlight));
    }
  }

  lemma StepKeepsBooks(o: Options, s: Proto, e: Event)
    requires Inv(s) && Enabled(s, e)
    ensures Good(BooksOf(Step(o, s, e)))
  {
    hide Numbered, Ordered, AllAccounted;
    var b, c := BooksOf(s), BooksOf(Step(o, s, e));
    match e
    case Queue(update) =>
      if !s.closed { AcceptKeepsGood(b, update); }
    case Discard(uid) =>
      if 0 < uid && uid in s.pending { DiscardKeepsGood(b, uid); }
    case FlushBegins =>
      if !s.closed && s.pending != map[] { TakeKeepsGood(b); }
    case CloseTakes =>
      if s.pending != map[] { TakeKeepsGood(b); }
    case FlushEnds(which, ok) =>
      SettleKeepsGood(s, which, ok);
      assert c == BooksOf(Settle(s, which, ok));
    case CloseEnds(which, ok) =>
      SettleKeepsGood(s, which, ok);
      assert c == BooksOf(Settle(s, which, ok));
    case _ => assert c == b;
  }

  lemma StepKeepsInv(o: Options, s: Proto, e: Event)
    requires Inv(s) && Enabled(s, e)
    ensures Inv(Step(o, s, e))
  {
    StepKeepsCallbacks(o, s, e);
    StepKeepsLifecycle(o, s, e);
    StepKeepsWakeUp(o, s, e);
    StepKeepsBooks(o, s, e);
  }

  lemma InitialInv()
    ensures Inv(INITIAL_PROTO)
  {
    assert BooksOf(INITIAL_PROTO) == Books([], map[], map[], [], {}, {});
  }

  /** After Close returned nil no event changes anything but callbacks that were idle anyway. */
  lemma ClosedStep(o: Options, s: Proto, e: Event)
    requires Inv(s) && s.closer == Closed(false) && Enabled(s, e)
    ensures var t := Step(o, s, e); t.closer == s.closer && t.accepted == s.accepted && t.attempts == s.attempts
  {
  }

  // ----- retry delays -----

  /** The delay after k failures in a row, as the code computes it. */
  function DelayAfter(o: Options, k: nat): int {
    if k == 0 then 0 else NextRetryDelay(o, DelayAfter(o, k - 1))
  }

  /** One more failure doubles the delay up to retryMax, unless doubling overflows. */
  lemma DelayStep(o: Options, k: nat)
    requires ValidOptions(o) && k > 0 && DelayAfter(o, k) == Backoff(o, k)
    ensures 0 < DelayAfter(o, k) <= o.retryMax
    ensures DelayAfter(o, k + 1) ==
      if 2 * DelayAfter(o, k) > INT64_MAX then 2 * DelayAfter(o, k) - 0x1_0000_0000_0000_0000
      else Min(2 * DelayAfter(o, k), o.retryMax)
  {
    BackoffDoubles(o, k);
  }

  lemma BackoffDoubles(o: Options, k: nat)
    requires ValidOptions(o) && k > 0
    ensures 0 < Backoff(o, k) && Backoff(o, k + 1) == Min(2 * Backoff(o, k), o.retryMax)
  {
    var p := Pow2(k - 1);
    assert o.retryMin * p > 0;
    assert o.retryMin * (2 * p) == 2 * (o.retryMin * p);
  }

  lemma {:induction false} DelayIsBackoff(o: Options, k: nat)
    requires ValidOptions(o) && 2 * o.retryMax <= INT64_MAX
    ensures DelayAfter(o, k) == if k == 0 then 0 else Backoff(o, k)
  {
    if k == 1 {
      assert Pow2(0) == 1;
    } else if k > 1 {
      DelayIsBackoff(o, k - 1);
      DelayStep(o, k - 1);
      BackoffDoubles(o, k - 1);
    }
  }

  /** If doubling can overflow, some failure asks for a negative delay. */
  lemma {:induction false} OverflowBreaksBackoff(o: Options, k: nat)
    requires ValidOptions(o) && 2 * o.retryMax > INT64_MAX
    requires k > 0 && DelayAfter(o, k) == Backoff(o, k)
    ensures exists n :: n > 0 && DelayAfter(o, n) != Backoff(o, n)
    decreases o.retryMax - DelayAfter(o, k)
  {
    DelayStep(o, k);
    BackoffDoubles(o, k + 1);
    if DelayAfter(o, k + 1) == Backoff(o, k + 1) {
      OverflowBreaksBackoff(o, k + 1);
    }
  }

  /** The k-th failure waits min(retryMin * 2^(k-1), retryMax), for every k, exactly when
      doubling the longest delay does not overflow a 64-bit duration. */
  lemma BackoffLaw(o: Options)
    requires ValidOptions(o)
    ensures (forall k :: k > 0 ==> DelayAfter(o, k) == Backoff(o, k)) <==> 2 * o.retryMax <= INT64_MAX
  {
    if 2 * o.retryMax <= INT64_MAX {
      forall k | k > 0 ensures DelayAfter(o, k) == Backoff(o, k) { DelayIsBackoff(o, k); }
    } else if DelayAfter(o, 1) == Backoff(o, 1) {
      OverflowBreaksBackoff(o, 1);
    }
  }

  lemma StepKeepsDelay(o: Options, s: Proto, e: Event)
    requires Enabled(s, e) && s.retryDelay == DelayAfter(o, s.failureCount)
    ensures var t := Step(o, s, e); t.retryDelay == DelayAfter(o, t.failureCount)
  {
  }

  lemma FailureStep(o: Options, s: Proto, which: nat)
    requires Inv(s) && Enabled(s, FlushEnds(which, false)) && !s.closed
    ensures var t := Step(o, s, FlushEnds(which, false));
      && t.timer == Armed && t.failureCount == s.failureCount + 1
      && t.delays == s.delays + [NextRetryDelay(o, s.retryDelay)]
  {
    var batch := s.flights[which].batch;
    assert batch == InFlight(s) != map[];
    assert MergeFailed(s.pending, batch) != map[];
  }

  // ----- runs -----

  /** A run: any sequence of events, each enabled when it happens. */
  ghost predicate IsRun(o: Options, run: seq<Proto>, events: seq<Event>) {
    && |run| == |events| + 1
    && run[0] == INITIAL_PROTO
    && forall k :: 0 <= k < |events| ==> Enabled(run[k], events[k]) && run[k + 1] == Step(o, run[k], events[k])
  }

  lemma {:induction false} RunKeepsInv(o: Options, run: seq<Proto>, events: seq<Event>, k: nat)
    requires IsRun(o, run, events) && k < |run|
    ensures Inv(run[k]) && run[k].retryDelay == DelayAfter(o, run[k].failureCount)
  {
    if k == 0 {
      InitialInv();
    } else {
      RunKeepsInv(o, run, events, k - 1);
      StepKeepsDelay(o, run[k - 1], events[k - 1]);
      StepKeepsInv(o, run[k - 1], events[k - 1]);
    }
  }

  /** Every update ever accepted is pending, being written, written, superseded or discarded. */
  lemma EveryUpdateAccounted(o: Options, run: seq<Proto>, events: seq<Event>, k: nat, i: nat)
    requires IsRun(o, run, events) && k < |run| && i < |run[k].accepted|
    ensures Accounted(BooksOf(run[k]), i)
  {
    RunKeepsInv(o, run, events, k);
  }

  /** At most one write is in progress, the one of Close included, and for each UID the
      writes never return to an older update. */
  lemma WritesInOrder(o: Options, run: seq<Proto>, events: seq<Event>, k: nat)
    requires IsRun(o, run, events) && k < |run|
    ensures |run[k].flights| <= 1 && LogOrdered(run[k].attempts)
  {
    RunKeepsInv(o, run, events, k);
  }

  lemma {:induction false} ClosedForGood(o: Options, run: seq<Proto>, events: seq<Event>, k: nat, m: nat)
    requires IsRun(o, run, events) && k <= m < |run|
    requires run[k].closer == Closed(false)
    ensures run[m].closer == Closed(false) && run[m].accepted == run[k].accepted && run[m].attempts == run[k].attempts
    decreases m - k
  {
    if k < m {
      ClosedForGood(o, run, events, k, m - 1);
      RunKeepsInv(o, run, events, m - 1);
      ClosedStep(o, run[m - 1], events[m - 1]);
    }
  }

  /** Once Close has returned nil, then and for ever nothing is pending or being written,
      nothing more is accepted or written, and every update that was accepted has been
      written, superseded or discarded. */
  lemma CloseNilSettlesEverything(o: Options, run: seq<Proto>, events: seq<Event>, k: nat, m: nat)
    requires IsRun(o, run, events) && k <= m < |run|
    requires run[k].closer == Closed(false)
    ensures run[m].pending == map[] && run[m].flights == []
    ensures run[m].accepted == run[k].accepted && run[m].attempts == run[k].attempts
    ensures forall i :: 0 <= i < |run[m].accepted| ==>
      i in run[m].written || Superseded(run[m].accepted, i) || i in run[m].discarded
  {
    ClosedForGood(o, run, events, k, m);
    RunKeepsInv(o, run, events, m);
    forall i | 0 <= i < |run[m].accepted|
      ensures i in run[m].written || Superseded(run[m].accepted, i) || i in run[m].discarded
    {
      assert Accounted(BooksOf(run[m]), i);
    }
  }

  /** Between any two lock sections an open batcher with pending updates has a timer set or a
      flush running; the callback count is exact; and no idle channel is closed twice. */
  lemma NoWakeUpLost(o: Options, run: seq<Proto>, events: seq<Event>, k: nat)
    requires IsRun(o, run, events) && k < |run|
    ensures !run[k].closed && run[k].pending != map[] ==> run[k].timer != Unset || run[k].flushing
    ensures Counted(run[k]) && ChannelsClosedOnce(run[k])
  {
    RunKeepsInv(o, run, events, k);
  }

  /** A failed flush of an open batcher is counted and arms the timer again, after the delay of as many
      failures in a row; by BackoffLaw that is the backoff as long as doubling cannot overflow. */
  lemma FailureRearms(o: Options, run: seq<Proto>, events: seq<Event>, k: nat)
    requires IsRun(o, run, events) && k < |events|
    requires events[k].FlushEnds? && !events[k].ok && !run[k].closed
    ensures run[k + 1].timer == Armed && run[k + 1].failureCount == run[k].failureCount + 1
    ensures run[k + 1].delays == run[k].delays + [DelayAfter(o, run[k].failureCount + 1)]
    ensures ValidOptions(o) && 2 * o.retryMax <= INT64_MAX ==>
      run[k + 1].delays == run[k].delays + [Backoff(o, run[k].failureCount + 1)]
  {
    RunKeepsInv(o, run, events, k);
    FailureStep(o, run[k], events[k].which);
    if ValidOptions(o) && 2 * o.retryMax <= INT64_MAX {
      DelayIsBackoff(o, run[k].failureCount + 1);
    }
  }

  /** Which event arms a timer, and with which delay: an update queued while no timer is set and no
      flush runs, or the end of a flush that leaves something to write.  The delay is flushDelay, after
      a failure the one of as many failures in a row.  No other event touches the armed delays. */
  lemma TimersArmed(o: Options, run: seq<Proto>, events: seq<Event>, k: nat)
    requires IsRun(o, run, events) && k < |events|
    ensures var s, t, e := run[k], run[k + 1], events[k];
      var arms := !s.closed && ((e.Queue? && s.timer == Unset && !s.flushing)
                                || (e.FlushEnds? && (!e.ok || s.pending != map[])));
      var delay := if e.FlushEnds? && !e.ok then DelayAfter(o, s.failureCount + 1) else o.flushDelay;
      && t.delays == (if arms then s.delays + [delay] else s.delays)
      && (arms <==> s.timer != Armed && t.timer == Armed)
  {
    hide Good, Counted, ChannelsClosedOnce;
    RunKeepsInv(o, run, events, k);
    DelaysOfStep(o, run[k], events[k]);
  }

  lemma DelaysOfStep(o: Options, s: Proto, e: Event)
    requires Inv(s) && Enabled(s, e)
    ensures var t := Step(o, s, e);
      var arms := !s.closed && ((e.Queue? && s.timer == Unset && !s.flushing)
                                || (e.FlushEnds? && (!e.ok || s.pending != map[])));
      var delay := if e.FlushEnds? && !e.ok then NextRetryDelay(o, s.retryDelay) else o.flushDelay;
      && t.delays == (if arms then s.delays + [delay] else s.delays)
      && (arms <==> s.timer != Armed && t.timer == Armed)
  {
    hide Good, Counted, ChannelsClosedOnce, NextRetryDelay;
    match e
    case Queue(update) => assert update.uid in s.pending[update.uid := |s.accepted|];
    case FlushEnds(which, ok) =>
      if !ok && !s.closed { FailureStep(o, s, which); }
    case _ =>
  }

  /** What is being written is the newest entry of the log of writes. */
  ghost predicate FlightsLogged(s: Proto) {
    s.flights != [] ==> InFlight(s) in s.attempts
  }

  lemma StepLogsFlights(o: Options, s: Proto, e: Event)
    requires OneWriter(s) && Lifecycle(s) && FlightsLogged(s) && Enabled(s, e)
    ensures FlightsLogged(Step(o, s, e))
  {
    hide NextRetryDelay, MergeFailed;
    match e
    case FlushEnds(which, ok) => assert Settle(s, which, ok).flights == [];
    case CloseEnds(which, ok) => assert Settle(s, which, ok).flights == [];
    case _ =>
  }

  lemma {:induction false} RunLogsFlights(o: Options, run: seq<Proto>, events: seq<Event>, k: nat)
    requires IsRun(o, run, events) && k < |run|
    ensures FlightsLogged(run[k])
  {
    hide Good, Counted, ChannelsClosedOnce, Step, Enabled, OneWriter, Lifecycle;
    if k > 0 {
      RunLogsFlights(o, run, events, k - 1);
      RunKeepsInv(o, run, events, k - 1);
      StepLogsFlights(o, run[k - 1], events[k - 1]);
    }
  }

  lemma WritesOfStep(o: Options, s: Proto, e: Event)
    requires OneWriter(s) && FlightsLogged(s) && Enabled(s, e)
    ensures var t := Step(o, s, e);
      && (t.attempts != s.attempts ==>
            (e.FlushBegins? || e.CloseTakes?) && s.pending != map[] && t.attempts == s.attempts + [s.pending])
      && (forall i :: i in t.written && i !in s.written ==>
            (e.FlushEnds? || e.CloseEnds?) && e.ok && i in InFlight(s).Values && InFlight(s) in s.attempts)
  {
    hide NextRetryDelay, MergeFailed, Settle;
    match e
    case FlushEnds(which, ok) => SettleWrites(s, which, ok);
    case CloseEnds(which, ok) => SettleWrites(s, which, ok);
    case _ =>
  }

  lemma SettleWrites(s: Proto, which: nat, ok: bool)
    requires OneWriter(s) && which < |s.flights|
    ensures var t := Settle(s, which, ok);
      t.attempts == s.attempts && t.written == (if ok then s.written + InFlight(s).Values else s.written)
  {
  }

  lemma DiscardsOfStep(o: Options, s: Proto, e: Event, i: nat)
    requires NumbersOf(s.accepted, s.pending) && Enabled(s, e)
    requires i in Step(o, s, e).discarded && i !in s.discarded
    ensures i < |s.accepted| && e == Discard(s.accepted[i].uid) && Holds(s.pending, s.accepted[i].uid, i)
  {
    hide NextRetryDelay, MergeFailed;
  }

  /** The books are honest: a write begins with all that is pending, a number counts as written only
      when a write that carried it returned without an error, and as discarded only when Discard
      was called for its UID while it was pending. */
  lemma BooksAreHonest(o: Options, run: seq<Proto>, events: seq<Event>, k: nat, i: nat)
    requires IsRun(o, run, events) && k < |events|
    ensures var s, t, e := run[k], run[k + 1], events[k];
      && (t.attempts != s.attempts ==>
            (e.FlushBegins? || e.CloseTakes?) && s.pending != map[] && t.attempts == s.attempts + [s.pending])
      && (i in t.written && i !in s.written ==>
            (e.FlushEnds? || e.CloseEnds?) && e.ok && i in InFlight(s).Values && InFlight(s) in s.attempts)
      && (i in t.discarded && i !in s.discarded ==>
            i < |s.accepted| && e == Discard(s.accepted[i].uid) && Holds(s.pending, s.accepted[i].uid, i))
  {
    hide Step, Enabled, Ordered, AllAccounted, Counted, ChannelsClosedOnce, NumbersOf, OneWriter, FlightsLogged, Holds;
    RunKeepsInv(o, run, events, k);
    RunLogsFlights(o, run, events, k);
    WritesOfStep(o, run[k], events[k]);
    assert Numbered(BooksOf(run[k]));
    if i in run[k + 1].discarded && i !in run[k].discarded {
      DiscardsOfStep(o, run[k], events[k], i);
    }
  }

  // ----- what the events do to a reachable state, field by field; used by the class -----

  /** s can be reached by some run. */
  ghost predicate Reached(o: Options, s: Proto) {
    exists run, events :: IsRun(o, run, events) && run[|events|] == s
  }

  lemma ReachedInv(o: Options, s: Proto)
    requires Reached(o, s)
    ensures Inv(s) && s.retryDelay == DelayAfter(o, s.failureCount)
  {
    var run, events :| IsRun(o, run, events) && run[|events|] == s;
    RunKeepsInv(o, run, events, |events|);
  }

  lemma ReachedInitially(o: Options)
    ensures Reached(o, INITIAL_PROTO)
  {
    assert IsRun(o, [INITIAL_PROTO], []);
  }

  lemma ReachedNext(o: Options, s: Proto, e: Event)
    requires Reached(o, s) && Enabled(s, e)
    ensures Reached(o, Step(o, s, e))
    ensures s.callbackCount >= 0
  {
    var run, events :| IsRun(o, run, events) && run[|events|] == s;
    assert IsRun(o, run + [Step(o, s, e)], events + [e]);
    ReachedInv(o, s);
  }

  /** The fields that only the timer and callback events touch are unchanged. */
  ghost predicate SameCallbacks(s: Proto, t: Proto) {
    && t.callbackCount == s.callbackCount && t.closed == s.closed
    && t.retryDelay == s.retryDelay && t.failureCount == s.failureCount && t.delays == s.delays
  }

  lemma QueueEffect(o: Options, s: Proto, update: Update)
    requires Reached(o, s)
    ensures var t := Step(o, s, Queue(update));
      if s.closed then t == s
      else
        && t.accepted == s.accepted + [update] && t.pending == s.pending[update.uid := |s.accepted|]
        && t.flights == s.flights && t.flushing == s.flushing
        && t.timer == (if s.flushing || s.timer != Unset then s.timer else Armed)
        && t.callbackCount == s.callbackCount + (if s.flushing || s.timer != Unset then 0 else 1)
        && t.closed == s.closed && t.retryDelay == s.retryDelay && t.failureCount == s.failureCount
        && t.delays == (if s.flushing || s.timer != Unset then s.delays else s.delays + [o.flushDelay])
  {
    ReachedInv(o, s);
    assert update.uid in s.pending[update.uid := |s.accepted|];
  }

  lemma TimerEffect(o: Options, s: Proto)
    requires Enabled(s, TimerFires)
    ensures Step(o, s, TimerFires) == s.(timer := Fired)
  {
  }

  lemma DiscardEffect(o: Options, s: Proto, uid: Int64)
    ensures var t := Step(o, s, Discard(uid));
      t == s.(pending := if uid > 0 then s.pending - {uid} else s.pending, discarded := t.discarded)
  {
    if uid !in s.pending { assert s.pending - {uid} == s.pending; }
  }

  lemma FlushBeginEffect(o: Options, s: Proto)
    requires Reached(o, s) && Enabled(s, FlushBegins)
    ensures var t := Step(o, s, FlushBegins);
      && t.timer == Unset && t.accepted == s.accepted && SameCallbacks(s, t)
      && if s.closed || s.pending == map[]
         then t.pending == s.pending && t.flights == s.flights && t.flushing == s.flushing
         else s.flights == [] && t.pending == map[] && t.flights == [Flush(s.pending)] && t.flushing
  {
    ReachedInv(o, s);
  }

  lemma FlushEndEffect(o: Options, s: Proto, ok: bool)
    requires Reached(o, s) && Enabled(s, FlushEnds(0, ok))
    ensures var t := Step(o, s, FlushEnds(0, ok));
      && s.timer == Unset
      && t.flights == [] && !t.flushing
      && t.accepted == s.accepted && t.closed == s.closed
      && t.pending == (if ok then s.pending else MergeFailed(s.pending, InFlight(s)))
      && t.failureCount == (if ok then 0 else s.failureCount + 1)
      && t.retryDelay == (if ok then 0 else NextRetryDelay(o, s.retryDelay))
      && t.retryDelay == DelayAfter(o, t.failureCount)
      && t.delays == (if s.closed || t.pending == map[] then s.delays
                      else s.delays + [if ok then o.flushDelay else t.retryDelay])
      && t.timer == (if s.closed || t.pending == map[] then Unset else Armed)
      && (!ok && !s.closed ==> t.timer == Armed)
      && t.callbackCount == s.callbackCount + TimerCount(t.timer)
  {
    ReachedInv(o, s);
    if !ok && !s.closed { FailureStep(o, s, 0); }
  }

  lemma CallbackReturnEffect(o: Options, s: Proto)
    requires Reached(o, s) && Enabled(s, CallbackReturns)
    ensures var t := Step(o, s, CallbackReturns);
      && s.callbackCount > 0
      && t == s.(callbackCount := s.callbackCount - 1, returning := t.returning, idleCloses := t.idleCloses)
  {
    ReachedInv(o, s);
  }

  lemma CloseBeginEffect(o: Options, s: Proto)
    requires Reached(o, s) && Enabled(s, CloseBegins)
    ensures var t := Step(o, s, CloseBegins);
      && (s.timer == Armed ==> s.callbackCount > 0)
      && t.closed && t.timer == Unset
      && t.callbackCount == s.callbackCount - (if s.timer == Armed then 1 else 0)
      && t.accepted == s.accepted && t.pending == s.pending && t.flights == s.flights && t.flushing == s.flushing
      && t.retryDelay == s.retryDelay && t.failureCount == s.failureCount && t.delays == s.delays
      && (t.closer == Waiting <==> t.callbackCount > 0)
  {
    ReachedInv(o, s);
  }

  lemma CloseTakeEffect(o: Options, s: Proto)
    requires Reached(o, s) && Enabled(s, CloseTakes)
    ensures var t := Step(o, s, CloseTakes);
      && s.flights == []
      && t.timer == s.timer && t.accepted == s.accepted && t.flushing == s.flushing && SameCallbacks(s, t)
      && t.pending == map[]
      && t.flights == (if s.pending == map[] then [] else [Final(s.pending)])
  {
    ReachedInv(o, s);
  }

  lemma CloseEndEffect(o: Options, s: Proto, ok: bool)
    requires Reached(o, s) && Enabled(s, CloseEnds(0, ok))
    ensures var t := Step(o, s, CloseEnds(0, ok));
      && t == s.(flights := [], written := t.written, pending := t.pending, closer := Closed(!ok))
      && t.pending == (if ok then s.pending else MergeFailed(s.pending, InFlight(s)))
  {
    ReachedInv(o, s);
  }

  /** Discard does not reach a running write: when that write fails, the UID is pending again,
      with the same update, exactly if the write carried it. */
  lemma FailureUndoesDiscard(o: Options, s: Proto, uid: Int64)
    requires Reached(o, s) && uid > 0 && Enabled(s, FlushEnds(0, false))
    ensures var t := Step(o, s, Discard(uid));
      && Enabled(t, FlushEnds(0, false)) && uid !in t.pending
      && var u := Step(o, t, FlushEnds(0, false));
      && (uid in u.pending <==> uid in InFlight(s))
      && (uid in u.pending ==> u.pending[uid] == InFlight(s)[uid])
  {
    DiscardEffect(o, s, uid);
    ReachedNext(o, s, Discard(uid));
    FlushEndEffect(o, Step(o, s, Discard(uid)), false);
    hide Reached, FlushEnd, NextRetryDelay;
  }
}
