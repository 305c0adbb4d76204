/**
 The position batcher of internal/scheduler/position_batcher.go: one method per lock section.
 The ghost field `proto` is the protocol state of PositionProtocol; every method takes exactly
 one protocol step, so the theorems about runs hold of the object, reuse of its batch buffer
 included.
 */
module PositionBatcher {
  import opened Collections
  import opened PositionProtocol

  /** The channel Close waits on; closing it twice would panic. */
  class Channel {
    var closes: nat

    constructor ()
      ensures closes == 0
    {
      closes := 0;
    }

    method Close()
      requires closes == 0
      modifies this
      ensures closes == 1
    {
      closes := 1;
    }
  }

  /** A one-shot timer: armed until it is stopped or its callback is started. */
  class TimerHandle {
    var armed: bool
    const delay: int

    constructor (delay: int)
      ensures armed && this.delay == delay
    {
      armed, this.delay := true, delay;
    }

    method Stop() returns (stopped: bool)
      modifies this
      ensures stopped == old(armed) && !armed
    {
      stopped := armed;
      armed := false;
    }
  }

  const NO_UPDATE: Update := Update(0, 0, 0, 0, 0, 0)

  // ----- batches -----

  /** The updates behind the numbers of m. */
  ghost function Updates(accepted: seq<Update>, m: map<Int64, nat>): map<Int64, Update> {
    map u | u in m && m[u] < |accepted| :: accepted[m[u]]
  }

  lemma UpdatesAfterQueue(o: Options, s: Proto, update: Update)
    requires Reached(o, s)
    ensures Updates(s.accepted + [update], s.pending[update.uid := |s.accepted|]) ==
      Updates(s.accepted, s.pending)[update.uid := update]
    ensures Updates(s.accepted + [update], InFlight(s)) == Updates(s.accepted, InFlight(s))
  {
    ReachedInv(o, s);
    assert Numbered(BooksOf(s));
  }

  lemma UpdatesAfterMerge(o: Options, s: Proto)
    requires Reached(o, s)
    ensures Updates(s.accepted, MergeFailed(s.pending, InFlight(s))) ==
      Updates(s.accepted, InFlight(s)) + Updates(s.accepted, s.pending)
  {
    ReachedInv(o, s);
    assert Numbered(BooksOf(s));
  }

  lemma UpdatesKeyed(o: Options, s: Proto)
    requires Reached(o, s)
    ensures Keyed(Updates(s.accepted, s.pending))
    ensures s.pending == map[] <==> Updates(s.accepted, s.pending) == map[]
    ensures Updates(s.accepted, map[]) == map[]
  {
    ReachedInv(o, s);
    assert Numbered(BooksOf(s));
    assert Updates(s.accepted, s.pending).Keys == s.pending.Keys;
  }

  lemma UpdatesAfterDiscard(accepted: seq<Update>, m: map<Int64, nat>, uid: Int64)
    ensures Updates(accepted, m - {uid}) == Updates(accepted, m) - {uid}
  {
  }

  ghost predicate Keyed(b: map<Int64, Update>) {
    forall u :: u in b ==> b[u].uid == u
  }

  /** s lists the values of b, each once. */
  ghost predicate Lists(s: seq<Update>, b: map<Int64, Update>) {
    && |s| == |b|
    && (forall i :: 0 <= i < |s| ==> s[i].uid in b && b[s[i].uid] == s[i])
    && (forall i, j :: 0 <= i < j < |s| ==> s[i].uid != s[j].uid)
  }

  ghost predicate Ascending(s: seq<Update>) {
    forall i, j :: 0 <= i < j < |s| ==> s[i].uid < s[j].uid
  }

  ghost function Uids(s: seq<Update>): set<Int64> {
    set i | 0 <= i < |s| :: s[i].uid
  }

  lemma {:induction false} DistinctUids(s: seq<Update>)
    requires forall i, j :: 0 <= i < j < |s| ==> s[i].uid != s[j].uid
    ensures |Uids(s)| == |s|
  {
    if s != [] {
      var t := s[..|s| - 1];
      DistinctUids(t);
      assert Uids(s) == Uids(t) + {s[|s| - 1].uid};
    }
  }

  /** A list of b misses no key of b. */
  lemma ListsAll(s: seq<Update>, b: map<Int64, Update>)
    requires Lists(s, b)
    ensures Uids(s) == b.Keys
  {
    DistinctUids(s);
    SubsetSize(Uids(s), b.Keys);
  }

  /** What the writer is given: the pending updates in ascending order of UID. */
  ghost predicate BatchOf(s: seq<Update>, b: map<Int64, Update>) {
    Lists(s, b) && Ascending(s)
  }

  /** The state of the take loop: list has the updates of b whose keys are no longer to do. */
  ghost predicate Taken(list: seq<Update>, b: map<Int64, Update>, todo: set<Int64>) {
    && (forall i :: 0 <= i < |list| ==> list[i].uid in b.Keys - todo && b[list[i].uid] == list[i])
    && (forall i, j :: 0 <= i < j < |list| ==> list[i].uid != list[j].uid)
  }

  lemma TakeOne(list: seq<Update>, b: map<Int64, Update>, todo: set<Int64>, uid: Int64)
    requires Taken(list, b, todo) && Keyed(b) && uid in todo && todo <= b.Keys
    ensures Taken(list + [b[uid]], b, todo - {uid})
  {
  }

  lemma TookAll(list: seq<Update>, b: map<Int64, Update>)
    requires Taken(list, b, {}) && |list| == |b|
    ensures Lists(list, b)
  {
  }

  /** The state of the merge loop after the entries of list. */
  ghost predicate PartlyMerged(list: seq<Update>, b: map<Int64, Update>, was: map<Int64, Update>,
        now: map<Int64, Update>) {
    && (forall u :: u in was ==> u in now && now[u] == was[u])
    && Uids(list) <= now.Keys
    && (forall u :: u in now && u !in was ==> u in b && now[u] == b[u])
  }

  lemma MergeOne(list: seq<Update>, i: nat, b: map<Int64, Update>, was: map<Int64, Update>, now: map<Int64, Update>)
    requires Lists(list, b) && i < |list| && PartlyMerged(list[..i], b, was, now)
    ensures PartlyMerged(list[..i + 1], b, was, if list[i].uid in now then now else now[list[i].uid := list[i]])
  {
    assert Uids(list[..i + 1]) == Uids(list[..i]) + {list[i].uid};
  }

  lemma FullyMerged(list: seq<Update>, b: map<Int64, Update>, was: map<Int64, Update>, now: map<Int64, Update>)
    requires Lists(list, b) && PartlyMerged(list, b, was, now)
    ensures now == b + was
  {
    ListsAll(list, b);
    MergedMap(b, was, now);
  }

  lemma MergedMap(b: map<Int64, Update>, was: map<Int64, Update>, now: map<Int64, Update>)
    requires b.Keys <= now.Keys
    requires forall u :: u in was ==> u in now && now[u] == was[u]
    requires forall u :: u in now && u !in was ==> u in b && now[u] == b[u]
    ensures now == b + was
  {
  }

  /** Swapping two entries of a list leaves a list of the same map. */
  lemma SwapKeepsLists(s: seq<Update>, b: map<Int64, Update>, i: nat, j: nat)
    requires Lists(s, b) && i < j < |s|
    ensures Lists(s[i := s[j]][j := s[i]], b)
  {
  }

  class PositionBatcher {
    const options: Options
    var pending: map<Int64, Update>
    var timer: TimerHandle?
    var flushing: bool
    var closed: bool
    var retryDelay: int
    var failureCount: nat
    var callbackCount: int
    var callbacksIdle: Channel?
    var batchBuffer: array?<Update>  // a slice of length 0; its capacity is the array's length

    // The batch held by the write in progress: a local of flushTimer or of Close.
    ghost var held: array?<Update>
    ghost var heldList: seq<Update>
    ghost var proto: Proto

    ghost predicate HoldsBatch()
      reads this, held
    {
      if proto.flights == [] then held == null
      else
        && held != null && held != batchBuffer && |heldList| <= held.Length
        && held[..|heldList|] == heldList
        && BatchOf(heldList, Updates(proto.accepted, InFlight(proto)))
    }

    function TimerState(): Timer
      reads this, timer
    {
      if timer == null then Unset else if timer.armed then Armed else Fired
    }

    ghost predicate Mirrors()
      reads this, timer, callbacksIdle
    {
      && pending == Updates(proto.accepted, proto.pending)
      && TimerState() == proto.timer
      && (timer != null ==> proto.delays != [] && timer.delay == proto.delays[|proto.delays| - 1])
      && flushing == proto.flushing && closed == proto.closed
      && retryDelay == proto.retryDelay && failureCount == proto.failureCount
      && callbackCount == proto.callbackCount
      && (callbackCount > 0 ==> callbacksIdle != null && callbacksIdle.closes == 0)
    }

    ghost predicate Valid()
      reads this, timer, callbacksIdle, held
    {
      && ValidOptions(options)
      && Reached(options, proto)
      && Mirrors()
      && HoldsBatch()
    }

    constructor (options: Options)
      requires ValidOptions(options)
      ensures Valid() && proto == INITIAL_PROTO && this.options == options
    {
      this.options := options;
      pending, timer, flushing, closed := map[], null, false, false;
      retryDelay, failureCount, callbackCount := 0, 0, 0;
      callbacksIdle, batchBuffer := null, null;
      held, heldList, proto := null, [], INITIAL_PROTO;
      ReachedInitially(options);
    }

    // ----- helpers that run under the lock -----

    method StartCallback()
      requires callbackCount >= 0
      modifies this`callbackCount, this`callbacksIdle
      ensures callbackCount == old(callbackCount) + 1
      ensures if old(callbackCount) == 0 then callbacksIdle != null && fresh(callbacksIdle) && callbacksIdle.closes == 0
              else callbacksIdle == old(callbacksIdle)
    {
      if callbackCount == 0 {
        callbacksIdle := new Channel();
      }
      callbackCount := callbackCount + 1;
    }

    method FinishCallback()
      requires callbackCount > 0 ==> callbacksIdle != null && callbacksIdle.closes == 0
      modifies this`callbackCount, callbacksIdle
      ensures callbackCount == if old(callbackCount) > 0 then old(callbackCount) - 1 else old(callbackCount)
      ensures callbackCount > 0 ==> callbacksIdle.closes == 0
    {
      if callbackCount <= 0 {
        return;
      }
      callbackCount := callbackCount - 1;
      if callbackCount == 0 {
        callbacksIdle.Close();
      }
    }

    method ScheduleTimer(delay: int)
      requires callbackCount >= 0
      requires callbackCount > 0 ==> callbacksIdle != null && callbacksIdle.closes == 0
      modifies this`callbackCount, this`callbacksIdle, this`timer
      ensures var arms := !(closed || flushing || old(timer) != null || pending == map[]);
        && callbackCount == old(callbackCount) + (if arms then 1 else 0)
        && (if arms then timer != null && fresh(timer) && timer.armed && timer.delay == delay
            else timer == old(timer))
        && (callbackCount > 0 ==> callbacksIdle != null && callbacksIdle.closes == 0)
    {
      if closed || flushing || timer != null || |pending| == 0 {
        return;
      }
      StartCallback();
      timer := new TimerHandle(delay);
    }

    /** Sort the first n entries by UID, in place. */
    method SortByUid(batch: array<Update>, n: nat, ghost b: map<Int64, Update>)
      requires n <= batch.Length && Lists(batch[..n], b)
      modifies batch
      ensures Lists(batch[..n], b) && Ascending(batch[..n])
    {
      var i := 0;
      while i < n
        invariant 0 <= i <= n
        invariant Lists(batch[..n], b) && Ascending(batch[..i])
      {
        var j := i;
        while j > 0 && batch[j].uid < batch[j - 1].uid
          invariant 0 <= j <= i
          invariant Lists(batch[..n], b)
          invariant forall k, l :: 0 <= k < l <= i && l != j ==> batch[k].uid < batch[l].uid
        {
          SwapKeepsLists(batch[..n], b, j - 1, j);
          ghost var was := batch[..n];
          batch[j - 1], batch[j] := batch[j], batch[j - 1];
          assert batch[..n] == was[j - 1 := was[j]][j := was[j - 1]];
          j := j - 1;
        }
        assert j > 0 ==> batch[..n][j - 1].uid != batch[..n][j].uid;
        i := i + 1;
      }
    }

    /** Empty the pending map into a batch, sorted by UID, reusing the spare buffer if it is large enough. */
    method TakePending() returns (batch: array<Update>, n: nat)
      requires pending != map[] && Keyed(pending)
      modifies this`pending, this`batchBuffer, this`held, this`heldList, batchBuffer
      ensures pending == map[] && batchBuffer == null
      ensures batch == old(batchBuffer) || fresh(batch)
      ensures batch == old(batchBuffer) <==> old(batchBuffer) != null && old(batchBuffer).Length >= |old(pending)|
      ensures fresh(batch) ==> batch.Length == |old(pending)|
      ensures held == batch && n == |heldList| <= batch.Length
      ensures batch[..n] == heldList && BatchOf(heldList, old(pending))
    {
      ghost var all := pending;
      if batchBuffer == null || batchBuffer.Length < |pending| {
        batch := new Update[|pending|](_ => NO_UPDATE);
      } else {
        batch := batchBuffer;
      }
      batchBuffer := null;
      n := 0;
      var todo := pending.Keys;
      assert Taken(batch[..0], all, todo);
      hide Taken, Ascending;
      while todo != {}
        invariant todo <= all.Keys && n + |todo| == |all| <= batch.Length
        invariant pending == all && batchBuffer == null
        invariant Taken(batch[..n], all, todo)
        decreases todo
      {
        var uid := Choose(todo);
        TakeOne(batch[..n], all, todo, uid);
        batch[n] := pending[uid];
        assert batch[..n + 1] == batch[..n] + [all[uid]];
        n := n + 1;
        todo := todo - {uid};
      }
      TookAll(batch[..n], all);
      SortByUid(batch, n, all);
      pending := map[];
      held, heldList := batch, batch[..n];
    }

    /** Put a failed batch back, keeping what is newer. */
    method MergeBack(batch: array<Update>, n: nat, ghost b: map<Int64, Update>)
      requires n <= batch.Length && BatchOf(batch[..n], b)
      modifies this`pending
      ensures pending == b + old(pending)
    {
      assert PartlyMerged([], b, pending, pending);
      hide Lists, Ascending, PartlyMerged;
      ghost var was, list := pending, batch[..n];
      var i := 0;
      while i < n
        invariant 0 <= i <= n && batch[..n] == list
        invariant PartlyMerged(list[..i], b, was, pending)
      {
        var failed := batch[i];
        assert list[i] == failed;
        MergeOne(list, i, b, was, pending);
        if failed.uid !in pending {
          pending := pending[failed.uid := failed];
        }
        i := i + 1;
      }
      assert list[..n] == list;
      FullyMerged(list, b, was, pending);
    }

    /** Count the outcome of a flush, put a failed batch back and arm the timer again. */
    method AfterWrite(batch: array<Update>, n: nat, ok: bool, ghost b: map<Int64, Update>)
      requires n <= batch.Length && BatchOf(batch[..n], b)
      requires callbackCount >= 0 && timer == null
      requires callbackCount > 0 ==> callbacksIdle != null && callbacksIdle.closes == 0
      modifies this`pending, this`flushing, this`callbackCount, this`callbacksIdle
      modifies this`timer, this`failureCount, this`retryDelay
      ensures !flushing
      ensures pending == if ok then old(pending) else b + old(pending)
      ensures failureCount == if ok then 0 else old(failureCount) + 1
      ensures retryDelay == if ok then 0 else NextRetryDelay(options, old(retryDelay))
      ensures TimerState() == if closed || pending == map[] then Unset else Armed
      ensures timer != null ==> timer.delay == if ok then options.flushDelay else retryDelay
      ensures callbackCount == old(callbackCount) + TimerCount(TimerState())
      ensures callbackCount > 0 ==> callbacksIdle != null && callbacksIdle.closes == 0
    {
      hide BatchOf;
      flushing := false;
      if !ok {
        MergeBack(batch, n, b);
        failureCount := failureCount + 1;
        retryDelay := NextRetryDelay(options, retryDelay);
        ScheduleTimer(retryDelay);
      } else {
        failureCount := 0;
        retryDelay := 0;
        ScheduleTimer(options.flushDelay);
      }
    }

    /** Clear the batch and keep it as the spare buffer if it is the larger one. */
    method Recycle(batch: array<Update>, n: nat)
      requires n <= batch.Length
      modifies batch, this`batchBuffer, this`held, this`heldList
      ensures held == null
      ensures batchBuffer ==
        if old(batchBuffer) == null || batch.Length > old(batchBuffer).Length then batch else old(batchBuffer)
      ensures forall i :: 0 <= i < n ==> batch[i] == NO_UPDATE
    {
      var i := 0;
      while i < n
        invariant 0 <= i <= n && batchBuffer == old(batchBuffer)
        invariant forall j :: 0 <= j < i ==> batch[j] == NO_UPDATE
      {
        batch[i] := NO_UPDATE;
        i := i + 1;
      }
      if batchBuffer == null || batch.Length > batchBuffer.Length {
        batchBuffer := batch;
      }
      held, heldList := null, [];
    }

    // ----- the lock sections -----

    method Queue(update: Update) returns (rejected: bool)
      requires Valid()
      modifies this
      ensures Valid() && proto == Step(options, old(proto), Event.Queue(update))
      ensures rejected == old(closed)
      ensures timer != old(timer) ==>
        old(timer) == null && timer != null && timer.armed && timer.delay == options.flushDelay
    {
      hide Step, ValidOptions, Reached, Updates, BatchOf, Keyed;
      ReachedNext(options, proto, Event.Queue(update));
      QueueEffect(options, proto, update);
      UpdatesAfterQueue(options, proto, update);
      if closed {
        proto := Step(options, proto, Event.Queue(update));
        return true;
      }
      pending := pending[update.uid := update];
      assert update.uid in pending;
      ScheduleTimer(options.flushDelay);
      proto := Step(options, proto, Event.Queue(update));
      rejected := false;
    }

    method Discard(uid: Int64)
      requires Valid()
      modifies this
      ensures Valid() && proto == Step(options, old(proto), Event.Discard(uid))
    {
      hide Step, ValidOptions, Reached, Updates, BatchOf, Keyed;
      ReachedNext(options, proto, Event.Discard(uid));
      DiscardEffect(options, proto, uid);
      UpdatesAfterDiscard(proto.accepted, proto.pending, uid);
      if uid > 0 {
        pending := pending - {uid};
      }
      proto := Step(options, proto, Event.Discard(uid));
    }

    /** The runtime starts the callback of an armed timer. */
    method TimerFires()
      requires Valid() && Enabled(proto, Event.TimerFires)
      modifies this, timer
      ensures Valid() && proto == Step(options, old(proto), Event.TimerFires)
    {
      ReachedNext(options, proto, Event.TimerFires);
      TimerEffect(options, proto);
      timer.armed := false;
      proto := Step(options, proto, Event.TimerFires);
    }

    /** The first lock section of flushTimer: take what is pending, or nothing. */
    method FlushBegins() returns (batch: array?<Update>, n: nat)
      requires Valid() && Enabled(proto, Event.FlushBegins)
      modifies this, batchBuffer
      ensures proto == Step(options, old(proto), Event.FlushBegins)
      ensures batch != null ==> batch == held && n == |heldList|
      ensures batch == null <==> old(closed) || old(pending) == map[]
      ensures Valid()
    {
      hide Step, Enabled, ValidOptions, Reached, Updates, BatchOf, Keyed;
      ReachedNext(options, proto, Event.FlushBegins);
      FlushBeginEffect(options, proto);
      UpdatesKeyed(options, proto);
      ghost var next := Step(options, proto, Event.FlushBegins);
      timer := null;
      batch, n := null, 0;
      if closed || |pending| == 0 {
        proto := next;
        return;
      }
      batch, n := TakePending();
      flushing := true;
      proto := next;
    }

    /** The second lock section of flushTimer, after the write returned. */
    method FlushEnds(batch: array<Update>, n: nat, ok: bool)
      requires Valid() && Enabled(proto, Event.FlushEnds(0, ok)) && batch == held && n == |heldList|
      modifies this, batch
      ensures proto == Step(options, old(proto), Event.FlushEnds(0, ok))
      ensures failureCount == if ok then 0 else old(failureCount) + 1
      ensures !ok && !closed ==> timer != null && timer.armed && timer.delay == DelayAfter(options, failureCount)
      ensures ok && timer != null ==> timer.armed && timer.delay == options.flushDelay
      ensures forall i :: 0 <= i < n ==> batch[i] == NO_UPDATE
      ensures Valid()
    {
      hide Step, Enabled, ValidOptions, Reached, Updates, BatchOf, MergeFailed, InFlight, NextRetryDelay;
      hide Keyed, DelayAfter;
      ReachedNext(options, proto, Event.FlushEnds(0, ok));
      FlushEndEffect(options, proto, ok);
      ghost var next := Step(options, proto, Event.FlushEnds(0, ok));
      UpdatesKeyed(options, next);
      UpdatesAfterMerge(options, proto);
      ghost var b := Updates(proto.accepted, InFlight(proto));
      AfterWrite(batch, n, ok, b);
      Recycle(batch, n);
      proto := next;
    }

    /** The deferred finishCallback of a timer callback. */
    method CallbackReturns()
      requires Valid() && Enabled(proto, Event.CallbackReturns)
      modifies this, callbacksIdle
      ensures Valid() && proto == Step(options, old(proto), Event.CallbackReturns)
    {
      hide Step, Enabled, ValidOptions, Reached, Updates, BatchOf, Keyed;
      ReachedNext(options, proto, Event.CallbackReturns);
      CallbackReturnEffect(options, proto);
      FinishCallback();
      proto := Step(options, proto, Event.CallbackReturns);
    }

    /** The first lock section of Close; the result says whether it has to wait. */
    method CloseBegins() returns (wait: bool)
      requires Valid() && Enabled(proto, Event.CloseBegins)
      modifies this, timer, callbacksIdle
      ensures Valid() && proto == Step(options, old(proto), Event.CloseBegins)
      ensures wait <==> proto.closer == Waiting
    {
      hide Step, Enabled, ValidOptions, Reached, Updates, BatchOf, Keyed;
      ReachedNext(options, proto, Event.CloseBegins);
      CloseBeginEffect(options, proto);
      closed := true;
      if timer != null {
        var t := timer;
        timer := null;
        var stopped := t.Stop();
        if stopped {
          FinishCallback();
        }
      }
      wait := callbackCount > 0;
      proto := Step(options, proto, Event.CloseBegins);
    }

    /** The second lock section of Close. */
    method CloseTakes() returns (batch: array?<Update>, n: nat)
      requires Valid() && Enabled(proto, Event.CloseTakes)
      modifies this, batchBuffer
      ensures Valid() && proto == Step(options, old(proto), Event.CloseTakes)
      ensures batch != null ==> batch == held && n == |heldList|
      ensures batch == null <==> old(pending) == map[]
    {
      hide Step, Enabled, ValidOptions, Reached, Updates, BatchOf, Keyed;
      ReachedNext(options, proto, Event.CloseTakes);
      CloseTakeEffect(options, proto);
      UpdatesKeyed(options, proto);
      batch, n := null, 0;
      if |pending| > 0 {
        batch, n := TakePending();
      }
      proto := Step(options, proto, Event.CloseTakes);
    }

    /** The last lock section of Close, after its own write returned. */
    method CloseEnds(batch: array<Update>, n: nat, ok: bool)
      requires Valid() && Enabled(proto, Event.CloseEnds(0, ok)) && batch == held && n == |heldList|
      modifies this, batch
      ensures Valid() && proto == Step(options, old(proto), Event.CloseEnds(0, ok))
      ensures forall i :: 0 <= i < n ==> batch[i] == NO_UPDATE
    {
      hide Step, Enabled, ValidOptions, Reached, Updates, BatchOf, MergeFailed, InFlight, NextRetryDelay;
      ReachedNext(options, proto, Event.CloseEnds(0, ok));
      CloseEndEffect(options, proto, ok);
      UpdatesAfterMerge(options, proto);
      ghost var b := Updates(proto.accepted, InFlight(proto));
      if !ok {
        MergeBack(batch, n, b);
      }
      Recycle(batch, n);
      proto := Step(options, proto, Event.CloseEnds(0, ok));
    }
  }
}
