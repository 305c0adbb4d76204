/**
 The life cycle of the automatic market loop, internal/capability/marketapp/marketapp_auto.go:
 start, stop, restart, shutdown and the end of a loop, each one section under autoMu.
 */
module AutoLoop {

  /** Done channels are numbered in the order in which they are made, from 1. */
  datatype Auto = Auto(
    run: bool,
    stop: bool,
    restart: bool,
    shutdown: bool,
    done: nat,               // autoDone; 0 is nil
    created: nat,            // how many channels there are
    live: map<nat, bool>,    // loops that run, by their channel: is the context cancelled?
    closed: seq<nat>)        // the calls of close, oldest first

  const FRESH: Auto := Auto(false, false, false, false, 0, 0, map[], [])

  datatype Event =
    | StartAuto
    | RestartAuto
    | StopAuto             // the section of StopAuto and StopAutoAsync
    | ShutdownBegins       // the section of Shutdown
    | LoopEnds(done: nat)  // finishAutoLoop, for whatever reason the loop ends

  /** startAutoLocked. */
  function Started(s: Auto): Auto {
    s.(created := s.created + 1, done := s.created + 1, run := true, stop := false, restart := false,
       live := s.live[s.created + 1 := s.shutdown])
  }

  /** cancelAutoLocked; the cancel function belongs to the loop of the current channel. */
  function Cancelled(s: Auto): Auto {
    if s.stop then s
    else s.(stop := true, live := if s.done in s.live then s.live[s.done := true] else s.live)
  }

  /** The lifecycle context is the parent of every loop's. */
  function AllCancelled(s: Auto): Auto {
    s.(live := map d | d in s.live :: true)
  }

  /** finishAutoLoop, after which the goroutine is gone. */
  function Ended(s: Auto, d: nat): Auto {
    var t := s.(live := s.live - {d});
    if t.done != d then t
    else
      var u := t.(run := false, stop := false, restart := false, closed := t.closed + [d]);
      if t.restart && !t.shutdown then Started(u) else u
  }

  predicate Enabled(s: Auto, e: Event) {
    e.LoopEnds? ==> e.done in s.live
  }

  function Step(s: Auto, e: Event): Auto
    requires Enabled(s, e)
  {
    match e
    case StartAuto => if s.run || s.shutdown then s else Started(s)
    case RestartAuto =>
      if s.shutdown then s else if !s.run then Started(s) else Cancelled(s.(restart := true))
    case StopAuto => if s.run then Cancelled(s.(restart := false)) else s.(restart := false)
    case ShutdownBegins =>
      var t := AllCancelled(s.(shutdown := true, restart := false));
      if t.run then Cancelled(t) else t
    case LoopEnds(d) => Ended(s, d)
  }

  ghost predicate OnceEach(s: seq<nat>) {
    forall i, j :: 0 <= i < j < |s| ==> s[i] != s[j]
  }

  ghost predicate Inv(s: Auto) {
    && s.done == s.created
    && (forall d :: d in s.live <==> s.run && d == s.done)
    && (s.run ==> s.done > 0)
    && (s.run && (s.stop || s.shutdown) ==> s.live[s.done])
    && (s.restart ==> s.run && s.stop && !s.shutdown)
    && OnceEach(s.closed)
    && (forall d: nat :: d in s.closed <==> 0 < d <= s.created && d !in s.live)
  }

  lemma StepKeepsInv(s: Auto, e: Event)
    requires Inv(s) && Enabled(s, e)
    ensures Inv(Step(s, e))
  {
  }

  ghost predicate IsRun(run: seq<Auto>, events: seq<Event>) {
    && |run| == |events| + 1 && run[0] == FRESH
    && forall k :: 0 <= k < |events| ==> Enabled(run[k], events[k]) && run[k + 1] == Step(run[k], events[k])
  }

  lemma {:induction false} RunKeepsInv(run: seq<Auto>, events: seq<Event>, k: nat)
    requires IsRun(run, events) && k < |run|
    ensures Inv(run[k])
  {
    if k > 0 {
      RunKeepsInv(run, events, k - 1);
      StepKeepsInv(run[k - 1], events[k - 1]);
      hide Inv, Step;
    }
  }

  /** In every run at most one loop is live, and it is the one autoDone stands for. */
  lemma AtMostOneLoop(run: seq<Auto>, events: seq<Event>, k: nat)
    requires IsRun(run, events) && k < |run|
    ensures run[k].live.Keys == if run[k].run then {run[k].done} else {}
    ensures |run[k].live| == if run[k].run then 1 else 0
  {
    RunKeepsInv(run, events, k);
    assert run[k].live.Keys == if run[k].run then {run[k].done} else {};
  }

  /** So finishAutoLoop never meets another channel in autoDone. */
  lemma MismatchUnreachable(run: seq<Auto>, events: seq<Event>, k: nat)
    requires IsRun(run, events) && k < |events| && events[k].LoopEnds?
    ensures events[k].done == run[k].done && events[k].done !in run[k].closed
  {
    RunKeepsInv(run, events, k);
  }

  /** Every channel ever made is closed exactly once, or its loop still runs. */
  lemma ClosedExactlyOnce(run: seq<Auto>, events: seq<Event>, k: nat)
    requires IsRun(run, events) && k < |run|
    ensures OnceEach(run[k].closed)
    ensures forall d: nat :: 0 < d <= run[k].created ==> (d in run[k].closed <==> d !in run[k].live)
  {
    RunKeepsInv(run, events, k);
    hide OnceEach;
  }

  lemma {:induction false} ShutdownStays(run: seq<Auto>, events: seq<Event>, k: nat, m: nat)
    requires IsRun(run, events) && k <= m < |run| && run[k].shutdown
    ensures run[m].shutdown && run[m].created == run[k].created && run[k].closed <= run[m].closed
    decreases m - k
  {
    if k < m {
      ShutdownStays(run, events, k, m - 1);
      RunKeepsInv(run, events, m - 1);
    }
  }

  /** What a call of Shutdown that begins in state s waits for. */
  predicate ShutdownMayReturn(s: Auto, now: Auto) {
    s.run ==> s.done in now.closed
  }

  /** Once Shutdown has returned, no loop runs, and none is ever started. */
  lemma ShutdownIsFinal(run: seq<Auto>, events: seq<Event>, k: nat, m: nat, n: nat)
    requires IsRun(run, events) && k < |events| && events[k] == ShutdownBegins
    requires k < m <= n < |run| && ShutdownMayReturn(run[k], run[m])
    ensures run[n].live == map[] && !run[n].run && run[n].created == run[k].created
  {
    RunKeepsInv(run, events, k);
    ShutdownStays(run, events, k + 1, m);
    ShutdownStays(run, events, m, n);
    RunKeepsInv(run, events, n);
    assert run[k + 1].created == run[k].created;
  }

  /** When the wait of StopAuto for its channel is over, that loop is gone for good. */
  lemma StoppedLoopIsGone(run: seq<Auto>, events: seq<Event>, m: nat, n: nat, d: nat)
    requires IsRun(run, events) && m <= n < |run| && d in run[m].closed
    ensures d !in run[n].live
    decreases n - m
  {
    RunKeepsInv(run, events, n);
    ClosedGrows(run, events, m, n);
  }

  lemma {:induction false} ClosedGrows(run: seq<Auto>, events: seq<Event>, m: nat, n: nat)
    requires IsRun(run, events) && m <= n < |run|
    ensures run[m].closed <= run[n].closed
    decreases n - m
  {
    if m < n { ClosedGrows(run, events, m, n - 1); }
  }

  /** A stop, a restart or a shutdown cancels the loop that runs, and it stays cancelled. */
  lemma StopReachesTheLoop(run: seq<Auto>, events: seq<Event>, k: nat, m: nat)
    requires IsRun(run, events) && k < |events| && run[k].run
    requires events[k].StopAuto? || events[k].RestartAuto? || events[k].ShutdownBegins?
    requires k < m < |run|
    ensures run[k].done in run[m].live ==> run[m].live[run[k].done]
  {
    RunKeepsInv(run, events, k);
    assert run[k].done in run[k + 1].live && run[k + 1].live[run[k].done];
    CancelStays(run, events, k + 1, m, run[k].done);
  }

  ghost predicate CancelledOrGone(s: Auto, d: nat) {
    d <= s.created && (d in s.live ==> s.live[d])
  }

  lemma StepKeepsCancelled(s: Auto, e: Event, d: nat)
    requires Inv(s) && Enabled(s, e) && CancelledOrGone(s, d)
    ensures CancelledOrGone(Step(s, e), d)
  {
  }

  lemma {:induction false} CancelStays(run: seq<Auto>, events: seq<Event>, k: nat, m: nat, d: nat)
    requires IsRun(run, events) && k <= m < |run| && CancelledOrGone(run[k], d)
    ensures CancelledOrGone(run[m], d)
    decreases m - k
  {
    if k < m {
      CancelStays(run, events, k, m - 1, d);
      RunKeepsInv(run, events, m - 1);
      StepKeepsCancelled(run[m - 1], events[m - 1], d);
      hide CancelledOrGone, Inv, Step;
    }
  }

  predicate StopsOrShutsDown(e: Event) { e.StopAuto? || e.ShutdownBegins? }

  lemma {:induction false} RestartPending(run: seq<Auto>, events: seq<Event>, k: nat, m: nat)
    requires IsRun(run, events) && k < m < |run| && events[k] == RestartAuto && run[k].run && !run[k].shutdown
    requires forall i :: k < i < m ==> !StopsOrShutsDown(events[i]) && !events[i].LoopEnds?
    ensures run[m].restart && run[m].run && run[m].done == run[k].done && !run[m].shutdown
    decreases m - k
  {
    RunKeepsInv(run, events, k);
    if k + 1 < m {
      RestartPending(run, events, k, m - 1);
      RunKeepsInv(run, events, m - 1);
    }
  }

  /** A restart of a running loop is honoured when that loop ends, unless a stop or a shutdown
      comes first: a new loop, not cancelled, runs at once. */
  lemma RestartIsHonoured(run: seq<Auto>, events: seq<Event>, k: nat, m: nat)
    requires IsRun(run, events) && k < m < |events| && events[k] == RestartAuto && run[k].run && !run[k].shutdown
    requires forall i :: k < i < m ==> !StopsOrShutsDown(events[i]) && !events[i].LoopEnds?
    requires events[m].LoopEnds?
    ensures run[m + 1].run && run[m + 1].done == run[k].done + 1
      && run[m + 1].live == map[run[m + 1].done := false]
  {
    RestartPending(run, events, k, m);
    RunKeepsInv(run, events, m);
    RunKeepsInv(run, events, m + 1);
  }

  /** A start has an effect exactly when no loop runs, not even one that was told to stop: a start
      that comes while the old loop is still stopping is lost. */
  lemma StartIsLostWhileStopping(s: Auto)
    requires Inv(s)
    ensures Step(s, StartAuto) == s <==> s.run || s.shutdown
    ensures s.run && s.stop && !s.restart ==> !Step(Step(s, StartAuto), LoopEnds(s.done)).run
  {
  }

  /** A stop or a shutdown withdraws a pending restart: from then on no loop is started, not even when
      the old one ends, until a start or a restart comes. */
  lemma {:induction false} StopWithdrawsRestart(run: seq<Auto>, events: seq<Event>, k: nat, m: nat)
    requires IsRun(run, events) && k < m < |run| && (events[k].StopAuto? || events[k].ShutdownBegins?)
    requires forall i :: k < i < m ==> !events[i].StartAuto? && !events[i].RestartAuto?
    ensures run[m].created == run[k].created && !run[m].restart
    ensures run[m].live.Keys <= run[k].live.Keys
    ensures (exists i :: k < i < m && events[i].LoopEnds?) ==> run[m].live == map[] && !run[m].run
    decreases m - k
  {
    RunKeepsInv(run, events, k);
    RunKeepsInv(run, events, m);
    if k + 1 < m {
      RunKeepsInv(run, events, m - 1);
      StopWithdrawsRestart(run, events, k, m - 1);
    }
  }

  /** With no loop running a start or a restart starts a fresh one, not cancelled; after a shutdown
      neither does anything. */
  lemma StartStarts(s: Auto, e: Event)
    requires Inv(s) && (e.StartAuto? || e.RestartAuto?)
    ensures s.shutdown ==> Step(s, e) == s
    ensures !s.run && !s.shutdown ==>
      var t := Step(s, e);
      && t.run && !t.restart && t.created == s.created + 1 && t.live == map[t.done := false] && t.closed == s.closed
  {
  }

  /** Nothing else cancels a loop, and a loop that is not to be restarted leaves none behind. */
  lemma OnlyStopsCancel(s: Auto, e: Event, d: nat)
    requires Inv(s) && Enabled(s, e)
    ensures var t := Step(s, e);
      && (d in s.live && d in t.live && t.live[d] && !s.live[d] ==>
            e.StopAuto? || e.RestartAuto? || e.ShutdownBegins?)
      && (e.LoopEnds? ==>
            && t.closed == s.closed + [s.done]
            && (if s.restart then t.run && t.live == map[s.created + 1 := false] else !t.run && t.live == map[]))
  {
  }

  // ----- the fields -----

  class App {
    var autoRun: bool
    var autoStop: bool
    var autoRestart: bool
    var autoShutdown: bool
    var autoDone: nat
    var channels: nat
    var loops: map<nat, bool>
    var closed: seq<nat>

    ghost function View(): Auto
      reads this
    {
      Auto(autoRun, autoStop, autoRestart, autoShutdown, autoDone, channels, loops, closed)
    }

    ghost predicate Valid()
      reads this
    {
      Inv(View())
    }

    constructor ()
      ensures View() == FRESH && Valid()
    {
      autoRun, autoStop, autoRestart, autoShutdown := false, false, false, false;
      autoDone, channels, loops, closed := 0, 0, map[], [];
    }

    method StartAutoLocked()
      modifies this
      ensures View() == Started(old(View()))
    {
      channels := channels + 1;
      autoDone := channels;
      autoRun := true;
      autoStop := false;
      autoRestart := false;
      loops := loops[autoDone := autoShutdown];
    }

    method CancelAutoLocked()
      modifies this`autoStop, this`loops
      ensures View() == Cancelled(old(View()))
    {
      if autoStop {
        return;
      }
      autoStop := true;
      if autoDone in loops {
        loops := loops[autoDone := true];
      }
    }

    method StartAuto()
      requires Valid()
      modifies this
      ensures View() == Step(old(View()), Event.StartAuto)
      ensures Valid()
    {
      StepKeepsInv(View(), Event.StartAuto);
      hide Inv;
      if autoRun || autoShutdown {
        return;
      }
      StartAutoLocked();
    }

    method RestartAutoAsync()
      requires Valid()
      modifies this
      ensures View() == Step(old(View()), RestartAuto)
      ensures Valid()
    {
      StepKeepsInv(View(), RestartAuto);
      hide Inv;
      if autoShutdown {
        return;
      }
      if !autoRun {
        StartAutoLocked();
        return;
      }
      autoRestart := true;
      CancelAutoLocked();
    }

    /** The channel to wait for, or 0. */
    method StopAutoWithWait() returns (done: nat)
      requires Valid()
      modifies this
      ensures View() == Step(old(View()), StopAuto)
      ensures done == if old(autoRun) then old(autoDone) else 0
      ensures Valid()
    {
      StepKeepsInv(View(), StopAuto);
      hide Inv;
      autoRestart := false;
      if !autoRun {
        return 0;
      }
      CancelAutoLocked();
      done := autoDone;
    }

    /** The channel to wait for, or 0. */
    method Shutdown() returns (done: nat)
      requires Valid()
      modifies this
      ensures View() == Step(old(View()), ShutdownBegins)
      ensures autoShutdown && !autoRestart && (old(autoRun) ==> autoStop)
      ensures done == if old(autoRun) then old(autoDone) else 0
      ensures Valid()
    {
      StepKeepsInv(View(), ShutdownBegins);
      hide Inv;
      autoShutdown := true;
      autoRestart := false;
      loops := map d | d in loops :: true;
      done := 0;
      if autoRun {
        CancelAutoLocked();
        done := autoDone;
      }
    }

    /** Closing a closed channel would panic. */
    method CloseChannel(d: nat)
      requires d !in closed
      modifies this`closed
      ensures closed == old(closed) + [d]
    {
      closed := closed + [d];
    }

    method FinishAutoLoop(done: nat)
      requires Valid() && done in loops
      modifies this
      ensures View() == Step(old(View()), LoopEnds(done))
      ensures Valid()
    {
      StepKeepsInv(View(), LoopEnds(done));
      assert done !in closed;
      hide Inv;
      loops := loops - {done};
      if autoDone != done {
        return;
      }
      autoRun := false;
      autoStop := false;
      var restart := autoRestart && !autoShutdown;
      autoRestart := false;
      CloseChannel(done);
      if restart {
        StartAutoLocked();
      }
    }
  }
}
