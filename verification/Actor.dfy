/**
 The actor object of internal/actor: the setters of actor_state.go and the loop of actor_loop.go
 on the fields themselves.  A call into the runtime is answered by an argument, and a method
 that the program leaves by a panic says so in its result.
 */
module Actor {
  import opened Collections
  import opened ActorModel

  class Actor {
    const slotID: nat
    var uid: Int64
    var generation: nat
    var mode: Mode
    var state: State
    var busy: bool
    var failures: nat
    var onlineDesired: bool
    var releaseRequested: bool
    var quarantined: bool
    var stopClosed: bool
    var doneClosed: bool
    ghost var resets: nat
    ghost var closes: seq<CloseCall>

    ghost function View(): ActorState
      reads this
    {
      ActorState(slotID, uid, generation, mode, state, busy, failures, onlineDesired, releaseRequested,
                 quarantined, stopClosed, doneClosed, resets, closes)
    }

    constructor (slotID: nat, mode: Mode)
      ensures View() == NewActor(slotID, mode)
    {
      this.slotID, this.mode := slotID, mode;
      uid, generation, failures, state := 0, 0, 0, Idle;
      busy, onlineDesired, releaseRequested := false, false, false;
      quarantined, stopClosed, doneClosed := false, false, false;
      resets, closes := 0, [];
    }

    /** The counter is a uint64. */
    method NextGeneration()
      modifies this`generation, this`resets
      ensures generation == (old(generation) + 1) % UINT64 && resets == old(resets) + 1
    {
      generation := (generation + 1) % UINT64;
      resets := resets + 1;
    }

    method ResetForUID(newUID: Int64)
      modifies this
      ensures View() == Reset(old(View()), newUID)
      ensures uid == newUID && generation == (old(generation) + 1) % UINT64 && failures == 0
      ensures !busy && !releaseRequested && !quarantined && (onlineDesired <==> newUID > 0)
      ensures state == if newUID > 0 then Assigned else Idle
      ensures mode == old(mode) && stopClosed == old(stopClosed) && doneClosed == old(doneClosed)
    {
      NextGeneration();
      uid := newUID;
      failures, busy, releaseRequested, onlineDesired, quarantined := 0, false, false, newUID > 0, false;
      state := if newUID > 0 then Assigned else Idle;
    }

    method QuarantineCurrentUID()
      modifies this
      ensures View() == Quarantine(old(View()))
      ensures uid == old(uid) && (quarantined <==> uid > 0) && !busy && !onlineDesired && releaseRequested
      ensures state == if uid > 0 then Releasing else old(state)
    {
      quarantined := uid > 0;
      busy := false;
      onlineDesired := false;
      releaseRequested := true;
      if uid > 0 {
        state := Releasing;
      }
    }

    method HandleLoopPanic()
      modifies this
      ensures View() == AfterPanic(old(View()))
      ensures uid == old(uid) && quarantined == old(quarantined) && !busy && !onlineDesired
      ensures (releaseRequested <==> uid > 0) && state == if uid > 0 then Releasing else Idle
    {
      busy := false;
      onlineDesired := false;
      releaseRequested := uid > 0;
      if uid > 0 {
        state := Releasing;
      } else {
        state := Idle;
      }
    }

    /** A command or a tick under its own recovery. */
    method Act(effect: Effect, panics: bool)
      modifies this
      ensures View() == ApplyEffect(old(View()), effect, panics)
    {
      state, busy, failures, onlineDesired := effect.state, effect.busy, effect.failures, effect.onlineDesired;
      if panics {
        HandleLoopPanic();
      }
    }

    method RequestStop()
      modifies this
      ensures View() == Step(old(View()), AskStop)
      ensures stopClosed && releaseRequested && uid == old(uid) && doneClosed == old(doneClosed)
    {
      releaseRequested := true;
      stopClosed := true;
    }

    method ReleaseRuntimeUID(c: CloseAnswers) returns (answer: Answer)
      modifies this`closes
      ensures View() == TryClose(old(View()), c) && answer == CloseResult(c)
      ensures answer == Yes <==>
        || c.logout == Yes
        || (c.logout == No && c.canForce && c.fallback == Yes)
        || (c.logout == No && !c.canForce && c.fallback == No)
      ensures answer == Panic <==> c.logout == Panic || (c.logout == No && c.fallback == Panic)
    {
      if c.logout == Yes {
        answer := Yes;
      } else if c.logout == Panic {
        answer := Panic;
      } else if c.canForce {
        answer := c.fallback;
      } else {
        // IsActive answers the opposite question
        answer := if c.fallback == Yes then No else if c.fallback == No then Yes else Panic;
      }
      if answer != Panic {
        closes := closes + [CloseCall(uid, answer == Yes)];
      }
    }

    /** The UID that was released, or 0. */
    method ReleaseCurrentUID(r: ReleaseAnswers) returns (released: Outcome)
      modifies this
      ensures (View(), released) == ReleaseCurrent(old(View()), r)
    {
      var held := uid;
      if held <= 0 {
        state := Idle;
        return Value(0);
      }
      state := Releasing;
      if r.lookup == Panic {
        return Panicked;
      }
      var closed := ReleaseRuntimeUID(r.close);
      if closed == Panic {
        return Panicked;
      }
      if closed == No {
        return Value(0);
      }
      ResetForUID(0);
      released := Value(held);
    }

    /** What a stop does: up to eight attempts, and quarantine when all of them fail. */
    method ReleaseCurrentUIDUntilClosed(s: Stop) returns (outcome: Outcome)
      modifies this
      ensures (View(), outcome) == ReleaseUntilClosed(old(View()), s)
    {
      if uid <= 0 {
        state := Idle;
        return Value(0);
      }
      state := Releasing;
      if s.lookup == Panic {
        return Panicked;
      }
      hide TryClose, CloseResult;
      ghost var before := View();
      var attempt := 0;
      while attempt < STOP_RELEASE_MAX_ATTEMPTS
        invariant attempt <= STOP_RELEASE_MAX_ATTEMPTS
        invariant Attempts(before, s.attempts) == Attempts(View(), s.attempts[attempt..])
      {
        ghost var rest := s.attempts[attempt..];
        assert rest[0] == s.attempts[attempt] && rest[1..] == s.attempts[attempt + 1..];
        var closed := ReleaseRuntimeUID(s.attempts[attempt]);
        if closed == Panic {
          return Panicked;
        }
        if closed == Yes {
          ResetForUID(0);
          return Value(0);
        }
        attempt := attempt + 1;
      }
      QuarantineCurrentUID();
      outcome := Value(0);
    }

    /** handleControlSafely around handleControl. */
    method HandleControlSafely(control: Control, r: ReleaseAnswers) returns (ok: bool, of: Int64)
      modifies this
      ensures View() == HandleControl(old(View()), control, r)
      ensures control.Assign? ==> (ok <==> control.uid > 0 && uid == control.uid && resets > old(resets))
      ensures control.Release? && ok && of > 0 ==> of == old(uid) && uid == 0
    {
      ok, of := false, 0;
      match control {
        case Assign(wanted) =>
          if wanted <= 0 {
            return;
          }
          var held := uid;
          if held > 0 && held != wanted {
            var released := ReleaseCurrentUID(r);
            if released == Panicked {
              HandleLoopPanic();
              of := uid;
              return;
            }
            if released != Value(held) {
              of := held;
              return;
            }
          }
          ResetForUID(wanted);
          releaseRequested := false;
          ok, of := true, wanted;
        case Release =>
          var released := ReleaseCurrentUID(r);
          if released == Panicked {
            HandleLoopPanic();
            of := uid;
            return;
          }
          ok, of := true, released.uid;
      }
    }

    /** handleRequestSafely; `effect` and `panics` say what the command does, if it runs. */
    method HandleRequestSafely(reqUID: Int64, reqGeneration: nat, logout: bool, effect: Effect, panics: bool)
      returns (executed: bool)
      modifies this
      ensures executed == RequestCurrent(old(View()), reqUID, reqGeneration)
      ensures View() == HandleRequest(old(View()), DoRequest(reqUID, reqGeneration, logout, effect, panics))
    {
      if reqUID <= 0 || reqUID != uid || reqGeneration != generation {
        return false;
      }
      hide ApplyEffect;
      Act(effect, panics);
      if logout && mode == Manual {
        RequestStop();
      }
      executed := true;
    }

    method TickSafely(r: ReleaseAnswers, effect: Effect, panics: bool)
      modifies this
      ensures View() == Tick(old(View()), r, effect, panics)
    {
      if state == Releasing {
        var released := ReleaseCurrentUID(r);
        if released == Panicked {
          HandleLoopPanic();
        }
        return;
      }
      Act(effect, panics);
    }

    /** The stop branch of the loop, with the deferred recovery. */
    method StopBranch(s: Stop)
      modifies this
      ensures View() == StopLoop(old(View()), s)
    {
      var outcome := ReleaseCurrentUIDUntilClosed(s);
      hide Attempts, ReleaseCurrent;
      if outcome == Panicked {
        HandleLoopPanic();
        var _ := ReleaseCurrentUID(s.cleanup);
      }
      doneClosed := true;
    }

    /** One iteration of the loop, or a call from outside it. */
    method Iterate(e: Event)
      requires Enabled(View(), e)
      modifies this
      ensures View() == Step(old(View()), e)
    {
      hide StopLoop, ReleaseCurrent, ApplyEffect, HandleControl, HandleRequest, Tick;
      match e {
        case DoControl(control, r) =>
          var _, _ := HandleControlSafely(control, r);
        case DoRequest(reqUID, reqGeneration, logout, effect, panics) =>
          var _ := HandleRequestSafely(reqUID, reqGeneration, logout, effect, panics);
        case DoTick(r, effect, panics) => TickSafely(r, effect, panics);
        case DoStop(s) => StopBranch(s);
        case ConfigPanics => HandleLoopPanic();
        case AskRelease => releaseRequested := true;
        case AskStop => RequestStop();
        case SetMode(m) => mode := m;
      }
    }
  }
}
