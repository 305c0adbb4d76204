/**
 One actor as a value: the fields of internal/actor/actor_core.go that its loop reads and
 writes, and what each iteration of the loop in internal/actor/actor_loop.go does to them.

 The runtime behind the actor is an oracle: whatever it is asked, it may say yes, say no or
 panic, and the answers are arguments of the functions below, so every theorem holds for
 all of them.
 */
module ActorModel {
  import opened Collections

  datatype Mode = Auto | Manual

  datatype State = Idle | Offline | Assigned | Online | Running | Busy | Releasing

  datatype ActorState = ActorState(
    slot: nat,
    uid: Int64,
    generation: nat,       // a uint64 in the program
    mode: Mode,
    state: State,
    busy: bool,
    failures: nat,
    onlineDesired: bool,
    releaseRequested: bool,
    quarantined: bool,
    stopRequested: bool,   // the stop channel is closed
    done: bool,            // the done channel is closed
    resets: nat,           // how often resetForUID ran, which the program does not record
    closes: seq<CloseCall>)  // the results of releaseRuntimeUID, oldest first

  /** A completed call of releaseRuntimeUID. */
  datatype CloseCall = CloseCall(uid: Int64, ok: bool)

  datatype Answer = Yes | No | Panic

  /** The answers to one releaseRuntimeUID: Logout, then ForceClose if the runtime has it, else IsActive. */
  datatype CloseAnswers = CloseAnswers(logout: Answer, canForce: bool, fallback: Answer)

  /** The answers to one releaseCurrentUID; lookup is Panic if Status or FinishStoreState panics. */
  datatype ReleaseAnswers = ReleaseAnswers(lookup: Answer, close: CloseAnswers)

  const STOP_RELEASE_MAX_ATTEMPTS: nat := 8

  /** The answers to a whole stop: the attempts, and those of the clean-up after a panic. */
  datatype StopAnswers = StopAnswers(lookup: Answer, attempts: seq<CloseAnswers>, cleanup: ReleaseAnswers)

  type Stop = s: StopAnswers | |s.attempts| == STOP_RELEASE_MAX_ATTEMPTS
    witness StopAnswers(Yes, seq(8, _ => CloseAnswers(Yes, false, Yes)),
                        ReleaseAnswers(Yes, CloseAnswers(Yes, false, Yes)))

  /** The fields a command or a tick may leave changed: any values at all. */
  datatype Effect = Effect(state: State, busy: bool, failures: nat, onlineDesired: bool)

  datatype Control = Assign(uid: Int64) | Release

  datatype Event =
    | DoControl(control: Control, answers: ReleaseAnswers)
    | DoRequest(uid: Int64, generation: nat, logout: bool, effect: Effect, panics: bool)
    | DoTick(answers: ReleaseAnswers, effect: Effect, panics: bool)
    | DoStop(stop: Stop)
    | ConfigPanics            // in pollInterval, before the first event and after each tick
    | AskRelease              // setReleaseRequested(true), by releaseAndWait
    | AskStop                 // requestStop, from outside the loop
    | SetMode(mode: Mode)

  datatype Outcome = Value(uid: Int64) | Panicked

  const UINT64: nat := 0x1_0000_0000_0000_0000

  function NewActor(slot: nat, mode: Mode): ActorState {
    ActorState(slot, 0, 0, mode, Idle, false, 0, false, false, false, false, false, 0, [])
  }

  /** resetForUID. */
  function Reset(a: ActorState, uid: Int64): ActorState {
    a.(generation := (a.generation + 1) % UINT64, resets := a.resets + 1,
       uid := uid, failures := 0, busy := false, releaseRequested := false,
       onlineDesired := uid > 0, quarantined := false,
       state := if uid > 0 then Assigned else Idle)
  }

  /** quarantineCurrentUID. */
  function Quarantine(a: ActorState): ActorState {
    a.(quarantined := a.uid > 0, busy := false, onlineDesired := false, releaseRequested := true,
       state := if a.uid > 0 then Releasing else a.state)
  }

  /** handleLoopPanic. */
  function AfterPanic(a: ActorState): ActorState {
    a.(busy := false, onlineDesired := false, releaseRequested := a.uid > 0,
       state := if a.uid > 0 then Releasing else Idle)
  }

  /** What releaseRuntimeUID returns. */
  function CloseResult(c: CloseAnswers): Answer {
    if c.logout != No then c.logout
    else if c.fallback == Panic || c.canForce then c.fallback
    else if c.fallback == Yes then No else Yes
  }

  /** The runtime lets go of the UID: the logout is accepted; or it is refused, and ForceClose closes
      the session or, without ForceClose, the session is not active. */
  predicate Confirms(c: CloseAnswers) {
    c.logout == Yes || (c.logout == No && c.fallback == (if c.canForce then Yes else No))
  }

  predicate Refuses(c: CloseAnswers) {
    c.logout == No && c.fallback == (if c.canForce then No else Yes)
  }

  predicate Breaks(c: CloseAnswers) {
    c.logout == Panic || (c.logout == No && c.fallback == Panic)
  }

  /** What the result of releaseRuntimeUID says about the answers of the runtime. */
  lemma AnswersDecide(c: CloseAnswers)
    ensures CloseResult(c) == Yes <==>
      || c.logout == Yes
      || (c.logout == No && c.canForce && c.fallback == Yes)
      || (c.logout == No && !c.canForce && c.fallback == No)
    ensures CloseResult(c) == No <==>
      c.logout == No && ((c.canForce && c.fallback == No) || (!c.canForce && c.fallback == Yes))
    ensures CloseResult(c) == Panic <==> c.logout == Panic || (c.logout == No && c.fallback == Panic)
    ensures CloseResult(c) == if Confirms(c) then Yes else if Refuses(c) then No else Panic
    ensures Breaks(c) <==> !Confirms(c) && !Refuses(c)
  {
  }

  /** One call of releaseRuntimeUID for the actor's UID. */
  function TryClose(a: ActorState, c: CloseAnswers): ActorState {
    if CloseResult(c) == Panic then a else a.(closes := a.closes + [CloseCall(a.uid, CloseResult(c) == Yes)])
  }

  /** releaseCurrentUID. */
  function ReleaseCurrent(a: ActorState, r: ReleaseAnswers): (ActorState, Outcome) {
    if a.uid <= 0 then (a.(state := Idle), Value(0))
    else
      var b := a.(state := Releasing);
      if r.lookup == Panic then (b, Panicked)
      else
        var c := TryClose(b, r.close);
        match CloseResult(r.close)
        case Panic => (c, Panicked)
        case No => (c, Value(0))
        case Yes => (Reset(c, 0), Value(a.uid))
  }

  /** handleControlSafely. */
  function HandleControl(a: ActorState, control: Control, r: ReleaseAnswers): ActorState {
    match control
    case Assign(uid) =>
      if uid <= 0 then a
      else if a.uid <= 0 || a.uid == uid then Reset(a, uid)
      else (
        var (b, released) := ReleaseCurrent(a, r);
        if released == Panicked then AfterPanic(b)
        else if released == Value(a.uid) then Reset(b, uid)
        else b)
    case Release =>
      var (b, released) := ReleaseCurrent(a, r);
      if released == Panicked then AfterPanic(b) else b
  }

  /** Whether handleRequestSafely runs the command: the lease is still the one it was enqueued under. */
  predicate RequestCurrent(a: ActorState, uid: Int64, generation: nat) {
    uid > 0 && uid == a.uid && generation == a.generation
  }

  function ApplyEffect(a: ActorState, e: Effect, panics: bool): ActorState {
    var b := a.(state := e.state, busy := e.busy, failures := e.failures, onlineDesired := e.onlineDesired);
    if panics then AfterPanic(b) else b
  }

  function HandleRequest(a: ActorState, e: Event): ActorState
    requires e.DoRequest?
  {
    if !RequestCurrent(a, e.uid, e.generation) then a
    else
      var b := ApplyEffect(a, e.effect, e.panics);
      if e.logout && b.mode == Manual then b.(releaseRequested := true, stopRequested := true) else b
  }

  /** tickSafely. */
  function Tick(a: ActorState, r: ReleaseAnswers, e: Effect, panics: bool): ActorState {
    if a.state == Releasing then (
      var (b, released) := ReleaseCurrent(a, r);
      if released == Panicked then AfterPanic(b) else b)
    else ApplyEffect(a, e, panics)
  }

  /** The attempts of releaseCurrentUIDUntilClosed from number k on. */
  function Attempts(a: ActorState, attempts: seq<CloseAnswers>): (ActorState, Outcome)
    decreases |attempts|
  {
    if attempts == [] then (Quarantine(a), Value(0))
    else
      var b := TryClose(a, attempts[0]);
      match CloseResult(attempts[0])
      case Panic => (b, Panicked)
      case Yes => (Reset(b, 0), Value(0))
      case No => Attempts(b, attempts[1..])
  }

  /** releaseCurrentUIDUntilClosed. */
  function ReleaseUntilClosed(a: ActorState, s: Stop): (ActorState, Outcome) {
    if a.uid <= 0 then (a.(state := Idle), Value(0))
    else if s.lookup == Panic then (a.(state := Releasing), Panicked)
    else Attempts(a.(state := Releasing), s.attempts)
  }

  /** The stop branch of the loop with its deferred recovery: the actor always finishes. */
  function StopLoop(a: ActorState, s: Stop): ActorState {
    var (b, outcome) := ReleaseUntilClosed(a, s);
    var c := if outcome == Panicked then ReleaseCurrent(AfterPanic(b), s.cleanup).0 else b;
    c.(done := true)
  }

  /** Whether the loop can take this step; a finished loop takes none. */
  predicate Enabled(a: ActorState, e: Event) {
    match e
    case DoStop(_) => a.stopRequested && !a.done
    case DoControl(_, _) => !a.done
    case DoRequest(_, _, _, _, _) => !a.done
    case DoTick(_, _, _) => !a.done
    case ConfigPanics => !a.done
    case _ => true
  }

  function Step(a: ActorState, e: Event): ActorState
    requires Enabled(a, e)
  {
    match e
    case DoControl(control, r) => HandleControl(a, control, r)
    case DoRequest(_, _, _, _, _) => HandleRequest(a, e)
    case DoTick(r, effect, panics) => Tick(a, r, effect, panics)
    case DoStop(s) => StopLoop(a, s)
    case ConfigPanics => AfterPanic(a)
    case AskRelease => a.(releaseRequested := true)
    case AskStop => a.(releaseRequested := true, stopRequested := true)
    case SetMode(mode) => a.(mode := mode)
  }

  /** The step is an assignment that the actor carries out: it holds nothing or that UID already, or
      the release of what it holds neither panics nor is refused. */
  predicate CarriesOut(a: ActorState, e: Event) {
    && e.DoControl? && e.control.Assign? && e.control.uid > 0
    && (|| a.uid <= 0 || a.uid == e.control.uid
        || (e.answers.lookup != Panic && Confirms(e.answers.close)))
  }

  /** Of the assignments exactly those leave the actor with the wanted UID. */
  lemma AssignedIffCarriedOut(a: ActorState, e: Event)
    requires Enabled(a, e) && e.DoControl? && e.control.Assign? && e.control.uid > 0
    ensures Step(a, e).uid == e.control.uid <==> CarriesOut(a, e)
  {
    TryCloseHolds(a.(state := Releasing), e.answers.close);
  }

  // ----- a UID is given up only after the runtime confirmed that it is closed -----

  ghost predicate OnlyGrows(a: ActorState, b: ActorState) {
    a.closes <= b.closes
  }

  /** Between a and b a call of releaseRuntimeUID(uid) returned true. */
  ghost predicate ConfirmedClosed(a: ActorState, b: ActorState, uid: Int64) {
    exists k :: |a.closes| <= k < |b.closes| && b.closes[k] == CloseCall(uid, true)
  }

  /** b keeps the UID of a, or the runtime confirmed its close on the way. */
  ghost predicate KeepsOrCloses(a: ActorState, b: ActorState) {
    && OnlyGrows(a, b)
    && (a.uid > 0 && b.uid != a.uid ==> ConfirmedClosed(a, b, a.uid))
  }

  lemma KeepsTransitive(a: ActorState, b: ActorState, c: ActorState)
    requires KeepsOrCloses(a, b) && KeepsOrCloses(b, c)
    ensures KeepsOrCloses(a, c)
  {
    if a.uid > 0 && c.uid != a.uid {
      if b.uid != a.uid {
        var k :| |a.closes| <= k < |b.closes| && b.closes[k] == CloseCall(a.uid, true);
        assert c.closes[k] == CloseCall(a.uid, true);
      } else {
        var k :| |b.closes| <= k < |c.closes| && c.closes[k] == CloseCall(a.uid, true);
        assert c.closes[k] == CloseCall(a.uid, true);
      }
    }
  }

  lemma TryCloseConfirms(a: ActorState, c: CloseAnswers)
    ensures KeepsOrCloses(a, TryClose(a, c))
    ensures CloseResult(c) == Yes ==> ConfirmedClosed(a, TryClose(a, c), a.uid)
  {
    if CloseResult(c) == Yes {
      assert TryClose(a, c).closes[|a.closes|] == CloseCall(a.uid, true);
    }
  }

  lemma ReleaseKeepsOrCloses(a: ActorState, r: ReleaseAnswers)
    ensures KeepsOrCloses(a, ReleaseCurrent(a, r).0)
    ensures var (b, out) := ReleaseCurrent(a, r); a.uid > 0 && out == Value(a.uid) ==> ConfirmedClosed(a, b, a.uid)
  {
    TryCloseConfirms(a.(state := Releasing), r.close);
  }

  lemma {:induction false} AttemptsKeepOrClose(a: ActorState, attempts: seq<CloseAnswers>)
    ensures KeepsOrCloses(a, Attempts(a, attempts).0)
    decreases |attempts|
  {
    if attempts != [] {
      TryCloseConfirms(a, attempts[0]);
      if CloseResult(attempts[0]) == No {
        var b := TryClose(a, attempts[0]);
        AttemptsKeepOrClose(b, attempts[1..]);
        KeepsTransitive(a, b, Attempts(a, attempts).0);
      }
    }
  }

  /** The answers about closing a UID that come with an event. */
  function CloseAnswersOf(e: Event): seq<CloseAnswers> {
    match e
    case DoControl(_, r) => [r.close]
    case DoTick(r, _, _) => [r.close]
    case DoStop(s) => s.attempts + [s.cleanup.close]
    case _ => []
  }

  /** One of the answers lets go of the UID. */
  ghost predicate SomeConfirms(answers: seq<CloseAnswers>) {
    exists k :: 0 <= k < |answers| && Confirms(answers[k])
  }

  lemma {:induction false} AttemptsConfirm(a: ActorState, attempts: seq<CloseAnswers>)
    ensures Attempts(a, attempts).0.uid != a.uid ==> SomeConfirms(attempts)
    decreases |attempts|
  {
    if attempts != [] {
      AnswersDecide(attempts[0]);
      if Refuses(attempts[0]) {
        AttemptsConfirm(TryClose(a, attempts[0]), attempts[1..]);
        if SomeConfirms(attempts[1..]) {
          var k :| 0 <= k < |attempts| - 1 && Confirms(attempts[1..][k]);
          assert Confirms(attempts[k + 1]);
        }
      }
    }
  }

  lemma ReleaseConfirms(a: ActorState, r: ReleaseAnswers)
    ensures ReleaseCurrent(a, r).0.uid != a.uid ==> r.lookup != Panic && Confirms(r.close)
    ensures a.uid > 0 && ReleaseCurrent(a, r).1 == Value(a.uid) ==> r.lookup != Panic && Confirms(r.close)
  {
    AnswersDecide(r.close);
  }

  lemma StopConfirms(a: ActorState, s: Stop)
    requires StopLoop(a, s).uid != a.uid
    ensures SomeConfirms(s.attempts + [s.cleanup.close])
  {
    hide Attempts, ReleaseCurrent, Confirms;
    AttemptsConfirm(a.(state := Releasing), s.attempts);
    ReleaseConfirms(AfterPanic(ReleaseUntilClosed(a, s).0), s.cleanup);
    var all := s.attempts + [s.cleanup.close];
    if SomeConfirms(s.attempts) {
      var k :| 0 <= k < |s.attempts| && Confirms(s.attempts[k]);
      assert Confirms(all[k]);
    } else {
      assert Confirms(all[|s.attempts|]);
    }
  }

  lemma StopKeepsOrCloses(a: ActorState, s: Stop)
    ensures KeepsOrCloses(a, StopLoop(a, s))
  {
    AttemptsKeepOrClose(a.(state := Releasing), s.attempts);
    var b := ReleaseUntilClosed(a, s).0;
    ReleaseKeepsOrCloses(AfterPanic(b), s.cleanup);
    KeepsTransitive(a, AfterPanic(b), ReleaseCurrent(AfterPanic(b), s.cleanup).0);
  }

  /** An actor that holds a UID never holds another one, or none, unless releaseRuntimeUID of that UID
      returned true in the same step, and unless the runtime accepted a logout, or refused it and
      either closed the session by force or, when it has no ForceClose, reported it inactive.  Panics
      make no difference. */
  lemma UidKeptUntilClosed(a: ActorState, e: Event)
    requires Enabled(a, e)
    ensures KeepsOrCloses(a, Step(a, e))
    ensures a.uid > 0 && Step(a, e).uid != a.uid ==> exists c ::
      && c in CloseAnswersOf(e)
      && (|| c.logout == Yes
          || (c.logout == No && c.canForce && c.fallback == Yes)
          || (c.logout == No && !c.canForce && c.fallback == No))
  {
    StepKeepsOrCloses(a, e);
    if a.uid > 0 && Step(a, e).uid != a.uid {
      StepConfirms(a, e);
      var k :| 0 <= k < |CloseAnswersOf(e)| && Confirms(CloseAnswersOf(e)[k]);
    }
  }

  lemma StepConfirms(a: ActorState, e: Event)
    requires Enabled(a, e) && a.uid > 0 && Step(a, e).uid != a.uid
    ensures SomeConfirms(CloseAnswersOf(e))
  {
    hide ReleaseCurrent, StopLoop, Confirms;
    match e
    case DoControl(control, r) =>
      ReleaseConfirms(a, r);
      assert Confirms(CloseAnswersOf(e)[0]);
    case DoTick(r, _, _) =>
      ReleaseConfirms(a, r);
      assert Confirms(CloseAnswersOf(e)[0]);
    case DoStop(s) => StopConfirms(a, s);
  }

  lemma StepKeepsOrCloses(a: ActorState, e: Event)
    requires Enabled(a, e)
    ensures KeepsOrCloses(a, Step(a, e))
  {
    match e
    case DoControl(control, r) => ReleaseKeepsOrCloses(a, r);
    case DoTick(r, _, _) => ReleaseKeepsOrCloses(a, r);
    case DoStop(s) => StopKeepsOrCloses(a, s);
    case _ =>
  }

  // ----- a release that fails is tried again, and a command runs only under its lease -----

  /** The release panics: in the lookup, in Logout, or in what is asked after a refusal. */
  predicate Raises(r: ReleaseAnswers) {
    r.lookup == Panic || r.close.logout == Panic || (r.close.logout == No && r.close.fallback == Panic)
  }

  predicate SameWishes(a: ActorState, b: ActorState) {
    && b.busy == a.busy && b.onlineDesired == a.onlineDesired && b.releaseRequested == a.releaseRequested
    && b.failures == a.failures && b.quarantined == a.quarantined
  }

  /** A release gives up the UID exactly when nothing panics and the runtime lets go of it; otherwise
      the actor keeps it and is Releasing, so that the next tick is a release again. */
  lemma ReleaseIsRetried(a: ActorState, e: Event)
    requires Enabled(a, e) && a.uid > 0
    requires (e.DoControl? && e.control == Release) || (e.DoTick? && a.state == Releasing)
    ensures var b := Step(a, e); var c := e.answers.close;
      var closed := e.answers.lookup != Panic && (|| c.logout == Yes
                                                  || (c.logout == No && c.canForce && c.fallback == Yes)
                                                  || (c.logout == No && !c.canForce && c.fallback == No));
      && b.uid == (if closed then 0 else a.uid)
      && b.state == (if closed then Idle else Releasing)
      && (closed ==> !b.onlineDesired && !b.releaseRequested && !b.busy && b.failures == 0)
      && (!closed && !Raises(e.answers) ==> SameWishes(a, b))
      && (Raises(e.answers) ==> !b.busy && !b.onlineDesired && b.releaseRequested)
  {
    AnswersDecide(e.answers.close);
    TryCloseHolds(a.(state := Releasing), e.answers.close);
  }

  /** An assignment that is carried out leaves a fresh actor that wants to be online; one that is not
      leaves the old UID, and the actor Releasing if it tried to let go of it. */
  lemma AssignmentLeaves(a: ActorState, e: Event)
    requires Enabled(a, e) && e.DoControl? && e.control.Assign?
    ensures var b, wanted := Step(a, e), e.control.uid;
      && (wanted <= 0 ==> b == a)
      && (CarriesOut(a, e) ==>
            && b.uid == wanted && b.state == Assigned && b.failures == 0
            && b.onlineDesired && !b.busy && !b.releaseRequested && !b.quarantined)
      && (wanted > 0 && !CarriesOut(a, e) ==>
            && b.uid == a.uid && b.generation == a.generation && b.state == Releasing
            && (if Raises(e.answers) then !b.busy && !b.onlineDesired && b.releaseRequested else SameWishes(a, b)))
  {
    TryCloseHolds(a.(state := Releasing), e.answers.close);
  }

  /** The calls from outside the loop. */
  lemma OutsideCalls(a: ActorState, e: Event)
    requires e.AskRelease? || e.AskStop? || e.SetMode?
    ensures Enabled(a, e)
    ensures var b := Step(a, e);
      && (b.releaseRequested <==> a.releaseRequested || !e.SetMode?)
      && (b.stopRequested <==> a.stopRequested || e.AskStop?)
      && b.mode == (if e.SetMode? then e.mode else a.mode)
      && b.uid == a.uid && b.generation == a.generation && b.state == a.state && b.done == a.done
  {
  }

  /** A request whose UID or generation is not the current one changes nothing.  Another one takes
      effect, keeps the UID, and stops the actor exactly for a logout in manual mode. */
  lemma RequestNeedsItsLease(a: ActorState, e: Event)
    requires Enabled(a, e) && e.DoRequest?
    ensures var b := Step(a, e);
      var current := e.uid > 0 && e.uid == a.uid && e.generation == a.generation;
      && (!current ==> b == a)
      && (current && !e.panics ==>
            && b.state == e.effect.state && b.busy == e.effect.busy
            && b.failures == e.effect.failures && b.onlineDesired == e.effect.onlineDesired)
      && (current && e.panics ==> b.state == Releasing && !b.busy && !b.onlineDesired && b.releaseRequested)
      && b.uid == a.uid && b.generation == a.generation && b.quarantined == a.quarantined
      && (b.stopRequested <==> a.stopRequested || (current && e.logout && a.mode == Manual))
  {
  }

  // ----- what a finished actor holds -----

  /** The number of the first attempt that the runtime does not answer with no. */
  function FirstDecided(attempts: seq<CloseAnswers>): (k: nat)
    ensures k <= |attempts|
    ensures forall i :: 0 <= i < k ==> Refuses(attempts[i])
    ensures k < |attempts| ==> !Refuses(attempts[k])
  {
    if attempts == [] || !Refuses(attempts[0]) then 0 else 1 + FirstDecided(attempts[1..])
  }

  lemma {:induction false} AttemptsOutcome(a: ActorState, attempts: seq<CloseAnswers>)
    requires a.uid > 0
    ensures var (b, out) := Attempts(a, attempts); var k := FirstDecided(attempts);
      && (k == |attempts| ==> out == Value(0) && b.uid == a.uid && b.quarantined)
      && (k < |attempts| && Confirms(attempts[k]) ==> out == Value(0) && b.uid == 0)
      && (k < |attempts| && Breaks(attempts[k]) ==>
            out == Panicked && b.uid == a.uid && b.quarantined == a.quarantined)
    decreases |attempts|
  {
    if attempts != [] && Refuses(attempts[0]) {
      AttemptsOutcome(TryClose(a, attempts[0]), attempts[1..]);
    }
  }

  /** The runtime panics while the loop stops: the only panic that ends the loop. */
  predicate FatalPanic(s: Stop) {
    var k := FirstDecided(s.attempts);
    s.lookup == Panic || (k < |s.attempts| && Breaks(s.attempts[k]))
  }

  /** The clean-up after such a panic closes the UID. */
  predicate CleanedUp(s: Stop) {
    s.cleanup.lookup != Panic && Confirms(s.cleanup.close)
  }

  lemma ReleaseHolds(a: ActorState, r: ReleaseAnswers)
    requires !a.quarantined
    ensures var b := ReleaseCurrent(a, r).0;
      && !b.quarantined
      && b.uid == (if a.uid > 0 && r.lookup != Panic && Confirms(r.close) then 0 else a.uid)
  {
  }

  lemma Decided(s: Stop)
    ensures var k := FirstDecided(s.attempts);
      k < |s.attempts| ==> (Confirms(s.attempts[k]) <==> !Breaks(s.attempts[k]))
  {
    var k := FirstDecided(s.attempts);
    if k < |s.attempts| { AnswersDecide(s.attempts[k]); }
  }

  /** A stopped actor still holds its UID without being quarantined exactly when it held one,
      the runtime panicked during the stop, and the clean-up did not close it either. */
  lemma FinishedUnquarantined(a: ActorState, s: Stop)
    requires !a.quarantined
    ensures var b := StopLoop(a, s);
      && b.done
      && (b.uid > 0 && !b.quarantined <==> a.uid > 0 && FatalPanic(s) && !CleanedUp(s))
  {
    hide ReleaseCurrent, Attempts, CloseResult, Confirms, Refuses, Breaks;
    Decided(s);
    if a.uid > 0 {
      AttemptsOutcome(a.(state := Releasing), s.attempts);
    }
    var (b, outcome) := ReleaseUntilClosed(a, s);
    if outcome == Panicked {
      ReleaseHolds(AfterPanic(b), s.cleanup);
    }
  }

  // ----- leases and commands -----

  /** The step assigns or gives up a UID, including an assignment of the UID already held. */
  predicate LeaseChanges(a: ActorState, e: Event)
    requires Enabled(a, e)
  {
    var b := Step(a, e);
    || b.uid != a.uid
    || (e.DoControl? && e.control.Assign? && e.control.uid > 0 && b.uid == e.control.uid)
  }

  /** The generation is the number of resets, wrapped to 64 bits. */
  ghost predicate Generations(a: ActorState) {
    a.generation == a.resets % UINT64
  }

  /** b is a after one reset, if its UID changed, and after none otherwise. */
  ghost predicate ResetIfMoved(a: ActorState, b: ActorState) {
    && b.resets == a.resets + (if b.uid == a.uid then 0 else 1)
    && Generations(b)
  }

  lemma ResetCounts(a: ActorState, uid: Int64)
    requires Generations(a)
    ensures Generations(Reset(a, uid)) && Reset(a, uid).resets == a.resets + 1
  {
  }

  lemma ReleaseCounts(a: ActorState, r: ReleaseAnswers)
    requires Generations(a)
    ensures ResetIfMoved(a, ReleaseCurrent(a, r).0)
    ensures var (b, out) := ReleaseCurrent(a, r); b.uid == if a.uid > 0 && out == Value(a.uid) then 0 else a.uid
  {
    TryCloseHolds(a.(state := Releasing), r.close);
    ResetCounts(TryClose(a.(state := Releasing), r.close), 0);
    hide Generations, TryClose, CloseResult;
  }

  lemma {:induction false} AttemptsCount(a: ActorState, attempts: seq<CloseAnswers>)
    requires Generations(a) && a.uid > 0
    ensures ResetIfMoved(a, Attempts(a, attempts).0)
    decreases |attempts|
  {
    if attempts != [] {
      ResetCounts(TryClose(a, attempts[0]), 0);
      if CloseResult(attempts[0]) == No {
        AttemptsCount(TryClose(a, attempts[0]), attempts[1..]);
      }
    }
  }

  lemma StopCounts(a: ActorState, s: Stop)
    requires Generations(a)
    ensures ResetIfMoved(a, StopLoop(a, s))
  {
    if a.uid > 0 {
      AttemptsCount(a.(state := Releasing), s.attempts);
      AttemptsOutcome(a.(state := Releasing), s.attempts);
    }
    ReleaseCounts(AfterPanic(ReleaseUntilClosed(a, s).0), s.cleanup);
    hide Generations, Attempts, ReleaseCurrent;
  }

  lemma ControlCounts(a: ActorState, control: Control, r: ReleaseAnswers)
    requires Generations(a)
    ensures var b := HandleControl(a, control, r);
      && Generations(b) && a.resets <= b.resets
      && (a.resets < b.resets <==>
          b.uid != a.uid || (control.Assign? && control.uid > 0 && b.uid == control.uid))
  {
    ReleaseCounts(a, r);
    if control.Assign? {
      ResetCounts(a, control.uid);
      ResetCounts(ReleaseCurrent(a, r).0, control.uid);
    }
    hide ReleaseCurrent;
  }

  lemma StepCountsResets(a: ActorState, e: Event)
    requires Enabled(a, e) && Generations(a)
    ensures var b := Step(a, e);
      && Generations(b)
      && a.resets <= b.resets
      && (a.resets < b.resets <==> LeaseChanges(a, e))
  {
    match e
    case DoControl(control, r) =>
      ControlCounts(a, control, r);
    case DoTick(r, _, _) =>
      ReleaseCounts(a, r);
    case DoStop(s) =>
      StopCounts(a, s);
    case _ =>
    hide ReleaseCurrent, HandleControl, StopLoop;
  }

  ghost predicate IsRun(run: seq<ActorState>, events: seq<Event>) {
    && |run| == |events| + 1
    && run[0].generation == run[0].resets == 0
    && forall k :: 0 <= k < |events| ==> Enabled(run[k], events[k]) && run[k + 1] == Step(run[k], events[k])
  }

  ghost predicate NoLeaseChange(run: seq<ActorState>, events: seq<Event>, i: nat, j: nat)
    requires IsRun(run, events) && j <= |events|
  {
    forall k :: i <= k < j ==> !LeaseChanges(run[k], events[k])
  }

  lemma {:induction false} RunGenerations(run: seq<ActorState>, events: seq<Event>, i: nat)
    requires IsRun(run, events) && i <= |events|
    ensures Generations(run[i])
  {
    if i > 0 {
      hide Step, Enabled, LeaseChanges, Generations;
      RunGenerations(run, events, i - 1);
      StepCountsResets(run[i - 1], events[i - 1]);
    }
  }

  lemma {:induction false} RunCountsResets(run: seq<ActorState>, events: seq<Event>, i: nat, j: nat)
    requires IsRun(run, events) && i <= j <= |events|
    ensures run[i].resets <= run[j].resets
    ensures run[i].resets == run[j].resets <==> NoLeaseChange(run, events, i, j)
    ensures NoLeaseChange(run, events, i, j) ==> run[i].uid == run[j].uid
    decreases j - i
  {
    hide Step, Enabled, LeaseChanges, Generations, NoLeaseChange;
    if i == j {
      NoStepsAtAll(run, events, i);
    } else {
      RunCountsResets(run, events, i, j - 1);
      RunGenerations(run, events, j - 1);
      StepCountsResets(run[j - 1], events[j - 1]);
      OneMoreStep(run, events, i, j);
    }
  }

  lemma OneMoreStep(run: seq<ActorState>, events: seq<Event>, i: nat, j: nat)
    requires IsRun(run, events) && i < j <= |events|
    ensures NoLeaseChange(run, events, i, j) <==>
      NoLeaseChange(run, events, i, j - 1) && !LeaseChanges(run[j - 1], events[j - 1])
    ensures !LeaseChanges(run[j - 1], events[j - 1]) ==> run[j].uid == run[j - 1].uid
  {
    hide Step, Enabled;
  }

  lemma NoStepsAtAll(run: seq<ActorState>, events: seq<Event>, i: nat)
    requires IsRun(run, events) && i <= |events|
    ensures NoLeaseChange(run, events, i, i)
  {
  }

  lemma SameGeneration(x: nat, y: nat)
    requires x <= y
    ensures x % UINT64 == y % UINT64 <==> (y - x) % UINT64 == 0
    ensures y - x < UINT64 ==> (x % UINT64 == y % UINT64 <==> x == y)
  {
  }

  /** A request enqueued in state i and taken up in state j runs exactly when the actor held a
      UID and no assignment or release, back to the same UID included, took place in between -
      as long as fewer than 2^64 of them did, for then the generation has wrapped around. */
  lemma CommandRunsUnderItsLease(run: seq<ActorState>, events: seq<Event>, i: nat, j: nat)
    requires IsRun(run, events) && i <= j <= |events|
    ensures RequestCurrent(run[j], run[i].uid, run[i].generation) <==>
      run[i].uid > 0 && run[j].uid == run[i].uid && (run[j].resets - run[i].resets) % UINT64 == 0
    ensures run[j].resets - run[i].resets < UINT64 ==>
      (RequestCurrent(run[j], run[i].uid, run[i].generation) <==> run[i].uid > 0 && NoLeaseChange(run, events, i, j))
  {
    RunCountsResets(run, events, i, j);
    RunGenerations(run, events, i);
    RunGenerations(run, events, j);
    SameGeneration(run[i].resets, run[j].resets);
    hide NoLeaseChange;
  }

  // ----- fields the loop never touches, and what only a stop can do -----

  ghost predicate SameIdentity(a: ActorState, b: ActorState) {
    b.slot == a.slot && (a.done ==> b.done) && (a.uid >= 0 ==> b.uid >= 0)
  }

  lemma ReleaseKeepsIdentity(a: ActorState, r: ReleaseAnswers)
    ensures var b := ReleaseCurrent(a, r).0; SameIdentity(a, b) && b.done == a.done
  {
    TryCloseHolds(a.(state := Releasing), r.close);
    hide TryClose, CloseResult;
  }

  lemma {:induction false} AttemptsKeepIdentity(a: ActorState, attempts: seq<CloseAnswers>)
    ensures SameIdentity(a, Attempts(a, attempts).0)
    decreases |attempts|
  {
    if attempts != [] {
      AttemptsKeepIdentity(TryClose(a, attempts[0]), attempts[1..]);
    }
  }

  /** A step never moves an actor to another slot, never revives it, and never gives it a negative UID. */
  lemma StepKeepsIdentity(a: ActorState, e: Event)
    requires Enabled(a, e)
    ensures SameIdentity(a, Step(a, e))
  {
    match e
    case DoControl(_, r) => ReleaseKeepsIdentity(a, r);
    case DoTick(r, _, _) => ReleaseKeepsIdentity(a, r);
    case DoStop(s) =>
      AttemptsKeepIdentity(a.(state := Releasing), s.attempts);
      ReleaseKeepsIdentity(AfterPanic(ReleaseUntilClosed(a, s).0), s.cleanup);
    case _ =>
    hide ReleaseCurrent, Attempts;
  }

  lemma ReleaseUids(a: ActorState, r: ReleaseAnswers)
    ensures var b := ReleaseCurrent(a, r).0;
      (b.uid == a.uid || b.uid == 0) && (b.quarantined ==> a.quarantined) && b.done == a.done
  {
    TryCloseHolds(a.(state := Releasing), r.close);
    hide TryClose, CloseResult;
  }

  lemma TryCloseHolds(a: ActorState, c: CloseAnswers)
    ensures TryClose(a, c) == a.(closes := TryClose(a, c).closes)
  {
  }

  lemma {:induction false} AttemptsUids(a: ActorState, attempts: seq<CloseAnswers>)
    ensures var b := Attempts(a, attempts).0; b.uid == a.uid || b.uid == 0
    decreases |attempts|
  {
    if attempts != [] {
      AttemptsUids(TryClose(a, attempts[0]), attempts[1..]);
    }
  }

  /** b has the UID of a or none, is done if a is, and is quarantined only if a is. */
  predicate SameOrReleased(a: ActorState, b: ActorState) {
    (b.uid == a.uid || b.uid == 0) && b.done == a.done && (b.quarantined ==> a.quarantined)
  }

  lemma ControlUids(a: ActorState, control: Control, r: ReleaseAnswers)
    ensures var b := HandleControl(a, control, r);
      && (SameOrReleased(a, b) || (control == Assign(b.uid) && b.uid > 0))
      && b.done == a.done && (b.quarantined ==> a.quarantined)
  {
    hide ReleaseCurrent;
    ReleaseUids(a, r);
  }

  lemma TickUids(a: ActorState, r: ReleaseAnswers, e: Effect, panics: bool)
    ensures SameOrReleased(a, Tick(a, r, e, panics))
  {
    hide ReleaseCurrent;
    ReleaseUids(a, r);
  }

  lemma StopUids(a: ActorState, s: Stop)
    ensures var b := StopLoop(a, s); (b.uid == a.uid || b.uid == 0) && b.done
  {
    hide ReleaseCurrent, Attempts;
    AttemptsUids(a.(state := Releasing), s.attempts);
    ReleaseUids(AfterPanic(ReleaseUntilClosed(a, s).0), s.cleanup);
  }

  /** Only an assignment gives an actor a new UID; only a stop finishes or quarantines it. */
  lemma StepUids(a: ActorState, e: Event)
    requires Enabled(a, e)
    ensures var b := Step(a, e);
      && (b.uid == a.uid || b.uid == 0 || (e.DoControl? && e.control == Assign(b.uid) && b.uid > 0))
      && (e.DoStop? ==> b.done)
      && (!e.DoStop? ==> b.done == a.done && (b.quarantined ==> a.quarantined))
  {
    hide HandleControl, Tick, StopLoop, ReleaseCurrent, RequestCurrent;
    match e
    case DoControl(control, r) => ControlUids(a, control, r);
    case DoTick(r, effect, panics) => TickUids(a, r, effect, panics);
    case DoStop(s) => StopUids(a, s);
    case _ =>
  }

  /** A finished actor is quarantined or holds no UID; one still running is not quarantined. */
  predicate CleanlyFinished(a: ActorState) {
    && (!a.done ==> !a.quarantined)
    && (a.done ==> a.uid <= 0 || a.quarantined)
  }

  /** The step is not a stop that leaves the UID open: no panic, or one that was cleaned up. */
  predicate StopsCleanly(a: ActorState, e: Event) {
    e.DoStop? && a.uid > 0 && FatalPanic(e.stop) ==> CleanedUp(e.stop)
  }

  lemma StepFinishesCleanly(a: ActorState, e: Event)
    requires Enabled(a, e) && CleanlyFinished(a) && StopsCleanly(a, e)
    ensures CleanlyFinished(Step(a, e))
  {
    if e.DoStop? {
      FinishedUnquarantined(a, e.stop);
    } else {
      StepUids(a, e);
      if a.done { assert Step(a, e).uid == a.uid; }
    }
  }

  /** The converse: only steps that stop cleanly end clean. */
  lemma StepFinishesCleanlyOnlyIf(a: ActorState, e: Event)
    requires Enabled(a, e) && CleanlyFinished(a) && CleanlyFinished(Step(a, e))
    ensures StopsCleanly(a, e)
  {
    if e.DoStop? {
      FinishedUnquarantined(a, e.stop);
    }
  }
}
