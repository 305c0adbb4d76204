/**
 The actor ledger of internal/actor/ledger.go together with the actors it points to.

 Actors are numbered in the order of their creation; `pool` holds the state of every actor
 ever made, and the maps of the ledger hold numbers where the program holds references.  The
 operations of the ledger are made of the few steps below, each under the ledger's lock.
 */
module LedgerModel {
  import opened Collections
  import A = ActorModel

  type Pool = seq<A.ActorState>

  datatype Ledger = Ledger(
    actors: map<nat, nat>,      // slot to actor
    leases: map<Int64, nat>,    // UID to actor
    draining: map<nat, nat>,    // slot to actor
    blocked: set<Int64>,
    quarantine: set<Int64>,
    nextSlot: nat)

  const EMPTY_LEDGER: Ledger := Ledger(map[], map[], map[], {}, {}, 0)

  predicate IsDraining(l: Ledger, pool: Pool, id: nat)
    requires id < |pool|
  {
    pool[id].slot in l.draining && l.draining[pool[id].slot] == id
  }

  predicate Registered(l: Ledger, pool: Pool, id: nat) {
    id < |pool| && pool[id].slot in l.actors && l.actors[pool[id].slot] == id
  }

  predicate Done(pool: Pool, id: nat) {
    id < |pool| && pool[id].done
  }

  // ----- the steps -----

  /** The checks of TryLeaseUID and of the reservations, except that the actor is still registered. */
  predicate Leasable(l: Ledger, uid: Int64) {
    uid > 0 && uid !in l.blocked && uid !in l.leases
  }

  function AddLease(l: Ledger, uid: Int64, id: nat): Ledger {
    l.(leases := l.leases[uid := id])
  }

  function DropLease(l: Ledger, uid: Int64): Ledger {
    l.(leases := l.leases - {uid})
  }

  function Block(l: Ledger, uid: Int64): Ledger {
    l.(blocked := l.blocked + {uid})
  }

  function Unblock(l: Ledger, uid: Int64): Ledger {
    if uid in l.quarantine then l else l.(blocked := l.blocked - {uid})
  }

  /** A new actor under the next slot; its number is |pool|. */
  function AddActor(l: Ledger, id: nat): Ledger {
    l.(nextSlot := l.nextSlot + 1, actors := l.actors[l.nextSlot + 1 := id])
  }

  function Drain(l: Ledger, pool: Pool, id: nat): Ledger
    requires id < |pool|
  {
    l.(draining := l.draining[pool[id].slot := id])
  }

  /** A slot whose draining actor has finished. */
  predicate DrainedSlot(l: Ledger, pool: Pool, slot: nat) {
    slot in l.draining && Done(pool, l.draining[slot])
  }

  /** A slot whose actor has finished without being drained. */
  predicate CrashedSlot(l: Ledger, pool: Pool, slot: nat) {
    && slot in l.actors && Done(pool, l.actors[slot])
    && !(slot in l.draining && l.draining[slot] == l.actors[slot])
  }

  ghost predicate Drained(l: Ledger, pool: Pool, id: nat) {
    exists slot :: DrainedSlot(l, pool, slot) && l.draining[slot] == id
  }

  ghost predicate Crashed(l: Ledger, pool: Pool, id: nat) {
    exists slot :: CrashedSlot(l, pool, slot) && l.actors[slot] == id
  }

  /** The actors a reap removes: those drained, and with `unexpected` those that crashed. */
  ghost predicate Dead(l: Ledger, pool: Pool, unexpected: bool, id: nat) {
    Drained(l, pool, id) || (unexpected && Crashed(l, pool, id))
  }

  /** Leases of a dead actor stay blocked, unless it was drained and closed its UID. */
  ghost predicate Condemned(l: Ledger, pool: Pool, unexpected: bool, uid: Int64) {
    && uid in l.leases && uid > 0
    && Dead(l, pool, unexpected, l.leases[uid])
    && (Drained(l, pool, l.leases[uid]) ==> pool[l.leases[uid]].quarantined)
  }

  ghost predicate LeaseDies(l: Ledger, pool: Pool, unexpected: bool, uid: Int64) {
    uid in l.leases && Dead(l, pool, unexpected, l.leases[uid])
  }

  ghost function CondemnedUids(l: Ledger, pool: Pool, unexpected: bool): set<Int64> {
    set uid | uid in l.leases && Condemned(l, pool, unexpected, uid)
  }

  ghost function DyingLeases(l: Ledger, pool: Pool, unexpected: bool): set<Int64> {
    set uid | uid in l.leases && LeaseDies(l, pool, unexpected, uid)
  }

  /** The slots a reap empties. */
  predicate EmptiedSlot(l: Ledger, pool: Pool, unexpected: bool, slot: nat) {
    || (unexpected && CrashedSlot(l, pool, slot))
    || (slot in l.actors && DrainedSlot(l, pool, slot) && l.draining[slot] == l.actors[slot])
  }

  /** reapDoneActorsLocked. */
  ghost function Reap(l: Ledger, pool: Pool, unexpected: bool): Ledger {
    var condemned, dying := CondemnedUids(l, pool, unexpected), DyingLeases(l, pool, unexpected);
    l.(actors := map slot | slot in l.actors && !EmptiedSlot(l, pool, unexpected, slot) :: l.actors[slot],
       draining := map slot | slot in l.draining && !DrainedSlot(l, pool, slot) :: l.draining[slot],
       leases := l.leases - dying,
       blocked := l.blocked - (dying - condemned) + condemned,
       quarantine := l.quarantine + condemned)
  }

  /** reapActorLocked. */
  function ReapOne(l: Ledger, pool: Pool, id: nat): Ledger
    requires id < |pool|
  {
    if !IsDraining(l, pool, id) || !pool[id].done then l
    else
      var slot := pool[id].slot;
      var mine := set uid | uid in l.leases && l.leases[uid] == id;
      l.(draining := l.draining - {slot},
         actors := if slot in l.actors && l.actors[slot] == id then l.actors - {slot} else l.actors,
         leases := l.leases - mine,
         blocked := if pool[id].quarantined then l.blocked + mine else l.blocked - mine,
         quarantine := if pool[id].quarantined then l.quarantine + mine else l.quarantine)
  }

  // ----- the system of ledger and actors -----

  datatype System = System(ledger: Ledger, pool: Pool)

  datatype Op =
    | ActorStep(id: nat, event: A.Event)
    | Lease(uid: Int64, id: nat)
    | Unlease(uid: Int64)
    | BlockUid(uid: Int64)
    | UnblockUid(uid: Int64)
    | Create(mode: A.Mode)
    | BeginDrain(id: nat)
    | ReapActor(id: nat)
    | ReapAll(unexpected: bool)

  /** When an operation can take effect: the program's own checks, and two duties of its
      callers, which lease only to registered actors and drain only registered ones. */
  predicate Enabled(s: System, op: Op) {
    match op
    case ActorStep(id, e) => id < |s.pool| && A.Enabled(s.pool[id], e)
    case Lease(uid, id) => Leasable(s.ledger, uid) && Registered(s.ledger, s.pool, id)
    case BeginDrain(id) => Registered(s.ledger, s.pool, id)
    case ReapActor(id) => id < |s.pool|
    case _ => true
  }

  ghost function Step(s: System, op: Op): System
    requires Enabled(s, op)
  {
    var l := s.ledger;
    match op
    case ActorStep(id, e) => s.(pool := s.pool[id := A.Step(s.pool[id], e)])
    case Lease(uid, id) => s.(ledger := AddLease(l, uid, id))
    case Unlease(uid) => s.(ledger := DropLease(l, uid))
    case BlockUid(uid) => s.(ledger := Block(l, uid))
    case UnblockUid(uid) => s.(ledger := Unblock(l, uid))
    case Create(mode) => System(AddActor(l, |s.pool|), s.pool + [A.NewActor(l.nextSlot + 1, mode)])
    case BeginDrain(id) => s.(ledger := Drain(l, s.pool, id))
    case ReapActor(id) => s.(ledger := ReapOne(l, s.pool, id))
    case ReapAll(unexpected) => s.(ledger := Reap(l, s.pool, unexpected))
  }

  ghost predicate Structured(l: Ledger, pool: Pool) {
    && (forall slot :: slot in l.actors ==> l.actors[slot] < |pool| && pool[l.actors[slot]].slot == slot)
    && (forall slot :: slot in l.draining ==> slot in l.actors && l.actors[slot] == l.draining[slot])
    && (forall uid :: uid in l.leases ==> uid > 0 && Registered(l, pool, l.leases[uid]))
  }

  ghost predicate SlotsUnique(l: Ledger, pool: Pool) {
    && (forall i :: 0 <= i < |pool| ==> 0 < pool[i].slot <= l.nextSlot)
    && (forall i, j :: 0 <= i < j < |pool| ==> pool[i].slot != pool[j].slot)
  }

  ghost predicate QuarantineHeld(l: Ledger) {
    l.quarantine <= l.blocked && l.quarantine !! l.leases.Keys
  }

  ghost predicate UidsNatural(pool: Pool) {
    forall i :: 0 <= i < |pool| ==> pool[i].uid >= 0
  }

  ghost predicate Inv(s: System) {
    && Structured(s.ledger, s.pool)
    && SlotsUnique(s.ledger, s.pool)
    && QuarantineHeld(s.ledger)
    && UidsNatural(s.pool)
  }

  /** The pools agree on who exists and in which slot. */
  ghost predicate SameSlots(p: Pool, q: Pool) {
    |p| == |q| && forall i :: 0 <= i < |p| ==> p[i].slot == q[i].slot
  }

  lemma ActorStepKeepsSlots(p: Pool, id: nat, e: A.Event)
    requires id < |p| && A.Enabled(p[id], e)
    ensures SameSlots(p, p[id := A.Step(p[id], e)])
  {
    A.StepKeepsIdentity(p[id], e);
  }

  lemma SameSlotsKeepStructure(l: Ledger, p: Pool, q: Pool)
    requires SameSlots(p, q) && Structured(l, p) && SlotsUnique(l, p)
    ensures Structured(l, q) && SlotsUnique(l, q)
  {
  }

  lemma CreateKeepsStructure(l: Ledger, p: Pool, mode: A.Mode)
    requires Structured(l, p) && SlotsUnique(l, p)
    ensures var q := p + [A.NewActor(l.nextSlot + 1, mode)];
      Structured(AddActor(l, |p|), q) && SlotsUnique(AddActor(l, |p|), q)
  {
    var m, q := AddActor(l, |p|), p + [A.NewActor(l.nextSlot + 1, mode)];
    forall slot | slot in m.actors ensures m.actors[slot] < |q| && q[m.actors[slot]].slot == slot {
      if slot in l.actors { assert p[l.actors[slot]].slot == slot; }
    }
    forall uid | uid in m.leases ensures uid > 0 && Registered(m, q, m.leases[uid]) {
      assert Registered(l, p, l.leases[uid]);
    }
  }

  /** An actor that stays registered through a reap, or loses every lease. */
  lemma SurvivorsStay(l: Ledger, p: Pool, unexpected: bool, uid: Int64)
    requires Structured(l, p) && uid in Reap(l, p, unexpected).leases
    ensures Registered(Reap(l, p, unexpected), p, l.leases[uid])
  {
    var id := l.leases[uid];
    var slot := p[id].slot;
    assert Registered(l, p, id) && !Dead(l, p, unexpected, id);
    if CrashedSlot(l, p, slot) { assert Crashed(l, p, id); }
  }

  lemma ReapKeepsStructure(l: Ledger, p: Pool, unexpected: bool)
    requires Structured(l, p)
    ensures Structured(Reap(l, p, unexpected), p)
    ensures SlotsUnique(l, p) ==> SlotsUnique(Reap(l, p, unexpected), p)
  {
    var m := Reap(l, p, unexpected);
    forall uid | uid in m.leases ensures uid > 0 && Registered(m, p, m.leases[uid]) {
      SurvivorsStay(l, p, unexpected, uid);
    }
  }

  lemma ReapOneKeepsStructure(l: Ledger, p: Pool, id: nat)
    requires Structured(l, p) && id < |p|
    ensures Structured(ReapOne(l, p, id), p)
    ensures SlotsUnique(l, p) ==> SlotsUnique(ReapOne(l, p, id), p)
  {
    var m := ReapOne(l, p, id);
    forall uid | uid in m.leases ensures uid > 0 && Registered(m, p, m.leases[uid]) {
      assert Registered(l, p, l.leases[uid]);
    }
  }

  /** Operations that only drop leases, or change blocks, cannot break the structure. */
  lemma FewerLeasesKeepStructure(l: Ledger, m: Ledger, p: Pool)
    requires Structured(l, p) && SlotsUnique(l, p)
    requires m.actors == l.actors && m.draining == l.draining && m.nextSlot == l.nextSlot
    requires forall uid :: uid in m.leases ==> uid in l.leases && m.leases[uid] == l.leases[uid]
    ensures Structured(m, p) && SlotsUnique(m, p)
  {
  }

  lemma LeaseKeepsStructure(l: Ledger, p: Pool, uid: Int64, id: nat)
    requires Structured(l, p) && SlotsUnique(l, p) && uid > 0 && Registered(l, p, id)
    ensures Structured(AddLease(l, uid, id), p) && SlotsUnique(AddLease(l, uid, id), p)
  {
  }

  /** A lease keeps the structure exactly when its actor is registered, which TryLeaseUID does not check. */
  lemma LeaseNeedsRegistration(l: Ledger, p: Pool, uid: Int64, id: nat)
    requires Structured(l, p) && Leasable(l, uid)
    ensures Structured(AddLease(l, uid, id), p) <==> Registered(l, p, id)
  {
    assert uid in AddLease(l, uid, id).leases;
  }

  lemma DrainKeepsStructure(l: Ledger, p: Pool, id: nat)
    requires Structured(l, p) && SlotsUnique(l, p) && Registered(l, p, id)
    ensures Structured(Drain(l, p, id), p) && SlotsUnique(Drain(l, p, id), p)
  {
  }

  lemma StepKeepsStructure(s: System, op: Op)
    requires Inv(s) && Enabled(s, op)
    ensures Structured(Step(s, op).ledger, Step(s, op).pool) && SlotsUnique(Step(s, op).ledger, Step(s, op).pool)
  {
    hide Structured, SlotsUnique, ReapOne, Reap, SameSlots, QuarantineHeld;
    match op
    case ActorStep(id, e) =>
      ActorStepKeepsSlots(s.pool, id, e);
      SameSlotsKeepStructure(s.ledger, s.pool, Step(s, op).pool);
    case Lease(uid, id) => LeaseKeepsStructure(s.ledger, s.pool, uid, id);
    case Create(mode) => CreateKeepsStructure(s.ledger, s.pool, mode);
    case BeginDrain(id) => DrainKeepsStructure(s.ledger, s.pool, id);
    case ReapActor(id) => ReapOneKeepsStructure(s.ledger, s.pool, id);
    case ReapAll(unexpected) => ReapKeepsStructure(s.ledger, s.pool, unexpected);
    case _ => FewerLeasesKeepStructure(s.ledger, Step(s, op).ledger, s.pool);
  }

  /** Nothing leaves quarantine, what is in quarantine stays blocked, and none of it is leased. */
  lemma StepKeepsQuarantine(s: System, op: Op)
    requires QuarantineHeld(s.ledger) && Enabled(s, op)
    ensures QuarantineHeld(Step(s, op).ledger)
    ensures s.ledger.quarantine <= Step(s, op).ledger.quarantine
  {
  }

  lemma StepKeepsInv(s: System, op: Op)
    requires Inv(s) && Enabled(s, op)
    ensures Inv(Step(s, op))
  {
    StepKeepsStructure(s, op);
    StepKeepsQuarantine(s, op);
    if op.ActorStep? { A.StepKeepsIdentity(s.pool[op.id], op.event); }
    hide Structured, SlotsUnique, QuarantineHeld, Reap, ReapOne, A.Step;
  }

  lemma ReapAllIs(s: System, unexpected: bool)
    ensures Step(s, ReapAll(unexpected)) == s.(ledger := Reap(s.ledger, s.pool, unexpected))
  {
    hide Reap;
  }

  lemma CreateIs(s: System, mode: A.Mode)
    ensures Step(s, Create(mode)) ==
      System(AddActor(s.ledger, |s.pool|), s.pool + [A.NewActor(s.ledger.nextSlot + 1, mode)])
  {
  }

  // ----- runs -----

  ghost predicate IsRun(run: seq<System>, ops: seq<Op>) {
    && |run| == |ops| + 1
    && run[0] == System(EMPTY_LEDGER, [])
    && forall k :: 0 <= k < |ops| ==> Enabled(run[k], ops[k]) && run[k + 1] == Step(run[k], ops[k])
  }

  lemma {:induction false} RunKeepsInv(run: seq<System>, ops: seq<Op>, k: nat)
    requires IsRun(run, ops) && k < |run|
    ensures Inv(run[k])
  {
    if k > 0 {
      RunKeepsInv(run, ops, k - 1);
      StepKeepsInv(run[k - 1], ops[k - 1]);
    }
  }

  lemma {:induction false} QuarantineGrows(run: seq<System>, ops: seq<Op>, k: nat, m: nat)
    requires IsRun(run, ops) && k <= m < |run|
    ensures run[k].ledger.quarantine <= run[m].ledger.quarantine
    decreases m - k
  {
    hide Step, Enabled, Structured, SlotsUnique, UidsNatural, QuarantineHeld;
    if k < m {
      QuarantineGrows(run, ops, k, m - 1);
      RunKeepsInv(run, ops, m - 1);
      StepKeepsQuarantine(run[m - 1], ops[m - 1]);
    }
  }

  /** A quarantined UID stays blocked and is never leased again, whatever happens. */
  lemma QuarantineIsPermanent(run: seq<System>, ops: seq<Op>, k: nat, m: nat, uid: Int64)
    requires IsRun(run, ops) && k <= m < |run| && uid in run[k].ledger.quarantine
    ensures uid in run[m].ledger.quarantine && uid in run[m].ledger.blocked && uid !in run[m].ledger.leases
  {
    QuarantineGrows(run, ops, k, m);
    RunKeepsInv(run, ops, m);
  }

  /** Every actor sits only under its own slot, draining and leased actors are registered, and
      no two actors ever made have the same slot. */
  lemma LedgerStructure(run: seq<System>, ops: seq<Op>, k: nat)
    requires IsRun(run, ops) && k < |run|
    ensures Structured(run[k].ledger, run[k].pool)
    ensures forall i, j :: 0 <= i < j < |run[k].pool| ==> run[k].pool[i].slot != run[k].pool[j].slot
  {
    RunKeepsInv(run, ops, k);
  }

  /** The actor has finished, and a reap removes it: it was draining, or all finished ones are meant. */
  predicate Gone(l: Ledger, pool: Pool, unexpected: bool, id: nat) {
    id < |pool| && pool[id].done && (unexpected || pool[id].slot in l.draining)
  }

  /** The leases of the actor stay blocked: it was quarantined, or it finished without being drained. */
  predicate KeepsBlock(l: Ledger, pool: Pool, id: nat) {
    id < |pool| && (pool[id].slot in l.draining ==> pool[id].quarantined)
  }

  /** What a reap leaves, by the flags of the actors alone: exactly the actors that are gone leave their
      slots and lose their leases; their UIDs are blocked and quarantined, or free; the rest stays. */
  lemma ReapLeaves(l: Ledger, p: Pool, unexpected: bool, slot: nat, uid: Int64)
    requires Structured(l, p)
    ensures var m := Reap(l, p, unexpected);
      && (slot in m.actors <==> slot in l.actors && !Gone(l, p, unexpected, l.actors[slot]))
      && (slot in m.actors ==> m.actors[slot] == l.actors[slot])
      && (slot in m.draining <==> slot in l.draining && !p[l.draining[slot]].done)
      && (slot in m.draining ==> m.draining[slot] == l.draining[slot])
      && (uid in m.leases <==> uid in l.leases && !Gone(l, p, unexpected, l.leases[uid]))
      && (uid in m.leases ==> m.leases[uid] == l.leases[uid])
      && (uid in l.leases && Gone(l, p, unexpected, l.leases[uid]) ==>
            && (uid in m.blocked <==> KeepsBlock(l, p, l.leases[uid]))
            && (uid in m.quarantine <==> uid in l.quarantine || KeepsBlock(l, p, l.leases[uid])))
      && (!(uid in l.leases && Gone(l, p, unexpected, l.leases[uid])) ==>
            (uid in m.blocked <==> uid in l.blocked) && (uid in m.quarantine <==> uid in l.quarantine))
  {
    if uid in l.leases {
      GoneIsDead(l, p, unexpected, l.leases[uid]);
    }
    hide Dead, Drained;
  }

  lemma GoneIsDead(l: Ledger, p: Pool, unexpected: bool, id: nat)
    requires Structured(l, p) && Registered(l, p, id)
    ensures Dead(l, p, unexpected, id) <==> Gone(l, p, unexpected, id)
    ensures Drained(l, p, id) <==> p[id].done && p[id].slot in l.draining
  {
    var slot := p[id].slot;
    if p[id].done {
      if slot in l.draining { assert DrainedSlot(l, p, slot); } else { assert CrashedSlot(l, p, slot); }
    }
  }

  /** Reaping one actor does to its slot and its leases what reaping the drained actors does, and
      nothing to anybody else. */
  lemma ReapOneAgrees(l: Ledger, p: Pool, id: nat, slot: nat, uid: Int64)
    requires Structured(l, p) && id < |p|
    ensures var m, n := ReapOne(l, p, id), Reap(l, p, false);
      var gone := p[id].done && p[id].slot in l.draining && l.draining[p[id].slot] == id;
      && (uid in l.leases && gone && l.leases[uid] == id ==>
            && uid !in m.leases && uid !in n.leases
            && (uid in m.blocked <==> uid in n.blocked) && (uid in m.quarantine <==> uid in n.quarantine))
      && (!(uid in l.leases && gone && l.leases[uid] == id) ==>
            && (uid in m.leases <==> uid in l.leases) && (uid in m.leases ==> m.leases[uid] == l.leases[uid])
            && (uid in m.blocked <==> uid in l.blocked) && (uid in m.quarantine <==> uid in l.quarantine))
      && (gone && slot == p[id].slot ==>
            slot !in m.actors && slot !in n.actors && slot !in m.draining && slot !in n.draining)
      && (!(gone && slot == p[id].slot) ==>
            && (slot in m.actors <==> slot in l.actors) && (slot in m.draining <==> slot in l.draining)
            && (slot in m.actors ==> m.actors[slot] == l.actors[slot])
            && (slot in m.draining ==> m.draining[slot] == l.draining[slot]))
  {
    ReapLeaves(l, p, false, slot, uid);
    hide Reap;
  }

  /** After ReapDoneDraining no finished actor occurs in any of the three maps, and every lease
      of an actor that finished without being drained is blocked and in quarantine. */
  lemma ReapRemovesTheDead(run: seq<System>, ops: seq<Op>, k: nat)
    requires IsRun(run, ops) && k < |ops| && ops[k] == ReapAll(true)
    ensures var l, m, pool := run[k].ledger, run[k + 1].ledger, run[k].pool;
      && (forall slot :: slot in m.actors ==> !Done(pool, m.actors[slot]))
      && (forall slot :: slot in m.draining ==> !Done(pool, m.draining[slot]))
      && (forall uid :: uid in m.leases ==> !Done(pool, m.leases[uid]))
      && (forall uid :: uid in l.leases && Crashed(l, pool, l.leases[uid]) ==> uid in m.blocked && uid in m.quarantine)
  {
    RunKeepsInv(run, ops, k);
    var l, m, pool := run[k].ledger, run[k + 1].ledger, run[k].pool;
    forall uid | uid in m.leases ensures !Done(pool, m.leases[uid]) {
      SurvivorsStay(l, pool, true, uid);
    }
    forall uid | uid in l.leases && Crashed(l, pool, l.leases[uid]) ensures uid in m.blocked && uid in m.quarantine {
      CrashedNotDrained(l, pool, l.leases[uid]);
      assert Condemned(l, pool, true, uid);
    }
  }

  /** No actor is both crashed and drained: it has one slot only. */
  lemma CrashedNotDrained(l: Ledger, p: Pool, id: nat)
    requires Structured(l, p) && Crashed(l, p, id)
    ensures !Drained(l, p, id)
  {
  }

  // ----- no UID is ever held by two actors -----

  ghost predicate HeldByOther(pool: Pool, id: nat, uid: Int64) {
    exists j :: 0 <= j < |pool| && j != id && pool[j].uid == uid
  }

  /** What the supervisor and the runtime owe the ledger.  When an assignment is carried out, the
      UID is leased to the actor, or it is in quarantine and nobody else holds it; a lease is
      dropped only when its actor does not hold the UID; and a stop does not end in a panic that
      leaves the UID open.  An assignment that the actor refuses owes nothing. */
  ghost predicate Orderly(s: System, op: Op)
    requires Enabled(s, op)
  {
    match op
    case ActorStep(id, e) =>
      && (A.CarriesOut(s.pool[id], e) ==>
            var uid := e.control.uid;
            || (uid in s.ledger.leases && s.ledger.leases[uid] == id)
            || (uid in s.ledger.quarantine && !HeldByOther(s.pool, id, uid)))
      && A.StopsCleanly(s.pool[id], e)
    case Unlease(uid) =>
      uid in s.ledger.leases && s.ledger.leases[uid] < |s.pool| ==> s.pool[s.ledger.leases[uid]].uid != uid
    case _ => true
  }

  /** Actor i holds its UID by a lease, or the UID is in quarantine. */
  predicate HoldsRightly(l: Ledger, pool: Pool, i: nat)
    requires i < |pool|
  {
    var uid := pool[i].uid;
    uid > 0 ==> (uid in l.leases && l.leases[uid] == i) || uid in l.quarantine
  }

  ghost predicate AllHoldRightly(l: Ledger, pool: Pool) {
    forall i :: 0 <= i < |pool| ==> HoldsRightly(l, pool, i)
  }

  ghost predicate AllFinishCleanly(pool: Pool) {
    forall i :: 0 <= i < |pool| ==> A.CleanlyFinished(pool[i])
  }

  ghost predicate Exclusive(pool: Pool) {
    forall i, j :: 0 <= i < j < |pool| && pool[i].uid > 0 ==> pool[i].uid != pool[j].uid
  }

  ghost predicate Safe(s: System) {
    AllHoldRightly(s.ledger, s.pool) && AllFinishCleanly(s.pool) && Exclusive(s.pool)
  }

  lemma CarriedOut(a: A.ActorState, e: A.Event)
    requires A.Enabled(a, e)
    ensures A.CarriesOut(a, e) <==>
      e.DoControl? && e.control.Assign? && e.control.uid > 0 && A.Step(a, e).uid == e.control.uid
  {
    hide A.Step;
    if e.DoControl? && e.control.Assign? && e.control.uid > 0 {
      A.AssignedIffCarriedOut(a, e);
    }
  }

  lemma ActorStepKeepsSafe(s: System, id: nat, e: A.Event)
    requires Inv(s) && Safe(s) && Enabled(s, ActorStep(id, e)) && Orderly(s, ActorStep(id, e))
    ensures Safe(Step(s, ActorStep(id, e)))
  {
    A.StepUids(s.pool[id], e);
    A.StepFinishesCleanly(s.pool[id], e);
    CarriedOut(s.pool[id], e);
    hide A.Step, A.CarriesOut;
    var b := A.Step(s.pool[id], e);
    var pool := s.pool[id := b];
    forall i | 0 <= i < |pool| ensures HoldsRightly(s.ledger, pool, i) {
      assert HoldsRightly(s.ledger, s.pool, i);
    }
    forall i, j | 0 <= i < j < |pool| && pool[i].uid > 0 ensures pool[i].uid != pool[j].uid {
      assert HoldsRightly(s.ledger, s.pool, i) && HoldsRightly(s.ledger, s.pool, j);
    }
  }

  /** A lease that a reap makes available again belonged to an actor that no longer holds its UID. */
  lemma ReapFreesOnlyTheReleased(l: Ledger, p: Pool, unexpected: bool, uid: Int64)
    requires Structured(l, p) && AllFinishCleanly(p)
    requires LeaseDies(l, p, unexpected, uid) && !Condemned(l, p, unexpected, uid)
    ensures p[l.leases[uid]].uid <= 0
  {
    assert Registered(l, p, l.leases[uid]);
  }

  lemma ReapKeepsSafe(s: System, unexpected: bool)
    requires Inv(s) && Safe(s)
    ensures Safe(Step(s, ReapAll(unexpected)))
  {
    var l, m, pool := s.ledger, Reap(s.ledger, s.pool, unexpected), s.pool;
    forall i | 0 <= i < |pool| ensures HoldsRightly(m, pool, i) {
      var uid := pool[i].uid;
      assert HoldsRightly(l, pool, i);
      if uid > 0 && LeaseDies(l, pool, unexpected, uid) && !Condemned(l, pool, unexpected, uid) {
        ReapFreesOnlyTheReleased(l, pool, unexpected, uid);
      }
    }
  }

  lemma LedgerStepKeepsSafe(s: System, op: Op)
    requires Inv(s) && Safe(s) && Enabled(s, op) && Orderly(s, op)
    requires !op.ActorStep? && !op.ReapAll?
    ensures Safe(Step(s, op))
  {
    var t := Step(s, op);
    forall i | 0 <= i < |t.pool| ensures HoldsRightly(t.ledger, t.pool, i) {
      if i < |s.pool| { assert HoldsRightly(s.ledger, s.pool, i); }
    }
  }

  lemma StepKeepsSafe(s: System, op: Op)
    requires Inv(s) && Safe(s) && Enabled(s, op) && Orderly(s, op)
    ensures Safe(Step(s, op))
  {
    match op
    case ActorStep(id, e) => ActorStepKeepsSafe(s, id, e);
    case ReapAll(unexpected) => ReapKeepsSafe(s, unexpected);
    case _ => LedgerStepKeepsSafe(s, op);
  }

  /** A step of an actor that is not orderly leaves an unsafe state. */
  lemma DisorderlyActorStep(s: System, id: nat, e: A.Event)
    requires Inv(s) && Safe(s) && Enabled(s, ActorStep(id, e)) && Safe(Step(s, ActorStep(id, e)))
    ensures Orderly(s, ActorStep(id, e))
  {
    var a, b := s.pool[id], A.Step(s.pool[id], e);
    var pool := s.pool[id := b];
    CarriedOut(a, e);
    hide A.Step, A.CarriesOut;
    assert HoldsRightly(s.ledger, pool, id) && A.CleanlyFinished(pool[id]) && pool[id] == b && A.CleanlyFinished(a);
    A.StepFinishesCleanlyOnlyIf(a, e);
    assert forall j :: 0 <= j < |pool| && j != id ==> pool[j] == s.pool[j];
  }

  /** A step keeps the system safe exactly when it is orderly. */
  lemma SafeIffOrderly(s: System, op: Op)
    requires Inv(s) && Safe(s) && Enabled(s, op)
    ensures Safe(Step(s, op)) <==> Orderly(s, op)
  {
    if Orderly(s, op) {
      StepKeepsSafe(s, op);
    } else if op.ActorStep? && Safe(Step(s, op)) {
      DisorderlyActorStep(s, op.id, op.event);
    } else if op.Unlease? {
      assert !HoldsRightly(Step(s, op).ledger, s.pool, s.ledger.leases[op.uid]);
    }
    hide Safe, Reap, ReapOne, A.Step;
  }

  /** Up to point k every operation was orderly. */
  ghost predicate OrderlyUntil(run: seq<System>, ops: seq<Op>, k: nat)
    requires IsRun(run, ops) && k <= |ops|
  {
    forall j :: 0 <= j < k ==> Orderly(run[j], ops[j])
  }

  /** A run has been safe so far exactly when every operation so far was orderly. */
  lemma {:induction false} RunSafeIffOrderly(run: seq<System>, ops: seq<Op>, k: nat)
    requires IsRun(run, ops) && k < |run|
    ensures (forall j :: 0 <= j <= k ==> Safe(run[j])) <==> OrderlyUntil(run, ops, k)
  {
    if k == 0 {
      assert Safe(run[0]);
    } else {
      hide Inv, Step, Safe, Orderly, Enabled;
      RunSafeIffOrderly(run, ops, k - 1);
      RunKeepsInv(run, ops, k - 1);
      if Safe(run[k - 1]) {
        SafeIffOrderly(run[k - 1], ops[k - 1]);
      }
      assert (forall j :: 0 <= j <= k ==> Safe(run[j])) <==>
        (forall j :: 0 <= j <= k - 1 ==> Safe(run[j])) && Safe(run[k]);
      assert OrderlyUntil(run, ops, k) <==> OrderlyUntil(run, ops, k - 1) && Orderly(run[k - 1], ops[k - 1]);
    }
  }

  // ----- what clean stops alone guarantee -----

  /** The step is not a stop that leaves a UID open. */
  predicate CleanStep(s: System, op: Op)
    requires Enabled(s, op)
  {
    op.ActorStep? ==> A.StopsCleanly(s.pool[op.id], op.event)
  }

  /** Up to point k every stop was clean; nothing is asked of the leases. */
  ghost predicate CleanUntil(run: seq<System>, ops: seq<Op>, k: nat)
    requires IsRun(run, ops) && k <= |ops|
  {
    forall j :: 0 <= j < k ==> CleanStep(run[j], ops[j])
  }

  lemma CleanIffStopsClean(s: System, op: Op)
    requires Enabled(s, op) && AllFinishCleanly(s.pool)
    ensures AllFinishCleanly(Step(s, op).pool) <==> CleanStep(s, op)
  {
    hide A.Step, A.StopsCleanly, Reap, ReapOne;
    if op.ActorStep? {
      var a := s.pool[op.id];
      assert A.CleanlyFinished(a);
      assert Step(s, op).pool[op.id] == A.Step(a, op.event);
      if A.StopsCleanly(a, op.event) {
        A.StepFinishesCleanly(a, op.event);
      } else if A.CleanlyFinished(A.Step(a, op.event)) {
        A.StepFinishesCleanlyOnlyIf(a, op.event);
      }
    }
  }

  /** At every point so far each finished actor was quarantined or held no UID, exactly when every
      stop so far was clean.  Late assignments and dropped leases do not matter. */
  lemma {:induction false} RunCleanIffStopsClean(run: seq<System>, ops: seq<Op>, k: nat)
    requires IsRun(run, ops) && k < |run|
    ensures (forall j :: 0 <= j <= k ==> AllFinishCleanly(run[j].pool)) <==> CleanUntil(run, ops, k)
  {
    if k == 0 {
      assert AllFinishCleanly(run[0].pool);
    } else {
      hide Step, AllFinishCleanly, CleanStep, Enabled;
      RunCleanIffStopsClean(run, ops, k - 1);
      if AllFinishCleanly(run[k - 1].pool) {
        CleanIffStopsClean(run[k - 1], ops[k - 1]);
      }
      assert CleanUntil(run, ops, k) <==> CleanUntil(run, ops, k - 1) && CleanStep(run[k - 1], ops[k - 1]);
      assert (forall j :: 0 <= j <= k ==> AllFinishCleanly(run[j].pool)) <==>
        (forall j :: 0 <= j <= k - 1 ==> AllFinishCleanly(run[j].pool)) && AllFinishCleanly(run[k].pool);
    }
  }

  lemma FreedByReapOne(l: Ledger, p: Pool, id: nat, uid: Int64)
    requires AllFinishCleanly(p) && id < |p|
    requires uid in l.leases && Leasable(ReapOne(l, p, id), uid)
    ensures l.leases[uid] == id && Done(p, id) && p[id].uid <= 0
  {
    assert A.CleanlyFinished(p[id]);
  }

  lemma ReapFreesTheDead(l: Ledger, p: Pool, unexpected: bool, uid: Int64)
    requires uid in l.leases && Leasable(Reap(l, p, unexpected), uid)
    ensures LeaseDies(l, p, unexpected, uid) && !Condemned(l, p, unexpected, uid) && Done(p, l.leases[uid])
  {
    hide Dead;
    assert Dead(l, p, unexpected, l.leases[uid]);
    DeadIsDone(l, p, unexpected, l.leases[uid]);
  }

  lemma DeadIsDone(l: Ledger, p: Pool, unexpected: bool, id: nat)
    requires Dead(l, p, unexpected, id)
    ensures Done(p, id)
  {
  }

  lemma FreedByStep(s: System, op: Op, uid: Int64)
    requires Structured(s.ledger, s.pool) && AllFinishCleanly(s.pool) && Enabled(s, op)
    requires op.ReapAll? || op.ReapActor?
    requires uid in s.ledger.leases && Leasable(Step(s, op).ledger, uid)
    ensures var id := s.ledger.leases[uid]; Done(s.pool, id) && s.pool[id].uid <= 0
  {
    hide Structured, AllFinishCleanly, ReapOne, Reap, LeaseDies, Condemned, Leasable, Done;
    match op
    case ReapActor(id) =>
      FreedByReapOne(s.ledger, s.pool, id, uid);
    case ReapAll(unexpected) =>
      ReapFreesTheDead(s.ledger, s.pool, unexpected, uid);
      ReapFreesOnlyTheReleased(s.ledger, s.pool, unexpected, uid);
  }

  /** So in a run with clean stops, whatever became of the leases, a lease that a reap makes available
      again belonged to a finished actor that holds no UID: its UID is not left attached. */
  lemma FreedLeaseWasReleased(run: seq<System>, ops: seq<Op>, k: nat, uid: Int64)
    requires IsRun(run, ops) && k < |ops| && CleanUntil(run, ops, k) && (ops[k].ReapAll? || ops[k].ReapActor?)
    requires uid in run[k].ledger.leases && Leasable(run[k + 1].ledger, uid)
    ensures var id := run[k].ledger.leases[uid]; Done(run[k].pool, id) && run[k].pool[id].uid <= 0
  {
    hide Step, Enabled, Structured, SlotsUnique, UidsNatural, QuarantineHeld;
    hide AllFinishCleanly, CleanUntil, Leasable, Done;
    RunKeepsInv(run, ops, k);
    RunCleanIffStopsClean(run, ops, k);
    FreedByStep(run[k], ops[k], uid);
  }

  // ----- the guarantees of a run -----

  /** While every operation is orderly two actors never hold the same UID; while every stop is clean,
      orderly leases or not, an actor that has finished is quarantined or holds none. */
  lemma OneActorPerUid(run: seq<System>, ops: seq<Op>, k: nat, i: nat, j: nat)
    requires IsRun(run, ops) && k < |run| && i < |run[k].pool| && j < |run[k].pool|
    requires run[k].pool[i].uid == run[k].pool[j].uid > 0
    ensures OrderlyUntil(run, ops, k) ==> i == j
    ensures CleanUntil(run, ops, k) && run[k].pool[i].done ==> run[k].pool[i].quarantined
  {
    RunSafeIffOrderly(run, ops, k);
    RunCleanIffStopsClean(run, ops, k);
    hide OrderlyUntil, CleanUntil, IsRun, A.CleanlyFinished, HoldsRightly;
    if OrderlyUntil(run, ops, k) { assert Safe(run[k]); }
    if CleanUntil(run, ops, k) { FinishedHolds(run[k].pool, i); }
  }

  lemma FinishedHolds(pool: Pool, i: nat)
    requires AllFinishCleanly(pool) && i < |pool|
    ensures pool[i].done ==> pool[i].uid <= 0 || pool[i].quarantined
  {
    assert A.CleanlyFinished(pool[i]);
  }

  /** While every operation is orderly a UID that can be leased is held by no actor. */
  lemma LeasableMeansDetached(run: seq<System>, ops: seq<Op>, k: nat, uid: Int64, i: nat)
    requires IsRun(run, ops) && k < |run| && OrderlyUntil(run, ops, k) && i < |run[k].pool|
    requires Leasable(run[k].ledger, uid)
    ensures run[k].pool[i].uid != uid
  {
    RunSafeIffOrderly(run, ops, k);
    RunKeepsInv(run, ops, k);
    assert Safe(run[k]) && HoldsRightly(run[k].ledger, run[k].pool, i);
  }

  // ----- leases apart -----

  /** The step gives an actor a UID that another actor holds. */
  ghost predicate Doubles(s: System, op: Op)
    requires Enabled(s, op)
  {
    && op.ActorStep? && A.CarriesOut(s.pool[op.id], op.event)
    && HeldByOther(s.pool, op.id, op.event.control.uid)
  }

  /** Leases apart: whatever the state, a step lets two actors hold one UID exactly when it carries
      out an assignment of a UID that another actor holds. */
  lemma ExclusiveKept(s: System, op: Op)
    requires UidsNatural(s.pool) && Exclusive(s.pool) && Enabled(s, op)
    ensures Exclusive(Step(s, op).pool) <==> !Doubles(s, op)
  {
    var pool := Step(s, op).pool;
    if op.ActorStep? {
      A.StepUids(s.pool[op.id], op.event);
      CarriedOut(s.pool[op.id], op.event);
      hide A.Step, A.CarriesOut;
      if Doubles(s, op) {
        var j :| 0 <= j < |s.pool| && j != op.id && s.pool[j].uid == op.event.control.uid;
        assert pool[j].uid == pool[op.id].uid;
      }
    }
    hide Reap, ReapOne;
  }

  /** Where the guarantee ends: a drained actor that finished while it held a leased UID leaves
      that UID leasable after the reap exactly when it is not quarantined, that is, by
      FinishedUnquarantined, after a panic during the stop that the clean-up did not repair. */
  lemma ReapFreesHeldUid(l: Ledger, p: Pool, unexpected: bool, uid: Int64)
    requires Structured(l, p) && QuarantineHeld(l) && uid in l.leases
    requires p[l.leases[uid]].uid == uid && Done(p, l.leases[uid]) && IsDraining(l, p, l.leases[uid])
    ensures Leasable(Reap(l, p, unexpected), uid) <==> !p[l.leases[uid]].quarantined
  {
    var id := l.leases[uid];
    assert DrainedSlot(l, p, p[id].slot);
    assert Drained(l, p, id) && LeaseDies(l, p, unexpected, uid);
    assert uid > 0;
  }

  ghost predicate Reached(s: System) {
    exists run, ops :: IsRun(run, ops) && run[|ops|] == s
  }

  lemma ReachedEmpty()
    ensures Reached(System(EMPTY_LEDGER, []))
  {
    assert IsRun([System(EMPTY_LEDGER, [])], []);
  }

  lemma ReachedStep(s: System, op: Op)
    requires Reached(s) && Enabled(s, op)
    ensures Reached(Step(s, op))
  {
    var run, ops :| IsRun(run, ops) && run[|ops|] == s;
    assert IsRun(run + [Step(s, op)], ops + [op]);
  }

  /** An actor takes UID 7. */
  lemma ReachAttached() returns (s: System)
    ensures Reached(s)
    ensures s == System(Ledger(map[1 := 0], map[7 := 0], map[], {}, {}, 1), s.pool)
    ensures |s.pool| == 1 && var a := s.pool[0]; a.slot == 1 && a.uid == 7 && !a.done && !a.quarantined
  {
    hide Reached;
    var assign := A.DoControl(A.Assign(7), A.ReleaseAnswers(A.Panic, A.CloseAnswers(A.No, true, A.No)));
    s := System(EMPTY_LEDGER, []);
    ReachedEmpty();
    ReachedStep(s, Create(A.Auto)); s := Step(s, Create(A.Auto));
    ReachedStep(s, Lease(7, 0)); s := Step(s, Lease(7, 0));
    ReachedStep(s, ActorStep(0, assign)); s := Step(s, ActorStep(0, assign));
  }

  /** It is drained and asked to stop. */
  lemma ReachStopping() returns (s: System)
    ensures Reached(s)
    ensures s == System(Ledger(map[1 := 0], map[7 := 0], map[1 := 0], {}, {}, 1), s.pool)
    ensures |s.pool| == 1 && var a := s.pool[0];
      a.slot == 1 && a.uid == 7 && a.stopRequested && !a.done && !a.quarantined
  {
    hide Reached;
    s := ReachAttached();
    ReachedStep(s, BeginDrain(0)); s := Step(s, BeginDrain(0));
    ReachedStep(s, ActorStep(0, A.AskStop)); s := Step(s, ActorStep(0, A.AskStop));
  }

  /** The runtime panics during the stop and again during the clean-up; the reap forgets the actor. */
  lemma ReachReaped() returns (s: System)
    ensures Reached(s)
    ensures s == System(Ledger(map[], map[], map[], {}, {}, 1), s.pool)
    ensures |s.pool| == 1 && s.pool[0].slot == 1 && s.pool[0].uid == 7
  {
    var no := A.CloseAnswers(A.No, true, A.No);
    var stop: A.Stop := A.StopAnswers(A.Panic, seq(8, _ => no), A.ReleaseAnswers(A.Panic, no));
    hide Reached;
    s := ReachStopping();
    ReachedStep(s, ActorStep(0, A.DoStop(stop)));
    s := Step(s, ActorStep(0, A.DoStop(stop)));
    assert s.pool[0].done && s.pool[0].uid == 7 && !s.pool[0].quarantined && s.pool[0].slot == 1;
    hide A.Step;
    var l := s.ledger;
    assert DrainedSlot(l, s.pool, 1) && Drained(l, s.pool, 0);
    assert LeaseDies(l, s.pool, false, 7) && !Condemned(l, s.pool, false, 7);
    ReachedStep(s, ReapAll(false));
    s := Step(s, ReapAll(false));
    assert s.ledger.actors == map[] && s.ledger.draining == map[] && s.ledger.leases == map[];
  }

  /** A run in which this happens: a second actor is given the UID the first one still holds. */
  lemma PanicCanShareUid()
    ensures exists s :: Reached(s) && |s.pool| == 2 && s.pool[0].uid == s.pool[1].uid == 7
  {
    var assign := A.DoControl(A.Assign(7), A.ReleaseAnswers(A.Panic, A.CloseAnswers(A.No, true, A.No)));
    hide Reached;
    var s := ReachReaped();
    ReachedStep(s, Create(A.Auto)); s := Step(s, Create(A.Auto));
    ReachedStep(s, Lease(7, 1)); s := Step(s, Lease(7, 1));
    ReachedStep(s, ActorStep(1, assign)); s := Step(s, ActorStep(1, assign));
  }

  /** Two idle actors; the first one had UID 7 leased, the second one has it now. */
  lemma ReachReleased() returns (s: System)
    ensures Reached(s) && s.ledger.leases == map[7 := 1]
    ensures s.pool == [A.NewActor(1, A.Auto), A.NewActor(2, A.Auto)]
  {
    hide Reached;
    s := System(EMPTY_LEDGER, []);
    ReachedEmpty();
    ReachedStep(s, Create(A.Auto)); s := Step(s, Create(A.Auto));
    ReachedStep(s, Create(A.Auto)); s := Step(s, Create(A.Auto));
    ReachedStep(s, Lease(7, 0)); s := Step(s, Lease(7, 0));
    ReachedStep(s, Unlease(7)); s := Step(s, Unlease(7));
    ReachedStep(s, Lease(7, 1)); s := Step(s, Lease(7, 1));
  }

  /** The other way to share a UID, without any panic: the lease of an actor is dropped before its
      assignment is carried out, and the UID is leased to a second actor. */
  lemma LateAssignmentSharesUid()
    ensures exists s ::
      && Reached(s) && |s.pool| == 2 && s.pool[0].uid == s.pool[1].uid == 7
      && !s.pool[0].done && !s.pool[1].done && s.ledger.leases == map[7 := 1]
  {
    var assign := A.DoControl(A.Assign(7), A.ReleaseAnswers(A.Yes, A.CloseAnswers(A.Yes, false, A.Yes)));
    hide Reached;
    var s := ReachReleased();
    ReachedStep(s, ActorStep(0, assign)); s := Step(s, ActorStep(0, assign));
    ReachedStep(s, ActorStep(1, assign)); s := Step(s, ActorStep(1, assign));
  }

  // ----- how many leases an actor has -----

  /** No actor has two leases. */
  ghost predicate OneLeaseEach(l: Ledger) {
    forall u, v :: u in l.leases && v in l.leases && u != v ==> l.leases[u] != l.leases[v]
  }

  /** The operation does not lease a UID to an actor that has a lease already. */
  predicate LeasesToFree(s: System, op: Op) {
    op.Lease? ==> op.id !in s.ledger.leases.Values
  }

  lemma ReapKeepsLeases(l: Ledger, p: Pool, unexpected: bool, id: nat)
    requires id < |p|
    ensures var m := Reap(l, p, unexpected); forall u :: u in m.leases ==> u in l.leases && m.leases[u] == l.leases[u]
    ensures var m := ReapOne(l, p, id); forall u :: u in m.leases ==> u in l.leases && m.leases[u] == l.leases[u]
  {
  }

  /** The ledger's operations keep one lease per actor exactly when no lease goes to an actor that
      has one: the checks of the lease operations look at the UID, not at the actor's leases. */
  lemma OneLeaseKept(s: System, op: Op)
    requires Inv(s) && Enabled(s, op) && OneLeaseEach(s.ledger)
    ensures OneLeaseEach(Step(s, op).ledger) <==> LeasesToFree(s, op)
  {
    var l, m := s.ledger, Step(s, op).ledger;
    if op.Lease? {
      if op.id in l.leases.Values {
        var u :| u in l.leases && l.leases[u] == op.id;
        assert m.leases[u] == m.leases[op.uid] && u != op.uid;
      }
    } else {
      if s.pool != [] { ReapKeepsLeases(l, s.pool, op.ReapAll? && op.unexpected, if op.ReapActor? then op.id else 0); }
      hide Inv, Reap, ReapOne;
    }
  }

  ghost predicate OneLeaseUntil(run: seq<System>, k: nat)
    requires k < |run|
  {
    forall j :: 0 <= j <= k ==> OneLeaseEach(run[j].ledger)
  }

  ghost predicate FreeUntil(run: seq<System>, ops: seq<Op>, k: nat)
    requires k <= |run| && k <= |ops|
  {
    forall j :: 0 <= j < k ==> LeasesToFree(run[j], ops[j])
  }

  lemma OneMoreUntil(run: seq<System>, ops: seq<Op>, k: nat)
    requires 0 < k < |run| && k <= |ops|
    ensures OneLeaseUntil(run, k) <==> OneLeaseUntil(run, k - 1) && OneLeaseEach(run[k].ledger)
    ensures FreeUntil(run, ops, k) <==> FreeUntil(run, ops, k - 1) && LeasesToFree(run[k - 1], ops[k - 1])
    ensures OneLeaseUntil(run, k - 1) ==> OneLeaseEach(run[k - 1].ledger)
  {
    hide OneLeaseEach, LeasesToFree;
  }

  /** Up to any point of a run no actor ever had two leases, exactly when every lease so far went to
      an actor that had none. */
  lemma {:induction false} OneLeaseInRuns(run: seq<System>, ops: seq<Op>, k: nat)
    requires IsRun(run, ops) && k < |run|
    ensures OneLeaseUntil(run, k) <==> FreeUntil(run, ops, k)
  {
    if k > 0 {
      hide Inv, Step, OneLeaseEach, LeasesToFree, Enabled, OneLeaseUntil, FreeUntil;
      OneLeaseInRuns(run, ops, k - 1);
      RunKeepsInv(run, ops, k - 1);
      OneMoreUntil(run, ops, k);
      if OneLeaseEach(run[k - 1].ledger) {
        OneLeaseKept(run[k - 1], ops[k - 1]);
      }
    }
  }

  /** Such a lease is possible: until an assignment is carried out the actor still looks idle. */
  lemma OneActorTwoLeases()
    ensures exists s ::
      && Reached(s) && 7 in s.ledger.leases && 8 in s.ledger.leases
      && s.ledger.leases[7] == s.ledger.leases[8]
  {
    hide Reached;
    var s := System(EMPTY_LEDGER, []);
    ReachedEmpty();
    ReachedStep(s, Create(A.Auto)); s := Step(s, Create(A.Auto));
    ReachedStep(s, Lease(7, 0)); s := Step(s, Lease(7, 0));
    ReachedStep(s, Lease(8, 0)); s := Step(s, Lease(8, 0));
  }
}
