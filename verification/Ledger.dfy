/**
 The operations of internal/actor/ledger.go on the fields of the ledger.  A reference to an actor is
 the number of the actor, `pool` holds the actors behind the numbers, and each method is one
 section under the ledger's lock.
 */
module Ledger {
  import opened Collections
  import opened LedgerModel
  import opened StopOrder
  import A = ActorModel

  datatype Ref = Nil | To(id: nat)

  /** New actors under the next n slots. */
  ghost function CreateMany(s: System, n: nat): System {
    if n == 0 then s else Step(CreateMany(s, n - 1), Create(A.Auto))
  }

  /** The actors of cs begin to drain, one after the other. */
  ghost function DrainMany(s: System, cs: seq<Candidate>): System {
    if cs == [] then s
    else
      var t, c := DrainMany(s, cs[..|cs| - 1]), cs[|cs| - 1];
      t.(ledger := t.ledger.(draining := t.ledger.draining[c.slot := c.id]))
  }

  class Ledger {
    var actors: map<nat, nat>
    var uidActors: map<Int64, nat>
    var draining: map<nat, nat>
    var blockedUID: set<Int64>
    var quarantine: set<Int64>
    var nextSlotID: nat
    var pool: Pool

    ghost function View(): System
      reads this
    {
      System(LedgerModel.Ledger(actors, uidActors, draining, blockedUID, quarantine, nextSlotID), pool)
    }

    ghost predicate Valid()
      reads this
    {
      Inv(View())
    }

    constructor ()
      ensures View() == System(EMPTY_LEDGER, [])
      ensures Valid()
    {
      actors, uidActors, draining, blockedUID, quarantine, nextSlotID, pool := map[], map[], map[], {}, {}, 0, [];
    }

    predicate Drains(slot: nat, actor: nat)
      reads this
    {
      slot in draining && draining[slot] == actor
    }

    function LeaseOf(uid: Int64): Ref
      reads this
    {
      if uid in uidActors then To(uidActors[uid]) else Nil
    }

    method BlockLeaseIfCurrent(uid: Int64, actor: Ref) returns (ok: bool)
      requires Valid()
      modifies this`blockedUID
      ensures ok == (LeaseOf(uid) == actor)
      ensures View() == if ok then Step(old(View()), BlockUid(uid)) else old(View())
      ensures Valid()
    {
      if LeaseOf(uid) != actor {
        return false;
      }
      blockedUID := blockedUID + {uid};
      ok := true;
    }

    method BlockUID(uid: Int64)
      requires Valid()
      modifies this`blockedUID
      ensures View() == if uid > 0 then Step(old(View()), BlockUid(uid)) else old(View())
      ensures Valid()
    {
      StepKeepsInv(View(), BlockUid(uid));
      hide Inv, Reap, ReapOne;
      if uid <= 0 {
        return;
      }
      blockedUID := blockedUID + {uid};
    }

    method UnblockUID(uid: Int64)
      requires Valid()
      modifies this`blockedUID
      ensures View() == Step(old(View()), UnblockUid(uid))
      ensures Valid()
    {
      if uid !in quarantine {
        blockedUID := blockedUID - {uid};
      }
    }

    /** The lease goes to whatever actor is given; it keeps the ledger in order exactly when that
        actor is still registered, and then it is a Lease step. */
    method TryLeaseUID(uid: Int64, actor: Ref) returns (ok: bool)
      requires Valid() && (actor.To? ==> actor.id < |pool|)
      modifies this`uidActors
      ensures ok <==>
        && uid > 0 && uid !in blockedUID && uid !in old(uidActors)
        && actor.To? && !Drains(pool[actor.id].slot, actor.id)
      ensures View() == if ok then old(View()).(ledger := AddLease(old(View()).ledger, uid, actor.id)) else old(View())
      ensures ok && Registered(old(View()).ledger, pool, actor.id) ==> View() == Step(old(View()), Lease(uid, actor.id))
      ensures Valid() <==> (ok ==> Registered(old(View()).ledger, pool, actor.id))
    {
      if uid <= 0 || actor == Nil {
        return false;
      }
      if Drains(pool[actor.id].slot, actor.id) || uid in blockedUID || uid in uidActors {
        return false;
      }
      LeaseNeedsRegistration(View().ledger, pool, uid, actor.id);
      if Registered(View().ledger, pool, actor.id) {
        StepKeepsInv(View(), Lease(uid, actor.id));
      }
      hide Structured, SlotsUnique, QuarantineHeld, Reap, ReapOne;
      uidActors := uidActors[uid := actor.id];
      ok := true;
    }

    method UnleaseUID(uid: Int64, actor: Ref)
      requires Valid()
      modifies this`uidActors
      ensures View() ==
        if uid > 0 && (actor == Nil || old(LeaseOf(uid)) == actor) then Step(old(View()), Unlease(uid)) else old(View())
      ensures Valid()
    {
      StepKeepsInv(View(), Unlease(uid));
      hide Inv, Reap, ReapOne;
      if uid <= 0 {
        return;
      }
      if actor == Nil || LeaseOf(uid) == actor || LeaseOf(uid) == Nil {
        uidActors := uidActors - {uid};
      }
    }

    method RemoveLeaseIfActor(uid: Int64, actor: Ref)
      requires Valid()
      modifies this`uidActors
      ensures View() == if old(LeaseOf(uid)) == actor then Step(old(View()), Unlease(uid)) else old(View())
      ensures Valid()
    {
      StepKeepsInv(View(), Unlease(uid));
      hide Inv, Reap, ReapOne;
      if LeaseOf(uid) == actor {
        uidActors := uidActors - {uid};
      }
    }

    /** nextSlotLocked, NewActor and the entry in the slot map. */
    method NewSlot(mode: A.Mode) returns (id: nat)
      requires Valid()
      modifies this`actors, this`nextSlotID, this`pool
      ensures id == |old(pool)| && View() == Step(old(View()), Create(mode))
      ensures Valid()
    {
      StepKeepsInv(View(), Create(mode));
      hide Inv, Reap, ReapOne;
      id := |pool|;
      nextSlotID := nextSlotID + 1;
      pool := pool + [A.NewActor(nextSlotID, mode)];
      actors := actors[nextSlotID := id];
    }

    /** A lease for the UID: the actor that has it, or a new manual actor in the next slot. */
    method ReserveManualActor(uid: Int64, hasRuntime: bool) returns (actor: Ref, existing: bool, ok: bool)
      requires Valid()
      modifies this
      ensures ok <==> uid > 0 && hasRuntime && uid !in old(blockedUID)
      ensures existing <==> ok && uid in old(uidActors)
      ensures actor == if !ok then Nil else if existing then To(old(uidActors[uid])) else To(|old(pool)|)
      ensures View() ==
        if ok && !existing then Step(Step(old(View()), Create(A.Manual)), Lease(uid, |old(pool)|)) else old(View())
      ensures Valid()
    {
      if uid <= 0 || !hasRuntime || uid in blockedUID {
        return Nil, false, false;
      }
      if uid in uidActors {
        return To(uidActors[uid]), true, true;
      }
      var id := NewSlot(A.Manual);
      StepKeepsInv(View(), Lease(uid, id));
      hide Inv, Reap, ReapOne;
      uidActors := uidActors[uid := id];
      return To(id), false, true;
    }

    /** An idle auto actor that is not draining: the first one the map range comes to. */
    method FindEmptyAuto() returns (actor: Ref)
      requires Valid()
      ensures actor.To? <==> exists slot ::
        && slot in actors && !Drains(slot, actors[slot])
        && actors[slot] < |pool| && pool[actors[slot]].mode == A.Auto && pool[actors[slot]].uid <= 0
      ensures actor.To? ==>
        && actor.id < |pool| && !Drains(pool[actor.id].slot, actor.id)
        && pool[actor.id].mode == A.Auto && pool[actor.id].uid <= 0
        && pool[actor.id].slot in actors && actors[pool[actor.id].slot] == actor.id
    {
      RegisteredBySlot(View());
      hide Inv;
      var todo := actors.Keys;
      while todo != {}
        invariant todo <= actors.Keys
        invariant forall slot :: slot in actors && slot !in todo ==>
          Drains(slot, actors[slot]) || pool[actors[slot]].mode != A.Auto || pool[actors[slot]].uid > 0
        decreases todo
      {
        var slot := Choose(todo);
        todo := todo - {slot};
        var candidate := actors[slot];
        if !Drains(slot, candidate) && pool[candidate].mode == A.Auto && pool[candidate].uid <= 0 {
          return To(candidate);
        }
      }
      actor := Nil;
    }

    /** A lease for the UID on some idle auto actor that is not draining, if there is one. */
    method ReserveEmptyAutoActor(uid: Int64) returns (actor: Ref, existing: bool, ok: bool)
      requires Valid()
      modifies this`uidActors
      ensures existing <==> uid > 0 && uid !in blockedUID && uid in old(uidActors)
      ensures existing ==> ok && actor == To(old(uidActors[uid])) && View() == old(View())
      ensures !existing ==>
        (ok <==>
          && uid > 0 && uid !in blockedUID && uid !in old(uidActors)
          && exists slot ::
            && slot in actors && !Drains(slot, actors[slot])
            && actors[slot] < |pool| && pool[actors[slot]].mode == A.Auto && pool[actors[slot]].uid <= 0)
      ensures ok && !existing ==>
        && actor.To? && actor.id < |pool| && !Drains(pool[actor.id].slot, actor.id)
        && pool[actor.id].mode == A.Auto && pool[actor.id].uid <= 0
        && pool[actor.id].slot in actors && actors[pool[actor.id].slot] == actor.id
        && View() == Step(old(View()), Lease(uid, actor.id))
      ensures !ok ==> actor == Nil && View() == old(View())
      ensures Valid()
    {
      if uid <= 0 || uid in blockedUID {
        return Nil, false, false;
      }
      if uid in uidActors {
        return To(uidActors[uid]), true, true;
      }
      var candidate := FindEmptyAuto();
      if candidate == Nil {
        return Nil, false, false;
      }
      StepKeepsInv(View(), Lease(uid, candidate.id));
      hide Inv, Reap, ReapOne;
      uidActors := uidActors[uid := candidate.id];
      return candidate, false, true;
    }

    // ----- scaling -----

    /** Mark the n actors that stop first as draining: the loop at the end of both scaling operations. */
    method DrainLowest(status: StatusMap, candidates: seq<Candidate>, n: nat) returns (chosen: seq<Candidate>)
      requires Valid() && n <= |candidates|
      requires Distinct(candidates) && Elements(candidates) == AutoCandidates(View())
      modifies this`draining
      ensures View() == DrainMany(old(View()), chosen)
      ensures |chosen| == |Elements(chosen)| == n
      ensures LowestPart(status, Elements(chosen), AutoCandidates(old(View())))
      ensures Elements(chosen) <= AutoCandidates(old(View()))
      ensures AutoCandidates(View()) == AutoCandidates(old(View())) - Elements(chosen)
      ensures ClassesRespected(status, Elements(chosen), AutoCandidates(View()))
      ensures Valid()
    {
      CandidatesProper(View());
      hide StopsBefore, Reap, ReapOne;
      var sorted := SortForStop(candidates, status);
      PrefixIsLowest(status, sorted, n);
      chosen := sorted[..n];
      DrainManyKeepsInv(View(), chosen);
      CandidatesAfterDrain(View(), chosen);
      LowestRespectsClasses(status, Elements(chosen), AutoCandidates(View()));
      hide Inv, LowestPart, Elements, AutoCandidates, DrainMany, ClassesRespected;
      draining := MarkDraining(draining, chosen, View());
    }

    /** Under pressure: drain up to limit auto actors, those that matter least first, but leave floor. */
    method BeginDrainSomeAutoActors(status: StatusMap, limit: Int64, floor: Int64) returns (chosen: seq<Candidate>)
      requires Valid()
      modifies this`draining
      ensures View() == DrainMany(old(View()), chosen)
      ensures LowestPart(status, Elements(chosen), AutoCandidates(old(View())))
      ensures |chosen| == |Elements(chosen)| == Max(0, Min(limit, |AutoCandidates(old(View()))| - Max(floor, 0)))
      ensures AutoCandidates(View()) == AutoCandidates(old(View())) - Elements(chosen)
      ensures |AutoCandidates(View())| >= Min(floor, |AutoCandidates(old(View()))|)
      ensures ClassesRespected(status, Elements(chosen), AutoCandidates(View()))
      ensures Valid()
    {
      chosen := [];
      ChooseNone(View(), status);
      InvMeans(View());
      hide Inv, AutoCandidates, LowestPart, DrainMany, Elements, ClassesRespected;
      if limit <= 0 {
        return;
      }
      var candidates := CollectCandidates(actors, draining, pool, View());
      DistinctSize(candidates);
      var least := if floor < 0 then 0 else floor;
      if |candidates| <= least {
        return;
      }
      var n: nat := if limit > |candidates| - least then |candidates| - least else limit;
      chosen := DrainLowest(status, candidates, n);
    }

    /** Create n auto actors. */
    method Grow(n: nat)
      requires Valid()
      modifies this`actors, this`nextSlotID, this`pool
      ensures View() == CreateMany(old(View()), n)
      ensures Valid()
    {
      hide Inv, Step;
      var i := 0;
      while i < n
        invariant 0 <= i <= n
        invariant View() == CreateMany(old(View()), i)
        invariant Valid()
      {
        var _ := NewSlot(A.Auto);
        i := i + 1;
      }
    }

    /** Create missing auto actors, or drain surplus ones. */
    method EnsureAutoActorSlots(wanted: Int64, pendingLimit: Int64, scaleUpBatch: nat, status: StatusMap)
      returns (added: nat, chosen: seq<Candidate>)
      requires Valid()
      modifies this
      ensures var s, target := Step(old(View()), ReapAll(false)), Max(wanted, 0);
        var current := |AutoSlots(s)|;
        && added == (if |PendingSlots(s)| >= pendingLimit then 0 else Min(Max(target - current, 0), scaleUpBatch))
        && (current <= target ==> View() == CreateMany(s, added) && chosen == [] && |AutoSlots(View())| <= target)
        && (current > target ==>
            && added == 0 && View() == DrainMany(s, chosen)
            && LowestPart(status, Elements(chosen), AutoCandidates(s))
            && ClassesRespected(status, Elements(chosen), AutoCandidates(View()))
            && |chosen| == |Elements(chosen)| == Min(ScaleDownBatch(current, target), |AutoCandidates(s)|))
      ensures Valid()
    {
      var target: nat := if wanted < 0 then 0 else wanted;
      ReapDoneActors(false);
      ghost var s := View();
      InvMeans(s);
      hide Inv, AutoSlots, PendingSlots, AutoCandidates, Step, CreateMany, LowestPart, ClassesRespected;
      var current, pending := CountAuto(actors, draining, pool, View());
      added := if target > current then target - current else 0;
      if pending >= pendingLimit {
        added := 0;
      }
      if added > scaleUpBatch {
        added := scaleUpBatch;
      }
      chosen := [];
      Grow(added);
      CreateCounts(s, added);
      if current + added <= target {
        return;
      }
      CreateNone(s);
      var candidates := CollectCandidates(actors, draining, pool, View());
      DistinctSize(candidates);
      var n := ScaleDownBatch(current, target);
      if n > |candidates| {
        n := |candidates|;
      }
      chosen := DrainLowest(status, candidates, n);
    }

    // ----- reaping -----

    /** reapDoneActorsLocked. */
    method ReapDoneActors(includeUnexpected: bool)
      requires Valid()
      modifies this`actors, this`uidActors, this`draining, this`blockedUID, this`quarantine
      ensures View() == Step(old(View()), ReapAll(includeUnexpected))
      ensures Valid()
    {
      hide Step, Inv, Reap;
      StepKeepsInv(View(), ReapAll(includeUnexpected));
      ReapAllIs(View(), includeUnexpected);
      InvMeans(View());
      ReapKeepsSlots(View().ledger, pool, includeUnexpected);
      actors, draining, uidActors, blockedUID, quarantine :=
        ScanAll(actors, draining, uidActors, blockedUID, quarantine, pool, includeUnexpected, View().ledger);
    }

    /** One actor that has been stopped: reaped if it is draining and has finished. */
    method ReapActor(actor: nat) returns (gone: bool)
      requires Valid() && actor < |pool|
      modifies this`actors, this`uidActors, this`draining, this`blockedUID, this`quarantine
      ensures gone == pool[actor].done
      ensures View() == Step(old(View()), Op.ReapActor(actor))
      ensures Valid()
    {
      StepKeepsInv(View(), Op.ReapActor(actor));
      hide Inv, Reap, ReapOne;
      if !pool[actor].done {
        return false;
      }
      var slot := pool[actor].slot;
      if !Drains(slot, actor) {
        return true;
      }
      draining := draining - {slot};
      if slot in actors && actors[slot] == actor {
        actors := actors - {slot};
      }
      uidActors, blockedUID, quarantine :=
        ForgetLeases(uidActors, blockedUID, quarantine, actor, pool[actor].quarantined);
      gone := true;
    }
  }

  /** The lease loop of reapActorLocked. */
  method ForgetLeases(leases: map<Int64, nat>, blocked: set<Int64>, quarantine: set<Int64>, actor: nat,
        quarantined: bool)
    returns (left: map<Int64, nat>, nowBlocked: set<Int64>, nowQuarantined: set<Int64>)
    ensures var mine := set uid | uid in leases && leases[uid] == actor;
      && left == leases - mine
      && nowBlocked == (if quarantined then blocked + mine else blocked - mine)
      && nowQuarantined == (if quarantined then quarantine + mine else quarantine)
  {
    ghost var mine := set uid | uid in leases && leases[uid] == actor;
    left, nowBlocked, nowQuarantined := leases, blocked, quarantine;
    var todo := leases.Keys;
    while todo != {}
      invariant todo <= leases.Keys
      invariant left == leases - (mine - todo)
      invariant nowBlocked == if quarantined then blocked + (mine - todo) else blocked - (mine - todo)
      invariant nowQuarantined == if quarantined then quarantine + (mine - todo) else quarantine
      decreases todo
    {
      var uid := Choose(todo);
      assert uid in mine <==> left[uid] == actor;
      if left[uid] == actor {
        left := left - {uid};
        if quarantined {
          nowBlocked := nowBlocked + {uid};
          nowQuarantined := nowQuarantined + {uid};
        } else {
          nowBlocked := nowBlocked - {uid};
        }
      }
      todo := todo - {uid};
    }
    assert mine - todo == mine;
  }

  // ----- the three scans of a reap -----

  /** The outcome of the first scan: crashed actors are out of their slots, and known dead. */
  ghost predicate ActorsScanned(l: LedgerModel.Ledger, pool: Pool, unexpected: bool, actors: map<nat, nat>,
        dead: map<nat, bool>) {
    && actors == (map slot | slot in l.actors && !(unexpected && CrashedSlot(l, pool, slot)) :: l.actors[slot])
    && (forall id :: id in dead <==> unexpected && Crashed(l, pool, id))
    && (forall id :: id in dead ==> dead[id])
  }

  lemma ReapKeepsSlots(l: LedgerModel.Ledger, pool: Pool, unexpected: bool)
    ensures Reap(l, pool, unexpected).nextSlot == l.nextSlot
  {
  }

  /** The three loops of reapDoneActorsLocked. */
  method ScanAll(actors: map<nat, nat>, draining: map<nat, nat>, leases: map<Int64, nat>, blocked: set<Int64>,
        quarantine: set<Int64>, pool: Pool, unexpected: bool, ghost l: LedgerModel.Ledger)
    returns (leftActors: map<nat, nat>, leftDraining: map<nat, nat>, leftLeases: map<Int64, nat>,
          nowBlocked: set<Int64>, nowQuarantined: set<Int64>)
    requires l.actors == actors && l.draining == draining && l.leases == leases && l.blocked == blocked
    requires l.quarantine == quarantine
    requires forall slot :: slot in actors ==> actors[slot] < |pool|
    requires forall slot :: slot in draining ==> draining[slot] < |pool|
    ensures var r := Reap(l, pool, unexpected);
      && r.actors == leftActors && r.draining == leftDraining && r.leases == leftLeases
      && r.blocked == nowBlocked && r.quarantine == nowQuarantined
  {
    hide ActorsScanned, DrainingScanned, DeadKnown, Reap;
    var dead: map<nat, bool> := map[];
    leftActors := actors;
    if unexpected {
      leftActors, dead := ScanActors(actors, draining, pool, l);
    } else {
      NoScanNeeded(l, pool);
    }
    leftDraining, leftActors, dead := ScanDraining(draining, leftActors, pool, dead, l, unexpected);
    ScannedIsReap(l, pool, unexpected, leftDraining, leftActors, dead);
    leftLeases, nowBlocked, nowQuarantined := ScanLeases(leases, blocked, quarantine, pool, dead, l, unexpected);
  }

  lemma NoScanNeeded(l: LedgerModel.Ledger, pool: Pool)
    ensures ActorsScanned(l, pool, false, l.actors, map[])
  {
  }

  method ScanActors(actors: map<nat, nat>, draining: map<nat, nat>, pool: Pool, ghost l: LedgerModel.Ledger)
    returns (left: map<nat, nat>, dead: map<nat, bool>)
    requires l.actors == actors && l.draining == draining
    requires forall slot :: slot in actors ==> actors[slot] < |pool|
    ensures ActorsScanned(l, pool, true, left, dead)
  {
    left, dead := actors, map[];
    var todo := actors.Keys;
    while todo != {}
      invariant todo <= actors.Keys
      invariant forall slot :: slot in left <==> slot in actors && (slot in todo || !CrashedSlot(l, pool, slot))
      invariant forall slot :: slot in left ==> left[slot] == actors[slot]
      invariant forall id :: id in dead ==> dead[id] && Crashed(l, pool, id)
      invariant forall slot :: slot in actors && slot !in todo && CrashedSlot(l, pool, slot) ==> actors[slot] in dead
      decreases todo
    {
      var slot := Choose(todo);
      todo := todo - {slot};
      var actor := actors[slot];
      if !(slot in draining && draining[slot] == actor) && pool[actor].done {
        assert CrashedSlot(l, pool, slot);
        left := left - {slot};
        dead := dead[actor := true];
      }
    }
  }

  /** The outcome of the second scan: drained actors are gone too; the flag says whether leases stay blocked. */
  ghost predicate DrainingScanned(l: LedgerModel.Ledger, pool: Pool, unexpected: bool, draining: map<nat, nat>,
        actors: map<nat, nat>, dead: map<nat, bool>) {
    && draining == (map slot | slot in l.draining && !DrainedSlot(l, pool, slot) :: l.draining[slot])
    && actors == (map slot | slot in l.actors && !EmptiedSlot(l, pool, unexpected, slot) :: l.actors[slot])
    && DeadKnown(l, pool, unexpected, dead)
  }

  ghost predicate DeadKnown(l: LedgerModel.Ledger, pool: Pool, unexpected: bool, dead: map<nat, bool>) {
    && (forall id :: id in dead <==> Dead(l, pool, unexpected, id))
    && (forall id :: id in dead ==> id < |pool| && dead[id] == (Drained(l, pool, id) ==> pool[id].quarantined))
  }

  method ScanDraining(draining: map<nat, nat>, actors: map<nat, nat>, pool: Pool, dead: map<nat, bool>,
                      ghost l: LedgerModel.Ledger, ghost unexpected: bool)
    returns (left: map<nat, nat>, leftActors: map<nat, nat>, allDead: map<nat, bool>)
    requires ActorsScanned(l, pool, unexpected, actors, dead) && l.draining == draining
    requires forall slot :: slot in draining ==> draining[slot] < |pool|
    ensures DrainingScanned(l, pool, unexpected, left, leftActors, allDead) && DeadKnown(l, pool, unexpected, allDead)
  {
    left, leftActors, allDead := draining, actors, dead;
    var todo := draining.Keys;
    assert DeadScanned(l, pool, todo, dead, allDead);
    assert SlotsScanned(l, pool, todo, actors, left, leftActors);
    hide DeadScanned, SlotsScanned, ActorsScanned;
    while todo != {}
      invariant todo <= draining.Keys
      invariant SlotsScanned(l, pool, todo, actors, left, leftActors)
      invariant DeadScanned(l, pool, todo, dead, allDead)
      decreases todo
    {
      var slot := Choose(todo);
      DeadStep(l, pool, todo, dead, allDead, slot);
      SlotStep(l, pool, todo, actors, left, leftActors, slot);
      todo := todo - {slot};
      var actor := draining[slot];
      if pool[actor].done {
        left := left - {slot};
        if slot in leftActors && leftActors[slot] == actor {
          leftActors := leftActors - {slot};
        }
        allDead := allDead[actor := pool[actor].quarantined];
      }
    }
    AllScanned(l, pool, unexpected, actors, dead, left, leftActors, allDead);
  }

  /** After a scan of the draining slots outside todo: the entries that are left. */
  ghost predicate SlotsScanned(l: LedgerModel.Ledger, pool: Pool, todo: set<nat>, actors: map<nat, nat>,
        left: map<nat, nat>, leftActors: map<nat, nat>) {
    && left == (map slot | slot in l.draining && (slot in todo || !DrainedSlot(l, pool, slot)) :: l.draining[slot])
    && leftActors == (map slot | slot in actors
         && !(slot !in todo && DrainedSlot(l, pool, slot) && l.draining[slot] == actors[slot]) :: actors[slot])
  }

  lemma SlotStep(l: LedgerModel.Ledger, pool: Pool, todo: set<nat>, actors: map<nat, nat>, left: map<nat, nat>,
        leftActors: map<nat, nat>, slot: nat)
    requires SlotsScanned(l, pool, todo, actors, left, leftActors) && slot in todo && slot in l.draining
    ensures var gone := Done(pool, l.draining[slot]);
      SlotsScanned(l, pool, todo - {slot}, actors,
        if gone then left - {slot} else left,
        if gone && slot in leftActors && leftActors[slot] == l.draining[slot] then leftActors - {slot} else leftActors)
  {
  }

  lemma AllScanned(l: LedgerModel.Ledger, pool: Pool, unexpected: bool, actors: map<nat, nat>, dead: map<nat, bool>,
                   left: map<nat, nat>, leftActors: map<nat, nat>, allDead: map<nat, bool>)
    requires ActorsScanned(l, pool, unexpected, actors, dead)
    requires SlotsScanned(l, pool, {}, actors, left, leftActors) && DeadScanned(l, pool, {}, dead, allDead)
    ensures DrainingScanned(l, pool, unexpected, left, leftActors, allDead) && DeadKnown(l, pool, unexpected, allDead)
  {
    AllDeadKnown(l, pool, unexpected, dead, allDead);
  }

  /** After a scan of the draining slots outside todo: who is dead, and whose leases stay blocked. */
  ghost predicate DeadScanned(l: LedgerModel.Ledger, pool: Pool, todo: set<nat>, dead: map<nat, bool>,
        allDead: map<nat, bool>) {
    && (forall id :: id in dead ==> id in allDead)
    && (forall id :: id in allDead ==> id < |pool| && (id in dead || Drained(l, pool, id)))
    && (forall slot :: slot !in todo && DrainedSlot(l, pool, slot) ==>
          l.draining[slot] in allDead && allDead[l.draining[slot]] == pool[l.draining[slot]].quarantined)
    && (forall id :: id in allDead && !Drained(l, pool, id) ==> allDead[id])
  }

  lemma DeadStep(l: LedgerModel.Ledger, pool: Pool, todo: set<nat>, dead: map<nat, bool>, allDead: map<nat, bool>,
        slot: nat)
    requires DeadScanned(l, pool, todo, dead, allDead) && slot in l.draining && l.draining[slot] < |pool|
    ensures DeadScanned(l, pool, todo - {slot}, dead,
              if Done(pool, l.draining[slot]) then allDead[l.draining[slot] := pool[l.draining[slot]].quarantined]
              else allDead)
  {
    if DrainedSlot(l, pool, slot) { assert Drained(l, pool, l.draining[slot]); }
  }

  lemma AllDeadKnown(l: LedgerModel.Ledger, pool: Pool, unexpected: bool, dead: map<nat, bool>, allDead: map<nat, bool>)
    requires DeadScanned(l, pool, {}, dead, allDead)
    requires forall id :: id in dead <==> unexpected && Crashed(l, pool, id)
    ensures forall id :: id in allDead <==> Dead(l, pool, unexpected, id)
    ensures forall id :: id in allDead ==> id < |pool| && allDead[id] == (Drained(l, pool, id) ==> pool[id].quarantined)
  {
  }

  method ScanLeases(leases: map<Int64, nat>, blocked: set<Int64>, quarantine: set<Int64>, pool: Pool,
        dead: map<nat, bool>, ghost l: LedgerModel.Ledger, ghost unexpected: bool)
    returns (left: map<Int64, nat>, nowBlocked: set<Int64>, nowQuarantined: set<Int64>)
    requires l.leases == leases && l.blocked == blocked && l.quarantine == quarantine
    requires DeadKnown(l, pool, unexpected, dead)
    ensures left == Reap(l, pool, unexpected).leases
    ensures nowBlocked == Reap(l, pool, unexpected).blocked
    ensures nowQuarantined == Reap(l, pool, unexpected).quarantine
  {
    ghost var condemned, dying := CondemnedUids(l, pool, unexpected), DyingLeases(l, pool, unexpected);
    left, nowBlocked, nowQuarantined := leases, blocked, quarantine;
    var todo := leases.Keys;
    assert condemned <= dying <= todo;
    while todo != {}
      invariant todo <= leases.Keys
      invariant left == leases - (dying - todo)
      invariant nowBlocked == blocked - (dying - condemned - todo) + (condemned - todo)
      invariant nowQuarantined == quarantine + (condemned - todo)
      decreases todo
    {
      var uid := Choose(todo);
      var leased := left[uid];
      assert uid in dying <==> leased in dead;
      assert uid in condemned <==> leased in dead && uid > 0 && dead[leased];
      if leased in dead {
        left := left - {uid};
        if dead[leased] && uid > 0 {
          nowBlocked := nowBlocked + {uid};
          nowQuarantined := nowQuarantined + {uid};
        } else {
          nowBlocked := nowBlocked - {uid};
        }
      }
      todo := todo - {uid};
    }
    assert dying - todo == dying && condemned - todo == condemned && dying - condemned - todo == dying - condemned;
  }

  lemma ScannedIsReap(l: LedgerModel.Ledger, pool: Pool, unexpected: bool, draining: map<nat, nat>,
        actors: map<nat, nat>, dead: map<nat, bool>)
    requires DrainingScanned(l, pool, unexpected, draining, actors, dead)
    ensures Reap(l, pool, unexpected).actors == actors && Reap(l, pool, unexpected).draining == draining
    ensures DeadKnown(l, pool, unexpected, dead)
  {
    hide DeadKnown;
  }

  // ----- scaling: counts and candidates -----

  function Max(a: int, b: int): int { if a > b then a else b }

  function Min(a: int, b: int): int { if a < b then a else b }

  /** SnapshotSchedulerPending. */
  predicate SchedulerPending(a: A.ActorState) {
    a.uid <= 0 || a.state !in {A.Running, A.Busy}
  }

  /** ScaleDownBatch of internal/capability/robotconfig/scheduler_policy.go. */
  function ScaleDownBatch(current: nat, target: nat): (n: nat)
    ensures n == 0 <==> current <= target
    ensures current > target ==> n <= current - target && n <= 50 && (n >= 5 || n == current - target)
    ensures current > target ==> n <= 5 || 25 * (n - 1) < current
    ensures current > target && n < current - target ==> n == 50 || current <= 25 * n
  {
    if current <= target then 0 else
    var share := current / 25 + (if current % 25 != 0 then 1 else 0);
    var batch := if share < 5 then 5 else if share > 50 then 50 else share;
    if batch > current - target then current - target else batch
  }

  /** The slot of an auto actor. */
  predicate IsAuto(s: System, slot: nat) {
    slot in s.ledger.actors && s.ledger.actors[slot] < |s.pool| && s.pool[s.ledger.actors[slot]].mode == A.Auto
  }

  predicate IsCandidate(s: System, slot: nat) {
    IsAuto(s, slot) && !(slot in s.ledger.draining && s.ledger.draining[slot] == s.ledger.actors[slot])
  }

  predicate IsPending(s: System, slot: nat) {
    IsCandidate(s, slot) && SchedulerPending(s.pool[s.ledger.actors[slot]])
  }

  ghost function AutoIn(s: System, slots: set<nat>): set<nat> {
    set slot | slot in slots && IsAuto(s, slot)
  }

  ghost function PendingIn(s: System, slots: set<nat>): set<nat> {
    set slot | slot in slots && IsPending(s, slot)
  }

  ghost function AutoSlots(s: System): set<nat> { AutoIn(s, s.ledger.actors.Keys) }

  ghost function PendingSlots(s: System): set<nat> { PendingIn(s, s.ledger.actors.Keys) }

  function CandidateAt(s: System, slot: nat): Candidate
    requires IsAuto(s, slot)
  {
    Candidate(s.ledger.actors[slot], s.pool[s.ledger.actors[slot]].uid, slot)
  }

  /** The auto actors in these slots that are not draining. */
  ghost function CandidatesIn(s: System, slots: set<nat>): set<Candidate> {
    set slot | slot in slots && IsCandidate(s, slot) :: CandidateAt(s, slot)
  }

  ghost function AutoCandidates(s: System): set<Candidate> {
    CandidatesIn(s, s.ledger.actors.Keys)
  }

  /** Which actors count for scaling, as pending, and as candidates for draining. */
  lemma WhoCounts(s: System, c: Candidate)
    requires Inv(s)
    ensures c.slot in AutoSlots(s) <==>
      c.slot in s.ledger.actors && s.pool[s.ledger.actors[c.slot]].mode == A.Auto
    ensures c in AutoCandidates(s) <==>
      && c.slot in s.ledger.actors && s.ledger.actors[c.slot] == c.id && c.slot !in s.ledger.draining
      && s.pool[c.id].mode == A.Auto && s.pool[c.id].uid == c.uid
    ensures c in AutoCandidates(s) ==>
      (c.slot in PendingSlots(s) <==> c.uid <= 0 || (s.pool[c.id].state != A.Running && s.pool[c.id].state != A.Busy))
    ensures c.slot in PendingSlots(s) ==> c.slot in AutoSlots(s) && c.slot !in s.ledger.draining
  {
    assert c in AutoCandidates(s) <==> IsCandidate(s, c.slot) && CandidateAt(s, c.slot) == c;
  }

  lemma CountStep(s: System, slots: set<nat>, slot: nat)
    requires slot !in slots
    ensures |AutoIn(s, slots + {slot})| == |AutoIn(s, slots)| + (if IsAuto(s, slot) then 1 else 0)
  {
    assert AutoIn(s, slots + {slot}) == AutoIn(s, slots) + (if IsAuto(s, slot) then {slot} else {});
  }

  lemma PendingStep(s: System, slots: set<nat>, slot: nat)
    requires slot !in slots
    ensures |PendingIn(s, slots + {slot})| == |PendingIn(s, slots)| + (if IsPending(s, slot) then 1 else 0)
  {
    assert PendingIn(s, slots + {slot}) == PendingIn(s, slots) + (if IsPending(s, slot) then {slot} else {});
  }

  /** How many auto actors are registered, and how many of them are about to come online. */
  method CountAuto(actors: map<nat, nat>, draining: map<nat, nat>, pool: Pool, ghost s: System)
    returns (current: nat, pending: nat)
    requires s.ledger.actors == actors && s.ledger.draining == draining && s.pool == pool
    requires forall slot :: slot in actors ==> actors[slot] < |pool|
    ensures current == |AutoSlots(s)| && pending == |PendingSlots(s)|
  {
    current, pending := 0, 0;
    var todo := actors.Keys;
    ghost var visited := {};
    while todo != {}
      invariant todo <= actors.Keys && visited == actors.Keys - todo
      invariant current == |AutoIn(s, visited)| && pending == |PendingIn(s, visited)|
      decreases todo
    {
      var slot := Choose(todo);
      CountStep(s, visited, slot);
      PendingStep(s, visited, slot);
      hide AutoIn, PendingIn;
      var actor := actors[slot];
      if pool[actor].mode == A.Auto {
        current := current + 1;
        if !(slot in draining && draining[slot] == actor) && SchedulerPending(pool[actor]) {
          pending := pending + 1;
        }
      }
      todo := todo - {slot};
      visited := visited + {slot};
    }
    assert visited == actors.Keys;
  }

  lemma CandidateStep(s: System, slots: set<nat>, slot: nat)
    ensures CandidatesIn(s, slots + {slot}) ==
      CandidatesIn(s, slots) + (if IsCandidate(s, slot) then {CandidateAt(s, slot)} else {})
  {
  }

  /** The auto actors that are not draining, in any order. */
  method CollectCandidates(actors: map<nat, nat>, draining: map<nat, nat>, pool: Pool, ghost s: System)
    returns (cs: seq<Candidate>)
    requires s.ledger.actors == actors && s.ledger.draining == draining && s.pool == pool
    requires forall slot :: slot in actors ==> actors[slot] < |pool|
    ensures Distinct(cs) && Elements(cs) == AutoCandidates(s)
  {
    cs := [];
    var todo := actors.Keys;
    ghost var visited := {};
    assert CandidatesIn(s, {}) == {};
    while todo != {}
      invariant todo <= actors.Keys && visited == actors.Keys - todo
      invariant Distinct(cs) && Elements(cs) == CandidatesIn(s, visited)
      invariant forall i :: 0 <= i < |cs| ==> cs[i].slot !in todo
      decreases todo
    {
      var slot := Choose(todo);
      CandidateStep(s, visited, slot);
      hide CandidatesIn;
      var actor := actors[slot];
      if pool[actor].mode == A.Auto && !(slot in draining && draining[slot] == actor) {
        var c := Candidate(actor, pool[actor].uid, slot);
        ElementsAppend(cs, c);
        cs := cs + [c];
      }
      todo := todo - {slot};
      visited := visited + {slot};
    }
    assert visited == actors.Keys;
  }

  lemma ElementsAppend(cs: seq<Candidate>, c: Candidate)
    ensures Elements(cs + [c]) == Elements(cs) + {c}
  {
  }

  lemma CandidatesProper(s: System)
    requires Inv(s)
    ensures Proper(AutoCandidates(s))
  {
  }

  /** Mark the chosen actors. */
  method MarkDraining(draining: map<nat, nat>, cs: seq<Candidate>, ghost s: System) returns (now: map<nat, nat>)
    requires s.ledger.draining == draining
    ensures DrainMany(s, cs) == s.(ledger := s.ledger.(draining := now))
  {
    now := draining;
    var i := 0;
    while i < |cs|
      invariant 0 <= i <= |cs|
      invariant DrainMany(s, cs[..i]) == s.(ledger := s.ledger.(draining := now))
    {
      assert cs[..i + 1][..i] == cs[..i];
      now := now[cs[i].slot := cs[i].id];
      i := i + 1;
    }
    assert cs[..i] == cs;
  }

  lemma CandidateIsActor(s: System, c: Candidate)
    requires c in AutoCandidates(s) && Inv(s)
    ensures Registered(s.ledger, s.pool, c.id) && s.pool[c.id].slot == c.slot
    ensures IsAuto(s, c.slot) && CandidateAt(s, c.slot) == c
  {
  }

  lemma {:induction false} DrainManyKeepsInv(s: System, cs: seq<Candidate>)
    requires Inv(s) && Elements(cs) <= AutoCandidates(s)
    ensures var t := DrainMany(s, cs); Inv(t) && t == s.(ledger := s.ledger.(draining := t.ledger.draining))
  {
    if cs != [] {
      var rest, c := cs[..|cs| - 1], cs[|cs| - 1];
      assert c in Elements(cs) && Elements(rest) <= Elements(cs);
      DrainManyKeepsInv(s, rest);
      CandidateIsActor(s, c);
      DrainOne(s, DrainMany(s, rest), c);
      hide AutoCandidates, Elements, Inv;
    }
  }

  lemma DrainOne(s: System, t: System, c: Candidate)
    requires Inv(t) && t == s.(ledger := s.ledger.(draining := t.ledger.draining))
    requires Registered(s.ledger, s.pool, c.id) && s.pool[c.id].slot == c.slot
    ensures Enabled(t, BeginDrain(c.id))
    ensures var u := t.(ledger := t.ledger.(draining := t.ledger.draining[c.slot := c.id]));
      u == Step(t, BeginDrain(c.id)) && Inv(u)
  {
    StepKeepsInv(t, BeginDrain(c.id));
    hide Inv, Reap, ReapOne;
  }

  /** Draining a list of candidates is a BeginDrain step for each of them. */
  lemma DrainManyIsSteps(s: System, cs: seq<Candidate>)
    requires Inv(s) && Elements(cs) <= AutoCandidates(s) && cs != []
    ensures var t, c := DrainMany(s, cs[..|cs| - 1]), cs[|cs| - 1];
      Enabled(t, BeginDrain(c.id)) && DrainMany(s, cs) == Step(t, BeginDrain(c.id))
  {
    var rest, c := cs[..|cs| - 1], cs[|cs| - 1];
    assert c in Elements(cs) && Elements(rest) <= Elements(cs);
    DrainManyKeepsInv(s, rest);
    CandidateIsActor(s, c);
    DrainOne(s, DrainMany(s, rest), c);
    hide AutoCandidates, Elements, Inv, Reap, ReapOne;
  }

  lemma {:induction false} CandidatesAfterDrain(s: System, cs: seq<Candidate>)
    requires Inv(s) && Elements(cs) <= AutoCandidates(s)
    ensures AutoCandidates(DrainMany(s, cs)) == AutoCandidates(s) - Elements(cs)
  {
    if cs != [] {
      var rest, c := cs[..|cs| - 1], cs[|cs| - 1];
      assert Elements(cs) == Elements(rest) + {c};
      CandidatesAfterDrain(s, rest);
      DrainManyKeepsInv(s, rest);
      CandidateIsActor(s, c);
      hide Elements, AutoCandidates, Inv;
      CandidatesAfterOne(DrainMany(s, rest), c);
    }
  }

  lemma CandidatesAfterOne(s: System, c: Candidate)
    requires Registered(s.ledger, s.pool, c.id) && s.pool[c.id].slot == c.slot
    requires IsAuto(s, c.slot) && CandidateAt(s, c.slot) == c
    ensures AutoCandidates(s.(ledger := s.ledger.(draining := s.ledger.draining[c.slot := c.id]))) ==
      AutoCandidates(s) - {c}
  {
    var t := s.(ledger := s.ledger.(draining := s.ledger.draining[c.slot := c.id]));
    assert forall slot :: IsCandidate(t, slot) <==> IsCandidate(s, slot) && slot != c.slot;
    assert forall slot :: IsAuto(s, slot) ==> CandidateAt(t, slot) == CandidateAt(s, slot);
  }

  lemma ChooseNone(s: System, status: StatusMap)
    ensures DrainMany(s, []) == s && Elements([]) == {} && LowestPart(status, Elements([]), AutoCandidates(s))
    ensures ClassesRespected(status, Elements([]), AutoCandidates(s))
  {
  }

  lemma CreateNone(s: System)
    ensures CreateMany(s, 0) == s
  {
  }

  /** Creating n actors adds n auto actors. */
  lemma {:induction false} CreateCounts(s: System, n: nat)
    requires Inv(s)
    ensures Inv(CreateMany(s, n))
    ensures |AutoSlots(CreateMany(s, n))| == |AutoSlots(s)| + n
  {
    if n > 0 {
      CreateCounts(s, n - 1);
      var t := CreateMany(s, n - 1);
      StepKeepsInv(t, Create(A.Auto));
      var slot := t.ledger.nextSlot + 1;
      assert slot !in t.ledger.actors;
      CreateAddsSlot(t);
    }
  }

  lemma CreateAddsSlot(t: System)
    requires Inv(t)
    ensures t.ledger.nextSlot + 1 !in AutoSlots(t)
    ensures AutoSlots(Step(t, Create(A.Auto))) == AutoSlots(t) + {t.ledger.nextSlot + 1}
  {
    CreateIs(t, A.Auto);
    hide Step, QuarantineHeld, UidsNatural;
  }

  lemma RegisteredBySlot(s: System)
    requires Inv(s)
    ensures forall slot :: slot in s.ledger.actors ==>
      s.ledger.actors[slot] < |s.pool| && s.pool[s.ledger.actors[slot]].slot == slot
  {
  }

  lemma InvMeans(s: System)
    requires Inv(s)
    ensures forall slot :: slot in s.ledger.actors ==> s.ledger.actors[slot] < |s.pool|
    ensures forall slot :: slot in s.ledger.draining ==> s.ledger.draining[slot] < |s.pool|
  {
  }
}
