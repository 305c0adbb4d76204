/**
 planCera of internal/capability/marketapp/marketapp_cera_planner.go and pickOwner of
 marketapp_pricing.go: restocking in rounds, one order per row and round, each under the first
 virtual owner that has room.
 */
module CeraPlanner {
  type Id = x: int | 0 <= x < 0x1_0000_0000

  const IDS: int := 0x1_0000_0000

  /** How many orders an owner has; an owner that is not in the map has none. */
  type Occupancy = map<Id, int>

  function OrdersOf(occ: Occupancy, owner: Id): int {
    if owner in occ then occ[owner] else 0
  }

  predicate HasRoom(occ: Occupancy, rotateEvery: int, owner: Id) {
    OrdersOf(occ, owner) < rotateEvery
  }

  /** The owner k steps after the base; a uint32 wraps around. */
  function Nth(base: Id, k: nat): Id { (base + k) % IDS }

  /** The owner is k steps after the base, it has room, and none before it has. */
  ghost predicate PickedAt(occ: Occupancy, rotateEvery: int, base: Id, owner: Id, k: nat) {
    && owner == Nth(base, k) && HasRoom(occ, rotateEvery, owner)
    && forall j: nat :: j < k ==> !HasRoom(occ, rotateEvery, Nth(base, j))
  }

  ghost predicate IsPick(occ: Occupancy, rotateEvery: int, base: Id, owner: Id) {
    exists k: nat :: k < IDS && PickedAt(occ, rotateEvery, base, owner, k)
  }

  function Taken(occ: Occupancy, owner: Id): Occupancy {
    occ[owner := OrdersOf(occ, owner) + 1]
  }

  lemma StepsTo(base: Id, owner: Id) returns (k: nat)
    ensures k < IDS && Nth(base, k) == owner
  {
    k := if owner >= base then owner - base else owner - base + IDS;
  }

  lemma NthStep(base: Id, k: nat)
    requires k < IDS
    ensures Nth(base, k + 1) == if Nth(base, k) == IDS - 1 then 0 else Nth(base, k) + 1
  {
  }

  /** There is an owner to pick exactly when some owner has room. */
  lemma PickExists(occ: Occupancy, rotateEvery: int, base: Id)
    ensures (exists o: Id :: IsPick(occ, rotateEvery, base, o)) <==> (exists o: Id :: HasRoom(occ, rotateEvery, o))
  {
    if o: Id :| HasRoom(occ, rotateEvery, o) {
      var k := StepsTo(base, o);
      var owner := FirstPick(occ, rotateEvery, base, k, 0);
    }
  }

  lemma {:induction false} FirstPick(occ: Occupancy, rotateEvery: int, base: Id, k: nat, from: nat) returns (owner: Id)
    requires from <= k < IDS && HasRoom(occ, rotateEvery, Nth(base, k))
    requires forall j: nat :: j < from ==> !HasRoom(occ, rotateEvery, Nth(base, j))
    ensures IsPick(occ, rotateEvery, base, owner)
    decreases k - from
  {
    if HasRoom(occ, rotateEvery, Nth(base, from)) {
      owner := Nth(base, from);
      assert PickedAt(occ, rotateEvery, base, owner, from);
    } else {
      owner := FirstPick(occ, rotateEvery, base, k, from + 1);
    }
  }

  lemma PickHasRoom(occ: Occupancy, rotateEvery: int, base: Id, owner: Id)
    requires IsPick(occ, rotateEvery, base, owner)
    ensures HasRoom(occ, rotateEvery, owner)
  {
  }

  /** The owner picked has fewer orders than the limit, and every owner between the base and it, counted
      upwards around 2^32, has as many or more. */
  lemma PickMeans(occ: Occupancy, rotateEvery: int, base: Id, owner: Id, other: Id)
    requires IsPick(occ, rotateEvery, base, owner)
    ensures (if owner in occ then occ[owner] else 0) < rotateEvery
    ensures (base <= other < owner || (owner < base && (other >= base || other < owner))) ==>
      (if other in occ then occ[other] else 0) >= rotateEvery
  {
    var k: nat :| k < IDS && PickedAt(occ, rotateEvery, base, owner, k);
    var j := StepsTo(base, other);
    if base <= other < owner || (owner < base && (other >= base || other < owner)) {
      StepsApart(base, owner, other, k, j);
      assert !HasRoom(occ, rotateEvery, Nth(base, j));
    }
  }

  lemma StepsApart(base: Id, owner: Id, other: Id, k: nat, j: nat)
    requires k < IDS && j < IDS && Nth(base, k) == owner && Nth(base, j) == other
    ensures (base <= other < owner || (owner < base && (other >= base || other < owner))) ==> j < k
  {
    assert base + k == owner || base + k == owner + IDS;
    assert base + j == other || base + j == other + IDS;
  }

  /** How many more orders the owners below n can take. */
  function Capacity(occ: Occupancy, rotateEvery: int, n: nat): nat
    requires n <= IDS
  {
    if n == 0 then 0
    else
      var places := if HasRoom(occ, rotateEvery, n - 1) then rotateEvery - OrdersOf(occ, n - 1) else 0;
      Capacity(occ, rotateEvery, n - 1) + places
  }

  lemma {:induction false} CapacityMeansRoom(occ: Occupancy, rotateEvery: int, n: nat)
    requires n <= IDS
    ensures Capacity(occ, rotateEvery, n) > 0 <==> exists o: Id :: o < n && HasRoom(occ, rotateEvery, o)
  {
    if n > 0 {
      CapacityMeansRoom(occ, rotateEvery, n - 1);
      hide Capacity, HasRoom;
      assert Capacity(occ, rotateEvery, n) > 0 <==>
        Capacity(occ, rotateEvery, n - 1) > 0 || HasRoom(occ, rotateEvery, n - 1)
      by {
        CapacityStep(occ, rotateEvery, n);
      }
    }
  }

  lemma CapacityStep(occ: Occupancy, rotateEvery: int, n: nat)
    requires 0 < n <= IDS
    ensures Capacity(occ, rotateEvery, n) == Capacity(occ, rotateEvery, n - 1)
         + (if HasRoom(occ, rotateEvery, n - 1) then rotateEvery - OrdersOf(occ, n - 1) else 0)
    ensures HasRoom(occ, rotateEvery, n - 1) ==> rotateEvery - OrdersOf(occ, n - 1) > 0
  {
  }

  /** An order under an owner with room uses up one place. */
  lemma {:induction false} CapacityAfter(occ: Occupancy, rotateEvery: int, owner: Id, n: nat)
    requires n <= IDS && HasRoom(occ, rotateEvery, owner)
    ensures Capacity(Taken(occ, owner), rotateEvery, n) == Capacity(occ, rotateEvery, n) - (if owner < n then 1 else 0)
  {
    if n > 0 {
      CapacityAfter(occ, rotateEvery, owner, n - 1);
      CapacityStep(occ, rotateEvery, n);
      CapacityStep(Taken(occ, owner), rotateEvery, n);
      hide Capacity;
    }
  }

  /** Each owner without orders has a whole place left, if the limit is positive. */
  lemma {:induction false} UnusedOwnersHaveRoom(occ: Occupancy, rotateEvery: int, n: nat, used: set<Id>)
    requires n <= IDS && rotateEvery > 0 && forall o: Id :: o in occ && o < n ==> o in used
    ensures Capacity(occ, rotateEvery, n) >= n - |used|
  {
    if n > 0 {
      CapacityStep(occ, rotateEvery, n);
      hide Capacity;
      UnusedOwnersHaveRoom(occ, rotateEvery, n - 1, used - {n - 1});
    }
  }

  /** Which owner is picked is determined. */
  lemma PickUnique(occ: Occupancy, rotateEvery: int, base: Id, a: Id, b: Id)
    requires IsPick(occ, rotateEvery, base, a) && IsPick(occ, rotateEvery, base, b)
    ensures a == b
  {
    var k: nat :| k < IDS && PickedAt(occ, rotateEvery, base, a, k);
    var m: nat :| m < IDS && PickedAt(occ, rotateEvery, base, b, m);
    assert HasRoom(occ, rotateEvery, Nth(base, k)) && HasRoom(occ, rotateEvery, Nth(base, m));
  }

  // ----- rows and rounds -----

  datatype Row = Row(itemID: Id, restockQty: int, enabled: bool, rejected: bool, inCatalog: bool)

  predicate Eligible(r: Row) {
    r.itemID != 0 && r.restockQty > 0 && r.enabled && !r.rejected && r.inCatalog
  }

  /** What a row lacks, for any row. */
  function Lacks(r: Row, have: map<Id, int>): nat {
    var stock := if r.itemID in have then have[r.itemID] else 0;
    if Eligible(r) && r.restockQty > stock then r.restockQty - stock else 0
  }

  datatype Pending = Pending(row: Row, need: int)

  /** The pending list after n rows. */
  function PendingRows(rows: seq<Row>, have: map<Id, int>, n: nat): seq<Pending>
    requires n <= |rows|
  {
    if n == 0 then []
    else
      var lacks := Lacks(rows[n - 1], have);
      PendingRows(rows, have, n - 1) + (if lacks > 0 then [Pending(rows[n - 1], lacks)] else [])
  }

  function Needs(pending: seq<Pending>): (needs: seq<int>)
    ensures |needs| == |pending| && forall i :: 0 <= i < |pending| ==> needs[i] == pending[i].need
  {
    if pending == [] then [] else Needs(pending[..|pending| - 1]) + [pending[|pending| - 1].need]
  }

  /** The rows below n that one round serves, in order. */
  function Round(needs: seq<int>, n: nat): (served: seq<nat>)
    requires n <= |needs|
    ensures forall i :: i in served ==> i < n && needs[i] > 0
  {
    if n == 0 then [] else Round(needs, n - 1) + (if needs[n - 1] > 0 then [n - 1] else [])
  }

  function Less(x: int): int { if x > 0 then x - 1 else x }

  /** The needs after a round over the rows below n. */
  function Served(needs: seq<int>, n: nat): (left: seq<int>)
    requires n <= |needs|
    ensures |left| == |needs| && forall i :: 0 <= i < |needs| ==> left[i] == if i < n then Less(needs[i]) else needs[i]
  {
    if n == 0 then needs else Served(needs, n - 1)[n - 1 := Less(needs[n - 1])]
  }

  function Total(needs: seq<int>): nat {
    if needs == [] then 0 else Total(needs[..|needs| - 1]) + (if needs[|needs| - 1] > 0 then needs[|needs| - 1] else 0)
  }

  lemma ServedLast(needs: seq<int>, n: nat)
    requires 0 < n <= |needs|
    ensures Served(needs, n) == Served(needs, n - 1)[n - 1 := Less(needs[n - 1])]
    ensures Served(needs, n - 1)[n - 1] == needs[n - 1]
    ensures |Round(needs, n)| == |Round(needs, n - 1)| + (if needs[n - 1] > 0 then 1 else 0)
  {
  }

  lemma {:induction false} TotalSplit(needs: seq<int>, n: nat)
    requires n <= |needs|
    ensures Total(Served(needs, n)) == Total(needs) - |Round(needs, n)|
  {
    hide Total;
    if n > 0 {
      ServedLast(needs, n);
      hide Served, Round;
      TotalSplit(needs, n - 1);
      TotalUpdate(Served(needs, n - 1), n - 1, Less(needs[n - 1]));
    }
  }

  lemma {:induction false} TotalUpdate(needs: seq<int>, i: nat, x: int)
    requires i < |needs| && x == Less(needs[i])
    ensures Total(needs[i := x]) == Total(needs) - (if needs[i] > 0 then 1 else 0)
  {
    var last := |needs| - 1;
    if i == last {
      assert needs[i := x][..last] == needs[..last];
    } else {
      assert needs[i := x][..last] == needs[..last][i := x];
      TotalUpdate(needs[..last], i, x);
    }
  }

  lemma {:induction false} RoundEmpty(needs: seq<int>, n: nat)
    requires n <= |needs|
    ensures Round(needs, n) == [] <==> forall i :: 0 <= i < n ==> needs[i] <= 0
  {
    RoundNone(needs, []);
    hide Round;
    if n > 0 {
      RoundEmpty(needs, n - 1);
      RoundLast(needs, n);
    }
  }

  /** The plan: rounds until nobody needs anything.  Entries are indexes of pending rows. */
  function Rounds(needs: seq<int>): seq<nat>
    decreases Total(needs)
  {
    var round := Round(needs, |needs|);
    if round == [] then []
    else
      TotalSplit(needs, |needs|);
      round + Rounds(Served(needs, |needs|))
  }

  function Count(plan: seq<nat>, i: nat): nat {
    if plan == [] then 0 else Count(plan[..|plan| - 1], i) + (if plan[|plan| - 1] == i then 1 else 0)
  }

  lemma {:induction false} CountConcat(p: seq<nat>, q: seq<nat>, i: nat)
    ensures Count(p + q, i) == Count(p, i) + Count(q, i)
  {
    if q == [] {
      assert p + q == p;
    } else {
      assert (p + q)[..|p + q| - 1] == p + q[..|q| - 1];
      CountConcat(p, q[..|q| - 1], i);
    }
  }

  lemma CountAppend(p: seq<nat>, x: nat, i: nat)
    ensures Count(p + [x], i) == Count(p, i) + (if x == i then 1 else 0)
  {
    assert (p + [x])[..|p|] == p;
  }

  lemma CountNone(i: nat)
    ensures Count([], i) == 0
  {
  }

  lemma RoundLast(needs: seq<int>, n: nat)
    requires 0 < n <= |needs|
    ensures Round(needs, n) == if needs[n - 1] > 0 then Round(needs, n - 1) + [n - 1] else Round(needs, n - 1)
  {
    assert Round(needs, n - 1) + [] == Round(needs, n - 1);
  }

  lemma {:induction false} RoundCounts(needs: seq<int>, n: nat, i: nat)
    requires n <= |needs|
    ensures Count(Round(needs, n), i) == if i < n && needs[i] > 0 then 1 else 0
  {
    RoundNone(needs, []);
    CountNone(i);
    hide Count, Round;
    if n > 0 {
      RoundCounts(needs, n - 1, i);
      CountAppend(Round(needs, n - 1), n - 1, i);
      RoundLast(needs, n);
    }
  }

  /** Every row gets exactly what it lacks. */
  lemma {:induction false} RoundsMeetNeeds(needs: seq<int>, i: nat)
    requires i < |needs|
    ensures Count(Rounds(needs), i) == if needs[i] > 0 then needs[i] else 0
    decreases Total(needs)
  {
    var round := Round(needs, |needs|);
    RoundEmpty(needs, |needs|);
    if round != [] {
      TotalSplit(needs, |needs|);
      var left := Served(needs, |needs|);
      RoundsMeetNeeds(left, i);
      RoundCounts(needs, |needs|, i);
      CountConcat(round, Rounds(left), i);
    }
  }

  /** A prefix of one round serves the lower rows first, each at most once. */
  lemma {:induction false} RoundPrefix(needs: seq<int>, n: nat, m: nat, i: nat, j: nat)
    requires n <= |needs| && m <= |Round(needs, n)| && i < j < n && needs[i] > 0 && needs[j] > 0
    ensures var p := Round(needs, n)[..m]; Count(p, j) <= Count(p, i) <= 1
  {
    var round := Round(needs, n);
    if m == |round| {
      assert round[..m] == round;
      RoundCounts(needs, n, i);
      RoundCounts(needs, n, j);
    } else if j == n - 1 {
      var rest := Round(needs, n - 1);
      PrefixInFirst(rest, if needs[n - 1] > 0 then [n - 1] else [], m);
      NotInRound(needs, n - 1, m, j);
      PrefixCount(rest, m, i);
      RoundCounts(needs, n - 1, i);
      hide Count;
    } else {
      PrefixInFirst(Round(needs, n - 1), if needs[n - 1] > 0 then [n - 1] else [], m);
      hide Count;
      RoundPrefix(needs, n - 1, m, i, j);
    }
  }

  lemma {:induction false} PrefixCount(p: seq<nat>, m: nat, i: nat)
    requires m <= |p|
    ensures Count(p[..m], i) <= Count(p, i)
  {
    assert p == p[..m] + p[m..];
    CountConcat(p[..m], p[m..], i);
  }

  lemma NotInRound(needs: seq<int>, n: nat, m: nat, j: nat)
    requires n <= |needs| && m <= |Round(needs, n)| && j >= n
    ensures Count(Round(needs, n)[..m], j) == 0
  {
    RoundCounts(needs, n, j);
    PrefixCount(Round(needs, n), m, j);
  }

  /** Round robin: cut the plan anywhere, and of two rows that are not yet done the earlier one is
      level with the later one or a single order ahead. */
  lemma {:induction false} FairInEveryPrefix(needs: seq<int>, m: nat, i: nat, j: nat)
    requires i < j < |needs| && m <= |Rounds(needs)|
    requires var p := Rounds(needs)[..m]; Count(p, i) < needs[i] && Count(p, j) < needs[j]
    ensures var p := Rounds(needs)[..m]; Count(p, j) <= Count(p, i) <= Count(p, j) + 1
    decreases Total(needs)
  {
    var round := Round(needs, |needs|);
    RoundEmpty(needs, |needs|);
    if round != [] {
      TotalSplit(needs, |needs|);
      var left := Served(needs, |needs|);
      var rest := Rounds(left);
      assert Rounds(needs) == round + rest;
      if m <= |round| {
        PrefixInFirst(round, rest, m);
        RoundPrefix(needs, |needs|, m, i, j);
        hide Round, Rounds, Count, Served;
      } else {
        var q := rest[..m - |round|];
        PrefixInSecond(round, rest, m);
        CountConcat(round, q, i);
        CountConcat(round, q, j);
        RoundCounts(needs, |needs|, i);
        RoundCounts(needs, |needs|, j);
        hide Round, Rounds, Count, Served;
        FairInEveryPrefix(left, m - |round|, i, j);
      }
    }
  }

  lemma PrefixInFirst(p: seq<nat>, q: seq<nat>, m: nat)
    requires m <= |p|
    ensures (p + q)[..m] == p[..m]
  {
  }

  lemma PrefixInSecond(p: seq<nat>, q: seq<nat>, m: nat)
    requires |p| <= m <= |p| + |q|
    ensures (p + q)[..m] == p + q[..m - |p|]
  {
  }

  lemma {:induction false} NeedsArePositive(rows: seq<Row>, have: map<Id, int>, n: nat)
    requires n <= |rows|
    ensures forall i :: 0 <= i < |PendingRows(rows, have, n)| ==>
      var p := PendingRows(rows, have, n)[i]; p.row in rows && p.need == Lacks(p.row, have) > 0
  {
    if n > 0 { NeedsArePositive(rows, have, n - 1); }
  }

  lemma {:induction false} PendingComplete(rows: seq<Row>, have: map<Id, int>, n: nat, r: nat)
    requires r < n <= |rows| && Lacks(rows[r], have) > 0
    ensures exists i :: 0 <= i < |PendingRows(rows, have, n)| && PendingRows(rows, have, n)[i].row == rows[r]
  {
    if r < n - 1 {
      PendingComplete(rows, have, n - 1, r);
      var i :| 0 <= i < |PendingRows(rows, have, n - 1)| && PendingRows(rows, have, n - 1)[i].row == rows[r];
      assert PendingRows(rows, have, n)[i].row == rows[r];
    } else {
      var p := PendingRows(rows, have, n);
      assert p[|p| - 1].row == rows[r];
    }
  }

  function Stock(have: map<Id, int>, itemID: Id): int { if itemID in have then have[itemID] else 0 }

  /** The row is to be stocked, and its target exceeds the stock. */
  predicate IsShort(r: Row, have: map<Id, int>) {
    && r.itemID != 0 && r.enabled && !r.rejected && r.inCatalog
    && r.restockQty > 0 && r.restockQty > Stock(have, r.itemID)
  }

  /** The pending rows are the rows that are short, each at its place, with what it is short of. */
  lemma {:induction false} PendingExactly(rows: seq<Row>, have: map<Id, int>, n: nat) returns (index: seq<nat>)
    requires n <= |rows|
    ensures var pending := PendingRows(rows, have, n);
      && |index| == |pending| && (forall i, j :: 0 <= i < j < |index| ==> index[i] < index[j])
      && (forall i :: 0 <= i < |index| ==>
            && index[i] < n && pending[i].row == rows[index[i]] && IsShort(rows[index[i]], have)
            && pending[i].need == rows[index[i]].restockQty - Stock(have, rows[index[i]].itemID))
    ensures forall r: nat :: r < n ==> (r in index <==> IsShort(rows[r], have))
  {
    index := [];
    if n > 0 {
      index := PendingExactly(rows, have, n - 1);
      if IsShort(rows[n - 1], have) {
        index := index + [n - 1];
      }
    }
  }

  /** The plan orders for every pending row exactly what its target exceeds the stock by. */
  lemma PlanMeetsTargets(rows: seq<Row>, have: map<Id, int>, i: nat)
    requires i < |PendingRows(rows, have, |rows|)|
    ensures var pending := PendingRows(rows, have, |rows|);
      && Count(Rounds(Needs(pending)), i) == pending[i].need
      && pending[i].need == pending[i].row.restockQty - Stock(have, pending[i].row.itemID)
  {
    NeedsArePositive(rows, have, |rows|);
    RoundsMeetNeeds(Needs(PendingRows(rows, have, |rows|)), i);
  }

  // ----- owners -----

  /** The occupancy after orders under these owners. */
  function OccAfter(occ: Occupancy, owners: seq<Id>): Occupancy {
    if owners == [] then occ else Taken(OccAfter(occ, owners[..|owners| - 1]), owners[|owners| - 1])
  }

  /** Each owner was the first with room when its order was placed. */
  ghost predicate InTurn(occ: Occupancy, rotateEvery: int, base: Id, owners: seq<Id>) {
    forall i :: 0 <= i < |owners| ==> IsPick(OccAfter(occ, owners[..i]), rotateEvery, base, owners[i])
  }

  lemma InTurnOneMore(occ: Occupancy, rotateEvery: int, base: Id, owners: seq<Id>, owner: Id)
    requires InTurn(occ, rotateEvery, base, owners) && IsPick(OccAfter(occ, owners), rotateEvery, base, owner)
    ensures InTurn(occ, rotateEvery, base, owners + [owner])
    ensures OccAfter(occ, owners + [owner]) == Taken(OccAfter(occ, owners), owner)
  {
    hide IsPick, Taken;
    var more := owners + [owner];
    assert more[..|more| - 1] == owners;
    assert OccAfter(occ, more) == Taken(OccAfter(occ, owners), owner);
    hide OccAfter;
    forall i | 0 <= i < |more| ensures IsPick(OccAfter(occ, more[..i]), rotateEvery, base, more[i]) {
      assert more[..i] == if i < |owners| then owners[..i] else owners;
    }
  }

  /** Orders placed in turn use up the places that were left. */
  lemma {:induction false} InTurnUsesCapacity(occ: Occupancy, rotateEvery: int, base: Id, owners: seq<Id>)
    requires InTurn(occ, rotateEvery, base, owners)
    ensures Capacity(OccAfter(occ, owners), rotateEvery, IDS) == Capacity(occ, rotateEvery, IDS) - |owners|
  {
    hide Capacity, IsPick, HasRoom, Taken;
    if owners != [] {
      var rest, last := owners[..|owners| - 1], owners[|owners| - 1];
      assert forall i :: 0 <= i < |rest| ==> rest[..i] == owners[..i];
      InTurnUsesCapacity(occ, rotateEvery, base, rest);
      PickHasRoom(OccAfter(occ, rest), rotateEvery, base, last);
      CapacityAfter(OccAfter(occ, rest), rotateEvery, last, IDS);
      hide InTurn;
    }
  }

  lemma {:induction false} CapacitySuffices(occ: Occupancy, rotateEvery: int, base: Id, n: nat)
    returns (owners: seq<Id>)
    requires n <= Capacity(occ, rotateEvery, IDS)
    ensures |owners| == n && InTurn(occ, rotateEvery, base, owners)
  {
    hide Capacity, IsPick, HasRoom, OccAfter;
    owners := [];
    if n > 0 {
      owners := CapacitySuffices(occ, rotateEvery, base, n - 1);
      InTurnUsesCapacity(occ, rotateEvery, base, owners);
      CapacityMeansRoom(OccAfter(occ, owners), rotateEvery, IDS);
      PickExists(OccAfter(occ, owners), rotateEvery, base);
      var owner: Id :| IsPick(OccAfter(occ, owners), rotateEvery, base, owner);
      InTurnOneMore(occ, rotateEvery, base, owners, owner);
      owners := owners + [owner];
    }
  }

  /** A number of orders finds owners exactly when it does not exceed the places that are left. */
  lemma OrdersFindOwners(occ: Occupancy, rotateEvery: int, base: Id, n: nat)
    ensures (exists owners: seq<Id> :: |owners| == n && InTurn(occ, rotateEvery, base, owners))
      <==> n <= Capacity(occ, rotateEvery, IDS)
  {
    hide Capacity, InTurn, OccAfter;
    if owners: seq<Id> :| |owners| == n && InTurn(occ, rotateEvery, base, owners) {
      InTurnUsesCapacity(occ, rotateEvery, base, owners);
    } else if n <= Capacity(occ, rotateEvery, IDS) {
      var owners := CapacitySuffices(occ, rotateEvery, base, n);
    }
  }

  function Picks(owners: seq<Id>, owner: Id): nat {
    if owners == [] then 0 else Picks(owners[..|owners| - 1], owner) + (if owners[|owners| - 1] == owner then 1 else 0)
  }

  /** Every owner's count grows by the orders placed under it, and an owner that gets an order is
      never taken past the limit. */
  lemma {:induction false} OwnersWithinLimit(occ: Occupancy, rotateEvery: int, base: Id, owners: seq<Id>, owner: Id)
    requires InTurn(occ, rotateEvery, base, owners)
    ensures OrdersOf(OccAfter(occ, owners), owner) == OrdersOf(occ, owner) + Picks(owners, owner)
    ensures Picks(owners, owner) > 0 ==> OrdersOf(OccAfter(occ, owners), owner) <= rotateEvery
  {
    hide IsPick;
    if owners != [] {
      var rest, last := owners[..|owners| - 1], owners[|owners| - 1];
      assert forall i :: 0 <= i < |rest| ==> rest[..i] == owners[..i];
      OwnersWithinLimit(occ, rotateEvery, base, rest, owner);
      PickHasRoom(OccAfter(occ, rest), rotateEvery, base, last);
      hide InTurn;
    }
  }

  datatype Action = Action(row: Row, owner: Id)

  /** Order i is for row served[i] of the pending list, under owners[i]. */
  ghost predicate Issued(pending: seq<Pending>, served: seq<nat>, owners: seq<Id>, actions: seq<Action>) {
    && |actions| == |served| == |owners|
    && forall i :: 0 <= i < |actions| ==>
         served[i] < |pending| && actions[i] == Action(pending[served[i]].row, owners[i])
  }

  /** The search of pickOwner.  It ends if some owner has room, and only then. */
  method FirstWithRoom(occ: Occupancy, rotateEvery: int, base: Id) returns (owner: Id)
    requires exists o: Id :: HasRoom(occ, rotateEvery, o)
    ensures IsPick(occ, rotateEvery, base, owner)
  {
    ghost var free: Id :| HasRoom(occ, rotateEvery, free);
    ghost var steps := StepsTo(base, free);
    owner := base;
    ghost var k: nat := 0;
    while (if owner in occ then occ[owner] else 0) >= rotateEvery
      invariant k <= steps && owner == Nth(base, k)
      invariant forall j: nat :: j < k ==> !HasRoom(occ, rotateEvery, Nth(base, j))
      decreases steps - k
    {
      assert owner != free;
      NthStep(base, k);
      owner := if owner == IDS - 1 then 0 else owner + 1;
      k := k + 1;
    }
    assert PickedAt(occ, rotateEvery, base, owner, k);
  }

  lemma StartsInTurn(occ: Occupancy, rotateEvery: int, base: Id, pending: seq<Pending>)
    ensures OccAfter(occ, []) == occ && InTurn(occ, rotateEvery, base, []) && Issued(pending, [], [], [])
  {
  }

  lemma IssuedOneMore(pending: seq<Pending>, served: seq<nat>, owners: seq<Id>, actions: seq<Action>, i: nat, owner: Id)
    requires Issued(pending, served, owners, actions) && i < |pending|
    ensures Issued(pending, served + [i], owners + [owner], actions + [Action(pending[i].row, owner)])
  {
  }

  /** The state of a plan: what was ordered, in turn, and the occupancy that results. */
  ghost predicate Underway(rotateEvery: int, base: Id, pending: seq<Pending>, occ0: Occupancy,
                           served: seq<nat>, owners: seq<Id>, actions: seq<Action>, occ: Occupancy)
  {
    Issued(pending, served, owners, actions) && InTurn(occ0, rotateEvery, base, owners) && occ == OccAfter(occ0, owners)
  }

  class Planner {
    const base: Id
    const rotateEvery: int
    var occ: Occupancy

    constructor (base: Id, rotateEvery: int, occ: Occupancy)
      ensures this.base == base && this.rotateEvery == rotateEvery && this.occ == occ
    {
      this.base, this.rotateEvery, this.occ := base, rotateEvery, occ;
    }

    /** pickOwner. */
    method PickOwner() returns (owner: Id)
      requires Capacity(occ, rotateEvery, IDS) > 0
      modifies this`occ
      ensures IsPick(old(occ), rotateEvery, base, owner) && occ == Taken(old(occ), owner)
      ensures Capacity(occ, rotateEvery, IDS) == Capacity(old(occ), rotateEvery, IDS) - 1
    {
      hide Capacity;
      CapacityMeansRoom(occ, rotateEvery, IDS);
      owner := FirstWithRoom(occ, rotateEvery, base);
      PickHasRoom(occ, rotateEvery, base, owner);
      CapacityAfter(occ, rotateEvery, owner, IDS);
      hide IsPick, HasRoom;
      occ := occ[owner := (if owner in occ then occ[owner] else 0) + 1];
    }

    /** One order for a pending row. */
    method PlaceOrder(pending: seq<Pending>, i: nat, actions: seq<Action>, ghost served: seq<nat>,
          ghost owners: seq<Id>, ghost occ0: Occupancy)
      returns (more: seq<Action>, ghost moreOwners: seq<Id>)
      requires i < |pending| && Capacity(occ, rotateEvery, IDS) > 0
      requires Underway(rotateEvery, base, pending, occ0, served, owners, actions, occ)
      modifies this`occ
      ensures Underway(rotateEvery, base, pending, occ0, served + [i], moreOwners, more, occ)
      ensures Capacity(occ, rotateEvery, IDS) == Capacity(old(occ), rotateEvery, IDS) - 1
    {
      hide Capacity, InTurn, OccAfter, Issued, IsPick, Taken;
      var owner := PickOwner();
      InTurnOneMore(occ0, rotateEvery, base, owners, owner);
      IssuedOneMore(pending, served, owners, actions, i, owner);
      more, moreOwners := actions + [Action(pending[i].row, owner)], owners + [owner];
    }

    /** One round over the pending rows; `occ0` is the occupancy before the first round. */
    method ServeRound(pending: seq<Pending>, needs: seq<int>, actions: seq<Action>,
                      ghost served: seq<nat>, ghost owners: seq<Id>, ghost occ0: Occupancy)
      returns (left: seq<int>, added: bool, more: seq<Action>, ghost moreOwners: seq<Id>)
      requires |needs| == |pending| && |Round(needs, |needs|)| <= Capacity(occ, rotateEvery, IDS)
      requires Underway(rotateEvery, base, pending, occ0, served, owners, actions, occ)
      modifies this`occ
      ensures left == Served(needs, |needs|) && added == (Round(needs, |needs|) != [])
      ensures Underway(rotateEvery, base, pending, occ0, served + Round(needs, |needs|), moreOwners, more, occ)
      ensures Capacity(occ, rotateEvery, IDS) == Capacity(old(occ), rotateEvery, IDS) - |Round(needs, |needs|)|
    {
      hide Capacity, Underway, Round, Served;
      RoundNone(needs, served);
      left, added, more, moreOwners := needs, false, actions, owners;
      var i := 0;
      while i < |pending|
        invariant 0 <= i <= |pending|
        invariant left == Served(needs, i) && added == (Round(needs, i) != [])
        invariant Underway(rotateEvery, base, pending, occ0, served + Round(needs, i), moreOwners, more, occ)
        invariant Capacity(occ, rotateEvery, IDS) == Capacity(old(occ), rotateEvery, IDS) - |Round(needs, i)|
      {
        RoundStep(needs, i, served);
        if left[i] > 0 {
          more, moreOwners := PlaceOrder(pending, i, more, served + Round(needs, i), moreOwners, occ0);
          left := left[i := left[i] - 1];
          added := true;
        }
        i := i + 1;
      }
    }

    /** planCera.  The orders are those of Rounds, in that order, each under the owner whose turn it
        is.  It ends if the owners can take all orders of the plan, and only then. */
    method PlanCera(rows: seq<Row>, have: map<Id, int>) returns (actions: seq<Action>, ghost owners: seq<Id>)
      requires Total(Needs(PendingRows(rows, have, |rows|))) <= Capacity(occ, rotateEvery, IDS)
      modifies this`occ
      ensures var pending := PendingRows(rows, have, |rows|); Issued(pending, Rounds(Needs(pending)), owners, actions)
      ensures InTurn(old(occ), rotateEvery, base, owners) && occ == OccAfter(old(occ), owners)
    {
      hide Capacity;
      var pending := CollectPending(rows, have);
      var needs := Needs(pending);
      ghost var all := Rounds(needs);
      ghost var served: seq<nat> := [];
      actions, owners := [], [];
      StartsInTurn(occ, rotateEvery, base, pending);
      assert served + all == all;
      hide InTurn, OccAfter, Issued, Rounds, Round, Served, Total, Needs, PendingRows;
      while true
        invariant |needs| == |pending| && all == served + Rounds(needs)
        invariant Underway(rotateEvery, base, pending, old(occ), served, owners, actions, occ)
        invariant Total(needs) <= Capacity(occ, rotateEvery, IDS)
        decreases Total(needs)
      {
        RoundsStep(needs, served);
        var added;
        ghost var before := served;
        served := served + Round(needs, |needs|);
        needs, added, actions, owners := ServeRound(pending, needs, actions, before, owners, old(occ));
        if !added {
          return;
        }
      }
    }
  }

  lemma RoundsStep(needs: seq<int>, served: seq<nat>)
    ensures var round, left := Round(needs, |needs|), Served(needs, |needs|);
      && Total(left) == Total(needs) - |round|
      && (round == [] ==> Rounds(needs) == [] && served + round == served + Rounds(needs))
      && (round != [] ==> served + Rounds(needs) == served + round + Rounds(left))
  {
    TotalSplit(needs, |needs|);
    hide Round, Served, Total;
  }

  lemma RoundNone(needs: seq<int>, served: seq<nat>)
    ensures Served(needs, 0) == needs && Round(needs, 0) == [] && served + Round(needs, 0) == served
  {
  }

  lemma RoundStep(needs: seq<int>, i: nat, served: seq<nat>)
    requires i < |needs|
    ensures Served(needs, i)[i] == needs[i]
    ensures needs[i] > 0 ==>
      Round(needs, i + 1) == Round(needs, i) + [i] && served + Round(needs, i + 1) == served + Round(needs, i) + [i]
    ensures needs[i] <= 0 ==> Round(needs, i + 1) == Round(needs, i) && Served(needs, i + 1) == Served(needs, i)
    ensures needs[i] > 0 ==> Served(needs, i + 1) == Served(needs, i)[i := needs[i] - 1]
    ensures |Round(needs, i + 1)| <= |Round(needs, |needs|)|
  {
    RoundGrows(needs, i + 1, |needs|);
    if needs[i] <= 0 {
      assert Served(needs, i)[i := needs[i]] == Served(needs, i);
    } else {
      assert Round(needs, i + 1) == Round(needs, i) + [i];
      assert served + (Round(needs, i) + [i]) == served + Round(needs, i) + [i];
    }
    hide Round, Served;
  }

  lemma {:induction false} RoundGrows(needs: seq<int>, i: nat, n: nat)
    requires i <= n <= |needs|
    ensures |Round(needs, i)| <= |Round(needs, n)|
    decreases n - i
  {
    if i < n { RoundGrows(needs, i, n - 1); }
  }

  /** The rows that lack something, in order. */
  method CollectPending(rows: seq<Row>, have: map<Id, int>) returns (pending: seq<Pending>)
    ensures pending == PendingRows(rows, have, |rows|)
  {
    pending := [];
    var i := 0;
    while i < |rows|
      invariant 0 <= i <= |rows| && pending == PendingRows(rows, have, i)
    {
      var row := rows[i];
      i := i + 1;
      if row.itemID == 0 || row.restockQty <= 0 || !row.enabled {
        continue;
      }
      if row.rejected {
        continue;
      }
      if !row.inCatalog {
        continue;
      }
      var current := if row.itemID in have then have[row.itemID] else 0;
      var need := row.restockQty - current;
      if need > 0 {
        pending := pending + [Pending(row, need)];
      }
    }
  }
}
