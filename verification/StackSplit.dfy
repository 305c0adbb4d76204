/**
 Stack splitting in internal/capability/marketapp/marketapp_planner.go: the quantity of a row is
 spread over records, and the price clamp keeps every total within an int32.
 */
module StackSplit {
  import opened Collections

  type Int32 = x: int | -0x8000_0000 <= x <= 0x7FFF_FFFF

  const MAX_INT32: Int32 := 0x7FFF_FFFF
  const MAX_INT64: Int64 := 0x7FFF_FFFF_FFFF_FFFF

  /** Conversion to int32 keeps the low 32 bits. */
  function ToInt32(x: int): Int32 {
    var low := x % 0x1_0000_0000;
    if low >= 0x8000_0000 then low - 0x1_0000_0000 else low
  }

  function ToInt64(x: int): Int64 {
    var low := x % 0x1_0000_0000_0000_0000;
    if low >= 0x8000_0000_0000_0000 then low - 0x1_0000_0000_0000_0000 else low
  }

  /** Go's division truncates toward zero. */
  function Quotient(a: int, b: int): int
    requires b > 0
  {
    if a >= 0 then a / b else -(-a / b)
  }

  /** auctionPlanStackSize. */
  function StackSize(stackSize: Int64, stackLimit: Int64, isEquip: bool): (s: Int64)
    ensures s >= 1
    ensures !isEquip && stackLimit > 0 ==> s <= stackLimit
    ensures !isEquip && 1 <= stackSize && (stackLimit <= 0 || stackSize <= stackLimit) ==> s == stackSize
    ensures !isEquip && stackLimit > 0 && stackSize > stackLimit ==> s == stackLimit
    ensures isEquip || stackSize <= 0 ==> s == 1
  {
    var size := if stackSize <= 0 then 1 else stackSize;
    if isEquip then 1 else if stackLimit > 0 && size > stackLimit then stackLimit else size
  }

  datatype Plan = Plan(quantity: Int64, stackSize: Int64, records: Int64, isEquip: bool)

  /** normalAuctionPlan. */
  function MakePlan(quantity: Int64, stackSize: Int64, stackLimit: Int64, isEquip: bool): (p: Plan)
    ensures p.stackSize >= 1
  {
    var size := StackSize(stackSize, stackLimit, isEquip);
    Plan(quantity, size, ToInt64(Quotient(ToInt64(quantity + size - 1), size)), isEquip)
  }

  /** The count of record i before it becomes an int32. */
  function Share(p: Plan, i: int): int {
    if p.isEquip then 1 else if i < p.records - 1 then p.stackSize else p.quantity - (p.records - 1) * p.stackSize
  }

  function Shares(p: Plan, n: nat): int {
    if n == 0 then 0 else Shares(p, n - 1) + Share(p, n - 1)
  }

  /** auctionPlanActionCount. */
  function ActionCount(p: Plan, i: int): Int32 {
    ToInt32(ToInt64(Share(p, i)))
  }

  lemma QuotientIs(a: nat, b: nat, q: nat)
    requires b > 0 && q * b <= a < q * b + b
    ensures a / b == q
  {
    var d := a / b;
    assert d * b <= a < d * b + b;
    if d < q {
      Monotone(b, d + 1, q);
    } else if d > q {
      Monotone(b, q + 1, d);
    }
  }

  /** How many records a positive quantity gets: the rounded-up quotient, unless the sum overflows. */
  lemma RecordsAre(quantity: Int64, stackSize: Int64, stackLimit: Int64, isEquip: bool)
    ensures var p := MakePlan(quantity, stackSize, stackLimit, isEquip);
      && (quantity <= 0 ==> p.records <= 0)
      && (quantity > 0 ==>
           ((p.records - 1) * p.stackSize < quantity <= p.records * p.stackSize <==>
              quantity + p.stackSize - 1 <= MAX_INT64)
           && (quantity + p.stackSize - 1 > MAX_INT64 ==> p.records <= 0))
  {
    var p := MakePlan(quantity, stackSize, stackLimit, isEquip);
    var s, sum := p.stackSize, quantity + p.stackSize - 1;
    hide Quotient, StackSize, ToInt64;
    Wraps(sum);
    if quantity <= 0 {
      NoRecords(sum, s);
      Wraps(Quotient(sum, s));
    } else if sum <= MAX_INT64 {
      RoundedUp(quantity, s);
      Wraps(Quotient(sum, s));
    } else {
      NoRecords(ToInt64(sum), s);
      Wraps(Quotient(ToInt64(sum), s));
      NonPositive(p.records, s);
    }
  }

  lemma Wraps(x: int)
    ensures -0x8000_0000_0000_0000 <= x <= MAX_INT64 ==> ToInt64(x) == x
    ensures MAX_INT64 < x < 2 * MAX_INT64 + 2 ==> ToInt64(x) < 0
  {
  }

  lemma NonPositive(a: int, b: int)
    requires a <= 0 && b >= 0
    ensures a * b <= 0
  {
  }

  lemma NoRecords(sum: int, s: int)
    requires s >= 1 && -0x8000_0000_0000_0000 <= sum < s
    ensures -0x8000_0000_0000_0000 <= Quotient(sum, s) <= 0
  {
    if sum >= 0 {
      QuotientIs(sum, s, 0);
    } else {
      DivisionShrinks(-sum, s);
    }
  }

  lemma DivisionShrinks(a: int, b: int)
    requires a >= 0 && b >= 1
    ensures 0 <= a / b <= a
  {
    var d := a / b;
    assert a == b * d + a % b;
    if d < 0 { NonPositive(d + 1, b); } else { Monotone(d, 1, b); }
  }

  lemma RoundedUp(quantity: int, s: int)
    requires 1 <= quantity && 1 <= s && quantity + s - 1 <= MAX_INT64
    ensures var r := Quotient(quantity + s - 1, s); 1 <= r <= MAX_INT64 && (r - 1) * s < quantity <= r * s
  {
    var r := (quantity + s - 1) / s;
    assert r * s <= quantity + s - 1 < r * s + s;
    assert (r - 1) * s == r * s - s;
    DivisionShrinks(quantity + s - 1, s);
    if r < 1 { NonPositive(r, s); }
  }

  /** A plan for a positive quantity whose sum does not overflow. */
  predicate Proper(p: Plan) {
    && p.quantity > 0 && p.stackSize >= 1 && p.records >= 1
    && (p.records - 1) * p.stackSize < p.quantity <= p.records * p.stackSize
    && (p.isEquip ==> p.stackSize == 1)
  }

  lemma PlansAreProper(quantity: Int64, stackSize: Int64, stackLimit: Int64, isEquip: bool)
    requires quantity > 0
    ensures var p := MakePlan(quantity, stackSize, stackLimit, isEquip);
      Proper(p) <==> quantity + p.stackSize - 1 <= MAX_INT64
  {
    RecordsAre(quantity, stackSize, stackLimit, isEquip);
    var p := MakePlan(quantity, stackSize, stackLimit, isEquip);
    hide Quotient, ToInt64;
    if quantity + p.stackSize - 1 <= MAX_INT64 {
      RoundedUp(quantity, p.stackSize);
      Wraps(quantity + p.stackSize - 1);
      Wraps(Quotient(quantity + p.stackSize - 1, p.stackSize));
    }
  }

  /** Every record gets between one piece and a full stack. */
  lemma SharesFit(p: Plan, i: nat)
    requires Proper(p) && i < p.records
    ensures 1 <= Share(p, i) <= p.stackSize
  {
    assert (p.records - 1) * p.stackSize == p.records * p.stackSize - p.stackSize;
  }

  lemma {:induction false} FullShares(p: Plan, n: nat)
    requires Proper(p) && n < p.records
    ensures Shares(p, n) == n * p.stackSize
  {
    if n > 0 {
      FullShares(p, n - 1);
      assert n * p.stackSize == (n - 1) * p.stackSize + p.stackSize;
    }
  }

  /** The records together hold exactly the quantity. */
  lemma SplitConserves(p: Plan)
    requires Proper(p)
    ensures Shares(p, p.records) == p.quantity
  {
    FullShares(p, p.records - 1);
    if p.isEquip { assert p.records == p.quantity; }
  }

  /** The largest share of a record. */
  function Largest(p: Plan): int { if p.records == 1 then p.quantity else p.stackSize }

  lemma LargestIsFirst(p: Plan)
    requires Proper(p)
    ensures Share(p, 0) == Largest(p)
    ensures forall i: nat :: i < p.records ==> 1 <= Share(p, i) <= Largest(p)
  {
    assert p.isEquip && p.records == 1 ==> p.quantity == 1;
    forall i: nat | i < p.records ensures 1 <= Share(p, i) <= Largest(p) {
      SharesFit(p, i);
    }
  }

  lemma ConversionExact(x: int)
    requires 1 <= x <= MAX_INT64
    ensures ToInt32(ToInt64(x)) == x <==> x <= MAX_INT32
  {
  }

  /** The counts are those of the split exactly when a record's largest share fits into an int32. */
  lemma CountsExact(p: Plan)
    requires Proper(p)
    ensures (forall i: nat :: i < p.records ==> ActionCount(p, i) == Share(p, i)) <==> Largest(p) <= MAX_INT32
  {
    LargestIsFirst(p);
    hide Share, ToInt32, ToInt64;
    forall i: nat | i < p.records ensures ActionCount(p, i) == Share(p, i) <==> Share(p, i) <= MAX_INT32 {
      ConversionExact(Share(p, i));
    }
  }

  // ----- the price clamp -----

  /** safeAuctionStackCount. */
  function SafeCount(unit: Int32, count: Int32): Int32 {
    if count <= 0 then 1
    else if unit <= 0 then count
    else
      var maxCount := MAX_INT32 / unit;
      if maxCount < 1 then 1 else if count > maxCount then maxCount else count
  }

  /** safeAuctionTotalPrice. */
  function SafeTotal(unit: Int32, count: Int32): Int32 {
    var u, c := if unit <= 0 then 1 else unit, if count <= 0 then 1 else count;
    var total := u as int * c as int;
    if total > MAX_INT32 then MAX_INT32 else if total < 1 then 1 else total
  }

  lemma QuotientBounds(unit: Int32)
    requires unit >= 1
    ensures var q := MAX_INT32 / unit; 1 <= q <= MAX_INT32 && unit * q <= MAX_INT32 < unit * (q + 1)
  {
    var q := MAX_INT32 / unit;
    assert unit * q <= MAX_INT32 < unit * q + unit;
    DivisionShrinks(MAX_INT32, unit);
    if q < 1 { NonPositive(q, unit); }
  }

  lemma Monotone(unit: int, a: int, b: int)
    requires unit >= 0 && a <= b
    ensures unit * a <= unit * b
  {
  }

  /** For a price of at least 1 the clamped count is the largest that is at most the count wished
      for and whose total fits into an int32; a count is never raised, except from 0 or less to 1. */
  lemma ClampIsLargest(unit: Int32, count: Int32, other: Int32)
    requires unit >= 1
    ensures var c := SafeCount(unit, count);
      && 1 <= c && unit * c <= MAX_INT32
      && (count >= 1 ==> c <= count)
      && (1 <= other <= count && unit * other <= MAX_INT32 ==> other <= c)
  {
    QuotientBounds(unit);
    var q := MAX_INT32 / unit;
    Monotone(unit, SafeCount(unit, count), q);
    if other > q { Monotone(unit, q + 1, other); }
  }

  /** After the clamp the total is exactly price times count, at least 1 and within int32, if and
      only if the price is positive, which every computed price is. */
  lemma TotalIsExact(unit: Int32, count: Int32)
    ensures var c := SafeCount(unit, count);
      && (SafeTotal(unit, c) == unit as int * c as int <==> unit >= 1)
      && 1 <= SafeTotal(unit, c)
  {
    if unit >= 1 {
      ClampIsLargest(unit, count, 1);
      Monotone(unit, 1, SafeCount(unit, count));
    } else {
      NonPositive(unit, SafeCount(unit, count));
    }
  }

  // ----- the actions -----

  datatype Action = Action(count: Int32, unitPrice: Int32, totalPrice: Int32)

  /** What record i becomes at a given price. */
  function ActionAt(p: Plan, i: nat, unit: Int32): Action {
    var count := ActionCount(p, i);
    if p.isEquip then Action(count, unit, unit)
    else Action(SafeCount(unit, count), unit, SafeTotal(unit, SafeCount(unit, count)))
  }

  /** The loop of appendNormalAuctionActions; prices(i) is the unit price drawn for record i. */
  method AppendActions(p: Plan, prices: nat -> Int32) returns (actions: seq<Action>)
    ensures |actions| == if p.records <= 0 then 0 else p.records
    ensures forall i :: 0 <= i < |actions| ==> actions[i] == ActionAt(p, i, prices(i))
  {
    actions := [];
    var i := 0;
    while i < p.records
      invariant 0 <= i && |actions| == i && (p.records >= 0 ==> i <= p.records) && (p.records < 0 ==> i == 0)
      invariant forall j :: 0 <= j < i ==> actions[j] == ActionAt(p, j, prices(j))
    {
      var count := ActionCount(p, i);
      var unit := prices(i);
      var total := unit;
      if !p.isEquip {
        count := SafeCount(unit, count);
        total := SafeTotal(unit, count);
      }
      actions := actions + [Action(count, unit, total)];
      i := i + 1;
    }
  }

  function Pieces(actions: seq<Action>): int {
    if actions == [] then 0 else Pieces(actions[..|actions| - 1]) + actions[|actions| - 1].count
  }

  lemma {:induction false} PiecesAtMost(p: Plan, prices: nat -> Int32, actions: seq<Action>)
    requires Proper(p) && Largest(p) <= MAX_INT32
    requires |actions| <= p.records && forall i: nat :: prices(i) >= 1
    requires forall i :: 0 <= i < |actions| ==> actions[i] == ActionAt(p, i, prices(i))
    ensures |actions| <= Pieces(actions) <= Shares(p, |actions|)
  {
    if actions != [] {
      var n := |actions| - 1;
      PiecesAtMost(p, prices, actions[..n]);
      CountsExact(p);
      SharesFit(p, n);
      assert ActionCount(p, n) == Share(p, n);
      ClampIsLargest(prices(n), ActionCount(p, n), 1);
      hide Share, SafeCount, SafeTotal, ActionCount;
    }
  }

  /** Equipment is offered piece by piece. */
  lemma {:induction false} EquipmentPieces(p: Plan, prices: nat -> Int32, actions: seq<Action>)
    requires p.isEquip && forall i :: 0 <= i < |actions| ==> actions[i] == ActionAt(p, i, prices(i))
    ensures Pieces(actions) == |actions|
    ensures forall i :: 0 <= i < |actions| ==> actions[i].count == 1
  {
    if actions != [] {
      EquipmentPieces(p, prices, actions[..|actions| - 1]);
    }
  }

  /** All offers of a row together, each at the price drawn for it: never more pieces than planned, at
      least one per record, every offer of stackable goods for its unit price times its count, and all
      pieces of equipment, one by one, each for its unit price. */
  lemma OffersConserve(p: Plan, prices: nat -> Int32, actions: seq<Action>)
    requires Proper(p) && Largest(p) <= MAX_INT32
    requires |actions| == p.records && forall i: nat :: prices(i) >= 1
    requires forall i :: 0 <= i < |actions| ==> actions[i] == ActionAt(p, i, prices(i))
    ensures p.records <= Pieces(actions) <= p.quantity
    ensures !p.isEquip ==> forall i :: 0 <= i < |actions| ==>
      var a := actions[i];
      a.count >= 1 && a.totalPrice as int == a.unitPrice as int * a.count as int && a.totalPrice >= 1
    ensures forall i :: 0 <= i < |actions| ==> actions[i].unitPrice == prices(i)
    ensures p.isEquip ==>
      && Pieces(actions) == p.quantity
      && forall i :: 0 <= i < |actions| ==> actions[i].count == 1 && actions[i].totalPrice == prices(i)
  {
    if p.isEquip { EquipmentPieces(p, prices, actions); }
    PiecesAtMost(p, prices, actions);
    SplitConserves(p);
    if !p.isEquip {
      forall i | 0 <= i < |actions|
        ensures var a := actions[i];
          a.count >= 1 && a.totalPrice as int == a.unitPrice as int * a.count as int && a.totalPrice >= 1
      {
        TotalIsExact(prices(i), ActionCount(p, i));
        ClampIsLargest(prices(i), ActionCount(p, i), 1);
      }
    }
  }
}
