/** The order in which actors are stopped: StopPriority and SortActorsForStop of internal/actor. */
module StopOrder {
  import opened Collections

  datatype RuntimeState = Init | Login | Run | Other

  datatype Status = Status(
    disconnectReason: Int64,
    state: RuntimeState,
    partyActive: bool,
    robotType: Int64,
    storeAck: bool)

  type StatusMap = map<Int64, Status>

  function StopPriority(uid: Int64, status: StatusMap): nat {
    if uid <= 0 then 0
    else if uid !in status then 1
    else
      var st := status[uid];
      if st.disconnectReason != 0 || st.state == Init || st.state == Login then 1
      else if st.partyActive then 4
      else if st.robotType == 2 || st.robotType == 3 || st.storeAck then 2
      else 3
  }

  /** What the comparator looks at. */
  datatype Candidate = Candidate(id: nat, uid: Int64, slot: nat)

  /** The comparator of SortActorsForStop. */
  predicate StopsBefore(status: StatusMap, a: Candidate, b: Candidate) {
    var p, q := StopPriority(a.uid, status), StopPriority(b.uid, status);
    if p != q then p < q
    else if a.uid <= 0 || b.uid <= 0 then
      if a.uid != b.uid then a.uid <= 0 else a.slot > b.slot
    else if a.uid != b.uid then a.uid > b.uid
    else a.slot > b.slot
  }

  // ----- the order, said over the fields of the status -----

  /** The UID is not running: no status, disconnected, or still on its way in. */
  predicate Down(status: StatusMap, uid: Int64) {
    uid !in status || status[uid].disconnectReason != 0 || status[uid].state in {Init, Login}
  }

  predicate InParty(status: StatusMap, uid: Int64) {
    !Down(status, uid) && status[uid].partyActive
  }

  predicate RunsStore(status: StatusMap, uid: Int64) {
    && !Down(status, uid) && !status[uid].partyActive
    && (status[uid].robotType == 2 || status[uid].robotType == 3 || status[uid].storeAck)
  }

  /** Actors without a UID go first, then those that are down, then stores, then whatever else is
      running, and those in a party go last. */
  predicate GoesEarlier(status: StatusMap, a: Int64, b: Int64) {
    || (a <= 0 && b > 0)
    || (a > 0 && b > 0 && Down(status, a) && !Down(status, b))
    || (a > 0 && b > 0 && RunsStore(status, a) && !Down(status, b) && !RunsStore(status, b))
    || (a > 0 && b > 0 && !Down(status, a) && !InParty(status, a) && InParty(status, b))
  }

  /** The comparator follows these classes; within a class the larger UID stops first, then the
      larger slot. */
  lemma StopsByClass(status: StatusMap, a: Candidate, b: Candidate)
    requires a.uid >= 0 && b.uid >= 0
    ensures StopsBefore(status, a, b) <==>
      || GoesEarlier(status, a.uid, b.uid)
      || (!GoesEarlier(status, b.uid, a.uid) && (a.uid > b.uid || (a.uid == b.uid && a.slot > b.slot)))
  {
  }

  /** Nothing left behind is of an earlier class than anything chosen. */
  ghost predicate ClassesRespected(status: StatusMap, chosen: set<Candidate>, left: set<Candidate>) {
    forall c, d :: c in chosen && d in left ==> !GoesEarlier(status, d.uid, c.uid)
  }

  lemma LowestRespectsClasses(status: StatusMap, chosen: set<Candidate>, all: set<Candidate>)
    requires Proper(all) && LowestPart(status, chosen, all)
    ensures ClassesRespected(status, chosen, all - chosen)
  {
    forall c, d | c in chosen && d in all - chosen ensures !GoesEarlier(status, d.uid, c.uid) {
      StopsByClass(status, d, c);
      StrictTotalOrder(status, c, d, c);
    }
  }

  // ----- the comparator as an order -----

  /** The comparator contradicts itself exactly on two different UIDs that are not positive. */
  lemma ContradictsItselfOn(status: StatusMap, a: Candidate, b: Candidate)
    ensures StopsBefore(status, a, b) && StopsBefore(status, b, a) <==> a.uid <= 0 && b.uid <= 0 && a.uid != b.uid
  {
  }

  /** On the UIDs actors really have, 0 or more, and distinct slots, it is a strict total order. */
  lemma StrictTotalOrder(status: StatusMap, a: Candidate, b: Candidate, c: Candidate)
    requires a.uid >= 0 && b.uid >= 0 && c.uid >= 0
    ensures !StopsBefore(status, a, a)
    ensures a.slot != b.slot ==> (StopsBefore(status, a, b) <==> !StopsBefore(status, b, a))
    ensures StopsBefore(status, a, b) && StopsBefore(status, b, c) ==> StopsBefore(status, a, c)
  {
  }

  ghost predicate Proper(cs: set<Candidate>) {
    && (forall c :: c in cs ==> c.uid >= 0)
    && (forall c, d :: c in cs && d in cs && c != d ==> c.slot != d.slot)
  }

  /** Everything chosen stops before everything left. */
  ghost predicate LowestPart(status: StatusMap, chosen: set<Candidate>, all: set<Candidate>) {
    && chosen <= all
    && forall c, d :: c in chosen && d in all - chosen ==> StopsBefore(status, c, d)
  }

  /** For each size there is only one part that stops before the rest. */
  lemma LowestPartUnique(status: StatusMap, x: set<Candidate>, y: set<Candidate>, all: set<Candidate>)
    requires Proper(all) && LowestPart(status, x, all) && LowestPart(status, y, all) && |x| == |y|
    ensures x == y
  {
    if x != y {
      var c := Difference(x, y);
      var d := Difference(y, x);
      StrictTotalOrder(status, c, d, c);
    }
  }

  ghost predicate SortedForStop(status: StatusMap, s: seq<Candidate>) {
    forall i, j :: 0 <= i < j < |s| ==> StopsBefore(status, s[i], s[j])
  }

  ghost function Elements(s: seq<Candidate>): set<Candidate> {
    set c | c in s
  }

  ghost predicate Distinct(s: seq<Candidate>) {
    forall i, j :: 0 <= i < j < |s| ==> s[i] != s[j]
  }

  lemma {:induction false} DistinctSize(s: seq<Candidate>)
    requires Distinct(s)
    ensures |Elements(s)| == |s|
  {
    if s != [] {
      DistinctSize(s[1..]);
      assert Elements(s) == Elements(s[1..]) + {s[0]};
    }
  }

  /** A prefix of a sorted list of candidates is the lowest part of that size. */
  lemma PrefixIsLowest(status: StatusMap, s: seq<Candidate>, k: nat)
    requires SortedForStop(status, s) && Distinct(s) && k <= |s|
    ensures LowestPart(status, Elements(s[..k]), Elements(s)) && |Elements(s[..k])| == k
  {
    DistinctSize(s[..k]);
    forall c, d | c in Elements(s[..k]) && d in Elements(s) - Elements(s[..k]) ensures StopsBefore(status, c, d) {
      var i :| 0 <= i < k && s[i] == c;
      var j :| 0 <= j < |s| && s[j] == d;
      assert forall i :: 0 <= i < k ==> s[i] in Elements(s[..k]);
    }
  }

  /** SortActorsForStop: the library's in-place sort with that comparator. */
  method SortForStop(candidates: seq<Candidate>, status: StatusMap) returns (sorted: seq<Candidate>)
    requires Distinct(candidates) && Proper(Elements(candidates))
    ensures Elements(sorted) == Elements(candidates) && Distinct(sorted) && |sorted| == |candidates|
    ensures SortedForStop(status, sorted)
  {
    sorted := [];
    var i := 0;
    while i < |candidates|
      invariant 0 <= i <= |candidates|
      invariant Elements(sorted) == Elements(candidates[..i]) && Distinct(sorted) && |sorted| == i
      invariant SortedForStop(status, sorted)
    {
      var c := candidates[i];
      assert c in candidates;
      var k := 0;
      while k < |sorted| && StopsBefore(status, sorted[k], c)
        invariant 0 <= k <= |sorted|
        invariant forall j :: 0 <= j < k ==> StopsBefore(status, sorted[j], c)
      {
        k := k + 1;
      }
      InsertKeepsSorted(status, sorted, c, k, Elements(candidates), candidates[..i]);
      sorted := sorted[..k] + [c] + sorted[k..];
      assert candidates[..i + 1] == candidates[..i] + [c];
      i := i + 1;
    }
    assert candidates[..i] == candidates;
  }

  lemma InsertKeepsSorted(status: StatusMap, s: seq<Candidate>, c: Candidate, k: nat, all: set<Candidate>,
        done: seq<Candidate>)
    requires k <= |s| && SortedForStop(status, s) && Distinct(s)
    requires Proper(all) && c in all && Elements(s) <= all && c !in Elements(done) && Elements(s) == Elements(done)
    requires forall j :: 0 <= j < k ==> StopsBefore(status, s[j], c)
    requires k < |s| ==> !StopsBefore(status, s[k], c)
    ensures var t := s[..k] + [c] + s[k..];
      SortedForStop(status, t) && Distinct(t) && Elements(t) == Elements(done + [c])
  {
    hide StopsBefore;
    var t := s[..k] + [c] + s[k..];
    forall j | k <= j < |s| ensures StopsBefore(status, c, s[j]) {
      assert s[k] in Elements(s) && s[j] in Elements(s);
      StrictTotalOrder(status, c, s[k], s[j]);
    }
    assert forall j :: 0 <= j < |s| ==> s[j] in Elements(s);
    InsertElements(s, c, k, done);
  }

  lemma InsertElements(s: seq<Candidate>, c: Candidate, k: nat, done: seq<Candidate>)
    requires k <= |s| && Elements(s) == Elements(done)
    ensures Elements(s[..k] + [c] + s[k..]) == Elements(done + [c])
  {
    assert s == s[..k] + s[k..];
    forall x ensures x in s[..k] + [c] + s[k..] <==> x in Elements(s) || x == c {
    }
  }
}
