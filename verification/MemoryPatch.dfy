/**
 The patch of six bytes in the memory of the auction process,
 internal/capability/marketapp/marketapp_memory_patch.go.

 Every write may succeed or fail and, either way, may or may not take effect; every read may
 fail.  These choices are arguments, and nobody else writes to the process meanwhile.
 */
module MemoryPatch {
  type Byte = x: int | 0 <= x < 256
  type Addr = x: int | 0 <= x < 0x8000_0000_0000_0000
  type Memory = map<Addr, Byte>

  datatype Spec = Spec(
    original: Byte,
    alternates: seq<Byte>,
    levelRange: bool,
    value: Byte,
    pattern: seq<Byte>,
    targetOffset: nat)

  /** A located spec: the byte found at its address, and the entry of the report. */
  datatype Plan = Plan(value: Byte, entry: nat, address: Addr, before: Byte)

  datatype Entry = Entry(before: Byte, after: Byte, changed: bool, ok: bool)

  datatype Write = Write(ok: bool, effective: bool)

  /** A forward write, and whether the read that verifies it succeeds. */
  datatype Attempt = Attempt(write: Write, readOK: bool)

  datatype Image = Image(mem: Memory, entries: seq<Entry>, patched: nat)

  // ----- applying and rolling back -----

  predicate Skipped(p: Plan) { p.before == p.value }

  function Poke(mem: Memory, a: Addr, v: Byte, w: Write): Memory {
    if w.effective then mem[a := v] else mem
  }

  ghost predicate PlansFit(mem: Memory, plans: seq<Plan>, entries: seq<Entry>) {
    && (forall i :: 0 <= i < |plans| ==>
          && plans[i].address in mem && mem[plans[i].address] == plans[i].before
          && plans[i].entry < |entries| && entries[plans[i].entry].after == plans[i].before)
    && (forall i, j :: 0 <= i < j < |plans| ==> plans[i].entry != plans[j].entry)
  }

  /** Memory and report after the first n plans, as long as none of them fails. */
  function Forward(start: Image, plans: seq<Plan>, attempts: nat -> Attempt, n: nat): (im: Image)
    requires n <= |plans| && forall i :: 0 <= i < |plans| ==> plans[i].entry < |start.entries|
    ensures |im.entries| == |start.entries|
  {
    if n == 0 then start
    else
      var im, p := Forward(start, plans, attempts, n - 1), plans[n - 1];
      var e := im.entries[p.entry];
      if Skipped(p) then im.(entries := im.entries[p.entry := e.(ok := true)])
      else Image(Poke(im.mem, p.address, p.value, attempts(n - 1).write),
                 im.entries[p.entry := e.(after := p.value, changed := true, ok := true)], im.patched + 1)
  }

  /** Memory right after the write of plan n, whether or not it failed. */
  function Written(start: Image, plans: seq<Plan>, attempts: nat -> Attempt, n: nat): Memory
    requires n < |plans| && forall i :: 0 <= i < |plans| ==> plans[i].entry < |start.entries|
  {
    Poke(Forward(start, plans, attempts, n).mem, plans[n].address, plans[n].value, attempts(n).write)
  }

  /** Plan n fails: its write, the read behind it, or the comparison. */
  predicate Fails(start: Image, plans: seq<Plan>, attempts: nat -> Attempt, n: nat)
    requires n < |plans| && forall i :: 0 <= i < |plans| ==> plans[i].entry < |start.entries|
  {
    var m, p := Written(start, plans, attempts, n), plans[n];
    !Skipped(p) && (!attempts(n).write.ok || !attempts(n).readOK || p.address !in m || m[p.address] != p.value)
  }

  /** rollbackAuctionMemoryPatches down to plan n; plans from `last` on were not written. */
  function Back(im: Image, plans: seq<Plan>, rollbacks: nat -> Write, n: nat, last: nat): (r: Image)
    requires n <= last <= |plans| && forall i :: 0 <= i < |plans| ==> plans[i].entry < |im.entries|
    ensures |r.entries| == |im.entries|
    decreases last - n
  {
    if n == last then im
    else
      var r, p, w := Back(im, plans, rollbacks, n + 1, last), plans[n], rollbacks(n);
      if Skipped(p) then r
      else
        var e := r.entries[p.entry];
        Image(Poke(r.mem, p.address, p.before, w),
              if w.ok then r.entries[p.entry := e.(after := p.before, changed := false, ok := false)] else r.entries, 0)
  }

  // ----- what memory holds -----

  /** Some forward write up to plan n reached this address, or some rollback write from n on. */
  ghost predicate Changed(plans: seq<Plan>, attempts: nat -> Attempt, n: nat, a: Addr) {
    exists i :: 0 <= i < n && i < |plans| && !Skipped(plans[i]) && plans[i].address == a && attempts(i).write.effective
  }

  ghost predicate Restored(plans: seq<Plan>, rollbacks: nat -> Write, n: nat, last: nat, a: Addr) {
    exists i :: n <= i < last && i < |plans| && !Skipped(plans[i]) && plans[i].address == a && rollbacks(i).effective
  }

  ghost predicate PlansAgree(plans: seq<Plan>) {
    forall i, j :: 0 <= i < |plans| && 0 <= j < |plans| && plans[i].address == plans[j].address ==>
      plans[i].value == plans[j].value
  }

  lemma {:induction false} ForwardMemory(start: Image, plans: seq<Plan>, attempts: nat -> Attempt, n: nat, a: Addr)
    requires PlansFit(start.mem, plans, start.entries) && n <= |plans| && a in start.mem
    ensures var im := Forward(start, plans, attempts, n);
      && im.mem.Keys == start.mem.Keys
      && (!Changed(plans, attempts, n, a) ==> im.mem[a] == start.mem[a])
      && (Changed(plans, attempts, n, a) ==>
            exists i :: 0 <= i < n && !Skipped(plans[i]) && plans[i].address == a && im.mem[a] == plans[i].value)
  {
    if n > 0 {
      ForwardMemory(start, plans, attempts, n - 1, a);
      var p := plans[n - 1];
      if !Skipped(p) && p.address == a && attempts(n - 1).write.effective {
        assert Changed(plans, attempts, n, a);
        assert Forward(start, plans, attempts, n).mem[a] == plans[n - 1].value;
      } else {
        assert Changed(plans, attempts, n, a) <==> Changed(plans, attempts, n - 1, a);
      }
    }
  }

  lemma {:induction false} BackMemory(im: Image, plans: seq<Plan>, rollbacks: nat -> Write, n: nat, last: nat,
        start: Image, a: Addr)
    requires PlansFit(start.mem, plans, start.entries) && n <= last <= |plans| && |im.entries| == |start.entries|
    requires im.mem.Keys == start.mem.Keys && a in start.mem
    ensures var r := Back(im, plans, rollbacks, n, last);
      && r.mem.Keys == start.mem.Keys
      && r.mem[a] == if Restored(plans, rollbacks, n, last, a) then start.mem[a] else im.mem[a]
    decreases last - n
  {
    if n < last {
      BackMemory(im, plans, rollbacks, n + 1, last, start, a);
      var p := plans[n];
      if !Skipped(p) && p.address == a && rollbacks(n).effective {
        assert Restored(plans, rollbacks, n, last, a);
      } else {
        assert Restored(plans, rollbacks, n, last, a) <==> Restored(plans, rollbacks, n + 1, last, a);
      }
    }
  }

  /** Until plan n, nothing has failed. */
  ghost predicate FineUntil(start: Image, plans: seq<Plan>, attempts: nat -> Attempt, n: nat) {
    n <= |plans| && (forall i :: 0 <= i < |plans| ==> plans[i].entry < |start.entries|)
    && forall i :: 0 <= i < n ==> !Fails(start, plans, attempts, i)
  }

  /** If apply returns no error then every planned address holds its byte exactly when no two
      plans want different bytes at one address; and no other address is touched. */
  lemma AppliedCompletely(start: Image, plans: seq<Plan>, attempts: nat -> Attempt)
    requires PlansFit(start.mem, plans, start.entries) && FineUntil(start, plans, attempts, |plans|)
    ensures var m := Forward(start, plans, attempts, |plans|).mem;
      && m.Keys == start.mem.Keys
      && ((forall i :: 0 <= i < |plans| ==> m[plans[i].address] == plans[i].value) <==> PlansAgree(plans))
      && (forall a :: a in start.mem && (forall i :: 0 <= i < |plans| ==> plans[i].address != a) ==>
            m[a] == start.mem[a])
  {
    var m := Forward(start, plans, attempts, |plans|).mem;
    if plans != [] {
      ForwardMemory(start, plans, attempts, |plans|, plans[0].address);
    }
    forall a | a in start.mem && forall i :: 0 <= i < |plans| ==> plans[i].address != a ensures m[a] == start.mem[a] {
      ForwardMemory(start, plans, attempts, |plans|, a);
    }
    if PlansAgree(plans) {
      forall i | 0 <= i < |plans| ensures m[plans[i].address] == plans[i].value {
        ForwardMemory(start, plans, attempts, |plans|, plans[i].address);
        if !Skipped(plans[i]) && !Changed(plans, attempts, |plans|, plans[i].address) {
          ForwardMemory(start, plans, attempts, i, plans[i].address);
          assert !Fails(start, plans, attempts, i) && !attempts(i).write.effective;
        }
      }
    }
  }

  /** What apply leaves in memory when plan k fails. */
  function RolledBack(start: Image, plans: seq<Plan>, attempts: nat -> Attempt, rollbacks: nat -> Write,
        k: nat): (r: Image)
    requires k < |plans| && forall i :: 0 <= i < |plans| ==> plans[i].entry < |start.entries|
    ensures |r.entries| == |start.entries|
  {
    var im := Forward(start, plans, attempts, k).(mem := Written(start, plans, attempts, k));
    Back(im, plans, rollbacks, 0, k + 1)
  }

  lemma WrittenMemory(start: Image, plans: seq<Plan>, attempts: nat -> Attempt, k: nat, a: Addr)
    requires PlansFit(start.mem, plans, start.entries) && k < |plans| && a in start.mem && !Skipped(plans[k])
    ensures var m := Written(start, plans, attempts, k);
      && m.Keys == start.mem.Keys
      && (!Changed(plans, attempts, k + 1, a) ==> m[a] == start.mem[a])
      && (Changed(plans, attempts, k + 1, a) ==>
            exists i :: 0 <= i <= k && !Skipped(plans[i]) && plans[i].address == a && m[a] == plans[i].value)
  {
    ForwardMemory(start, plans, attempts, k + 1, a);
    hide Changed;
  }

  /** After a failure an address has its old byte exactly when no write had reached it, or some
      rollback write did. */
  lemma AddressRestored(start: Image, plans: seq<Plan>, attempts: nat -> Attempt, rollbacks: nat -> Write, k: nat,
        a: Addr)
    requires PlansFit(start.mem, plans, start.entries) && k < |plans| && !Skipped(plans[k]) && a in start.mem
    ensures var m := RolledBack(start, plans, attempts, rollbacks, k).mem;
      && m.Keys == start.mem.Keys
      && (m[a] == start.mem[a] <==> !Changed(plans, attempts, k + 1, a) || Restored(plans, rollbacks, 0, k + 1, a))
  {
    var im := Forward(start, plans, attempts, k).(mem := Written(start, plans, attempts, k));
    WrittenMemory(start, plans, attempts, k, a);
    BackMemory(im, plans, rollbacks, 0, k + 1, start, a);
    hide Changed, Restored, Written, Forward, Back;
  }

  /** All or nothing: when every rollback write takes effect, memory is exactly as before. */
  lemma FailureRestoresMemory(start: Image, plans: seq<Plan>, attempts: nat -> Attempt, rollbacks: nat -> Write, k: nat)
    requires PlansFit(start.mem, plans, start.entries) && k < |plans| && Fails(start, plans, attempts, k)
    requires forall i :: 0 <= i <= k && !Skipped(plans[i]) ==> rollbacks(i).effective
    ensures RolledBack(start, plans, attempts, rollbacks, k).mem == start.mem
  {
    var m := RolledBack(start, plans, attempts, rollbacks, k).mem;
    AddressRestored(start, plans, attempts, rollbacks, k, plans[k].address);
    forall a | a in start.mem ensures m[a] == start.mem[a] {
      AddressRestored(start, plans, attempts, rollbacks, k, a);
      if Changed(plans, attempts, k + 1, a) {
        var i :| 0 <= i < k + 1 && !Skipped(plans[i]) && plans[i].address == a && attempts(i).write.effective;
        assert Restored(plans, rollbacks, 0, k + 1, a);
      }
    }
    hide RolledBack;
  }

  // ----- what the report says -----

  lemma {:induction false} ForwardEntry(start: Image, plans: seq<Plan>, attempts: nat -> Attempt, n: nat, i: nat)
    requires PlansFit(start.mem, plans, start.entries) && n <= |plans| && i < |plans|
    ensures var e := Forward(start, plans, attempts, n).entries[plans[i].entry];
      && (i >= n ==> e == start.entries[plans[i].entry])
      && (i < n ==>
            && e.after == plans[i].value && e.ok
            && (e.changed <==> !Skipped(plans[i]) || start.entries[plans[i].entry].changed))
  {
    if n > 0 {
      ForwardEntry(start, plans, attempts, n - 1, i);
    }
  }

  lemma {:induction false} BackEntry(im: Image, plans: seq<Plan>, rollbacks: nat -> Write, n: nat, last: nat,
        start: Image, i: nat)
    requires PlansFit(start.mem, plans, start.entries) && n <= last <= |plans| && |im.entries| == |start.entries|
    requires i < |plans|
    ensures var e := Back(im, plans, rollbacks, n, last).entries[plans[i].entry];
      if n <= i < last && !Skipped(plans[i]) && rollbacks(i).ok
      then e.after == plans[i].before && !e.changed && !e.ok
      else e == im.entries[plans[i].entry]
    decreases last - n
  {
    if n < last {
      BackEntry(im, plans, rollbacks, n + 1, last, start, i);
    }
  }

  /** After a success the report shows for every plan what memory holds. */
  lemma ReportAfterSuccess(start: Image, plans: seq<Plan>, attempts: nat -> Attempt, i: nat)
    requires PlansFit(start.mem, plans, start.entries) && FineUntil(start, plans, attempts, |plans|)
    requires PlansAgree(plans) && i < |plans|
    ensures var im := Forward(start, plans, attempts, |plans|); var e := im.entries[plans[i].entry];
      e.ok && plans[i].address in im.mem && e.after == plans[i].value == im.mem[plans[i].address]
  {
    AppliedCompletely(start, plans, attempts);
    ForwardEntry(start, plans, attempts, |plans|, i);
  }

  ghost predicate AddressesDistinct(plans: seq<Plan>) {
    forall i, j :: 0 <= i < j < |plans| ==> plans[i].address != plans[j].address
  }

  /** After a failure at plan k the report shows what memory holds exactly when: an entry reported
      as rolled back was, and an entry whose rollback failed was not touched by it - or, at the
      plan that failed, had not been touched before either. */
  lemma ReportAfterFailure(start: Image, plans: seq<Plan>, attempts: nat -> Attempt, rollbacks: nat -> Write, k: nat,
        i: nat)
    requires PlansFit(start.mem, plans, start.entries) && AddressesDistinct(plans)
    requires k < |plans| && i < |plans| && FineUntil(start, plans, attempts, k) && Fails(start, plans, attempts, k)
    ensures var r := RolledBack(start, plans, attempts, rollbacks, k);
      && plans[i].address in r.mem
      && (r.entries[plans[i].entry].after == r.mem[plans[i].address] <==>
            || Skipped(plans[i]) || i > k
            || (if rollbacks(i).ok || i == k then rollbacks(i).effective || !attempts(i).write.effective
                else !rollbacks(i).effective))
  {
    var a, im := plans[i].address, Forward(start, plans, attempts, k).(mem := Written(start, plans, attempts, k));
    AddressRestored(start, plans, attempts, rollbacks, k, a);
    ForwardEntry(start, plans, attempts, k, i);
    BackEntry(im, plans, rollbacks, 0, k + 1, start, i);
    OnlyOnePlan(plans, attempts, rollbacks, k, i);
    if i < k && !Skipped(plans[i]) {
      CompletedTookEffect(start, plans, attempts, i);
      WrittenMemory(start, plans, attempts, k, a);
      BackMemory(im, plans, rollbacks, 0, k + 1, start, a);
    }
    hide Changed, Restored, Forward, Back, Written, Fails;
  }

  lemma CompletedTookEffect(start: Image, plans: seq<Plan>, attempts: nat -> Attempt, i: nat)
    requires PlansFit(start.mem, plans, start.entries) && AddressesDistinct(plans)
    requires i < |plans| && !Skipped(plans[i]) && !Fails(start, plans, attempts, i)
    ensures attempts(i).write.effective
  {
    var a := plans[i].address;
    ForwardMemory(start, plans, attempts, i, a);
    assert !Changed(plans, attempts, i, a);
    hide Forward, Changed;
  }

  /** What success takes: every byte that has to change is written without an error, the write takes
      effect, and the byte can be read back. */
  lemma FineMeans(start: Image, plans: seq<Plan>, attempts: nat -> Attempt, n: nat)
    requires PlansFit(start.mem, plans, start.entries) && AddressesDistinct(plans) && n <= |plans|
    ensures FineUntil(start, plans, attempts, n) <==> forall i :: 0 <= i < n && plans[i].before != plans[i].value ==>
      attempts(i).write.ok && attempts(i).write.effective && attempts(i).readOK
  {
    forall i | 0 <= i < n
      ensures Fails(start, plans, attempts, i) <==>
        && plans[i].before != plans[i].value
        && !(attempts(i).write.ok && attempts(i).write.effective && attempts(i).readOK)
    {
      ForwardMemory(start, plans, attempts, i, plans[i].address);
      assert !Changed(plans, attempts, i, plans[i].address);
      hide Forward, Changed;
    }
    hide Fails, AddressesDistinct;
  }

  lemma OnlyOnePlan(plans: seq<Plan>, attempts: nat -> Attempt, rollbacks: nat -> Write, k: nat, i: nat)
    requires AddressesDistinct(plans) && k < |plans| && i < |plans|
    ensures Changed(plans, attempts, k + 1, plans[i].address) <==>
      i <= k && !Skipped(plans[i]) && attempts(i).write.effective
    ensures Restored(plans, rollbacks, 0, k + 1, plans[i].address) <==>
      i <= k && !Skipped(plans[i]) && rollbacks(i).effective
  {
  }

  // ----- locating -----

  /** isSupportedAuctionPatchOriginal. */
  predicate Supported(s: Spec, b: Byte) {
    (s.levelRange && 0 < b < s.value) || b == s.original || b in s.alternates
  }

  /** patchPatternMatch: the pattern, but at the target any supported original or the new value. */
  predicate PatternMatch(window: seq<Byte>, s: Spec) {
    && |window| == |s.pattern| && s.targetOffset < |s.pattern|
    && (window[s.targetOffset] == s.value || Supported(s, window[s.targetOffset]))
    && window[..s.targetOffset] == s.pattern[..s.targetOffset]
    && window[s.targetOffset + 1..] == s.pattern[s.targetOffset + 1..]
  }

  method IsSupportedOriginal(s: Spec, b: Byte) returns (r: bool)
    ensures r == Supported(s, b)
  {
    if s.levelRange && b > 0 && b < s.value {
      return true;
    }
    if b == s.original {
      return true;
    }
    var i := 0;
    while i < |s.alternates|
      invariant 0 <= i <= |s.alternates| && b !in s.alternates[..i]
    {
      if b == s.alternates[i] {
        return true;
      }
      i := i + 1;
    }
    r := false;
  }

  /** An executable segment: where it starts, its size in the maps file, and what reading it gives. */
  datatype Segment = Segment(start: Addr, size: int, readOK: bool, data: seq<Byte>)

  const MAX_SEGMENT: int := 64 * 1024 * 1024

  predicate Scanned(g: Segment) { 0 < g.size <= MAX_SEGMENT }

  function Window(g: Segment, s: Spec, off: nat): seq<Byte>
    requires off + |s.pattern| <= |g.data|
  {
    g.data[off..off + |s.pattern|]
  }

  /** The addresses matched in a segment at offsets below n. */
  function MatchesIn(g: Segment, s: Spec, n: nat): seq<int> {
    if n == 0 || n - 1 + |s.pattern| > |g.data| then (if n == 0 then [] else MatchesIn(g, s, n - 1))
    else
      var here := if PatternMatch(Window(g, s, n - 1), s) then [g.start + n - 1 + s.targetOffset] else [];
      MatchesIn(g, s, n - 1) + here
  }

  function SegmentMatches(g: Segment, s: Spec): seq<int> {
    if Scanned(g) && g.readOK then MatchesIn(g, s, |g.data|) else []
  }

  /** All matches in the first n segments. */
  function Matches(gs: seq<Segment>, s: Spec, n: nat): seq<int>
    requires n <= |gs|
  {
    if n == 0 then [] else Matches(gs, s, n - 1) + SegmentMatches(gs[n - 1], s)
  }

  datatype Located = At(address: int) | NotLocated

  predicate ValidSpec(s: Spec) { s.targetOffset < |s.pattern| }

  ghost predicate Readable(gs: seq<Segment>) {
    forall i :: 0 <= i < |gs| && Scanned(gs[i]) ==> gs[i].readOK
  }

  lemma {:induction false} MatchesPrefix(gs: seq<Segment>, s: Spec, n: nat, m: nat)
    requires n <= m <= |gs|
    ensures Matches(gs, s, n) <= Matches(gs, s, m)
    decreases m - n
  {
    if n < m { MatchesPrefix(gs, s, n, m - 1); }
  }

  lemma {:induction false} MatchesInPrefix(g: Segment, s: Spec, n: nat, m: nat)
    requires n <= m
    ensures MatchesIn(g, s, n) <= MatchesIn(g, s, m)
    decreases m - n
  {
    if n < m { MatchesInPrefix(g, s, n, m - 1); }
  }

  lemma {:induction false} MatchesBeyond(g: Segment, s: Spec, n: nat, m: nat)
    requires n <= m && n + |s.pattern| > |g.data|
    ensures MatchesIn(g, s, m) == MatchesIn(g, s, n)
    decreases m - n
  {
    if n < m { MatchesBeyond(g, s, n, m - 1); }
  }

  /** The scan of one segment, which stops at the second match of all. */
  method ScanSegment(g: Segment, s: Spec, found: seq<int>) returns (matches: seq<int>)
    requires |found| <= 1 && ValidSpec(s)
    ensures matches <= found + MatchesIn(g, s, |g.data|)
    ensures |matches| <= 1 ==> matches == found + MatchesIn(g, s, |g.data|)
  {
    hide PatternMatch;
    matches := found;
    var off := 0;
    while off + |s.pattern| <= |g.data|
      invariant 0 <= off <= |g.data| && matches == found + MatchesIn(g, s, off) && |matches| <= 1
      decreases |g.data| - off
    {
      if PatternMatch(g.data[off..off + |s.pattern|], s) {
        matches := matches + [g.start + off + s.targetOffset];
        if |matches| > 1 {
          MatchesInPrefix(g, s, off + 1, |g.data|);
          assert matches == found + MatchesIn(g, s, off + 1);
          return;
        }
      }
      off := off + 1;
    }
    MatchesBeyond(g, s, off, |g.data|);
  }

  /** Every segment that is scanned can be read, and the pattern occurs once in all of them together. */
  ghost predicate Locatable(gs: seq<Segment>, s: Spec) {
    ValidSpec(s) && Readable(gs) && |Matches(gs, s, |gs|)| == 1
  }

  /** locateAuctionPatchAddress finds an address exactly when the spec is locatable. */
  method Locate(gs: seq<Segment>, s: Spec) returns (r: Located)
    ensures r.At? <==> Locatable(gs, s)
    ensures r.At? ==> Matches(gs, s, |gs|) == [r.address]
  {
    hide PatternMatch, MatchesIn;
    if s.targetOffset >= |s.pattern| {
      return NotLocated;
    }
    var matches: seq<int> := [];
    var i := 0;
    while i < |gs|
      invariant 0 <= i <= |gs| && matches == Matches(gs, s, i) && |matches| <= 1
      invariant forall j :: 0 <= j < i && Scanned(gs[j]) ==> gs[j].readOK
    {
      var g := gs[i];
      i := i + 1;
      if g.size <= 0 || g.size > MAX_SEGMENT {
        continue;
      }
      if !g.readOK {
        return NotLocated;
      }
      matches := ScanSegment(g, s, matches);
      if |matches| > 1 {
        MatchesPrefix(gs, s, i, |gs|);
        return NotLocated;
      }
    }
    if |matches| == 0 {
      return NotLocated;
    }
    r := At(matches[0]);
  }

  /** The byte at an address, or -1. */
  function ByteAt(mem: Memory, a: int): int {
    if a in mem then mem[a] else -1
  }

  /** Memory shows these bytes from an address on. */
  ghost predicate Shows(mem: Memory, bytes: seq<Byte>, from: int) {
    forall k :: 0 <= k < |bytes| ==> ByteAt(mem, from + k) == bytes[k]
  }

  /** Within the bytes of this segment memory shows the pattern around the address: all its bytes, but at
      the target the new byte, the expected one, an alternate, or with a level range any smaller one. */
  ghost predicate OccursIn(mem: Memory, s: Spec, g: Segment, address: int) {
    var from, b := address - s.targetOffset, ByteAt(mem, address);
    && g.start <= from && from + |s.pattern| <= g.start + |g.data|
    && (forall k :: 0 <= k < |s.pattern| && k != s.targetOffset ==> ByteAt(mem, from + k) == s.pattern[k])
    && (b == s.value || b == s.original || b in s.alternates || (s.levelRange && 0 < b < s.value))
  }

  lemma WindowMatches(mem: Memory, g: Segment, s: Spec, off: nat)
    requires Shows(mem, g.data, g.start) && ValidSpec(s) && off + |s.pattern| <= |g.data|
    ensures PatternMatch(Window(g, s, off), s) <==> OccursIn(mem, s, g, g.start + off + s.targetOffset)
  {
    var window, from := Window(g, s, off), g.start + off;
    forall k | 0 <= k < |s.pattern| ensures ByteAt(mem, from + k) == window[k] {
      assert ByteAt(mem, g.start + (off + k)) == g.data[off + k];
      assert from + k == g.start + (off + k);
    }
    hide ByteAt, Shows;
    if PatternMatch(window, s) {
      forall k | 0 <= k < |s.pattern| && k != s.targetOffset ensures window[k] == s.pattern[k] {
        if k < s.targetOffset {
          assert window[..s.targetOffset][k] == s.pattern[..s.targetOffset][k];
        } else {
          var rest := s.targetOffset + 1;
          assert window[rest..][k - rest] == s.pattern[rest..][k - rest];
        }
      }
    }
  }

  lemma OccursWithin(mem: Memory, g: Segment, s: Spec, address: int)
    ensures OccursIn(mem, s, g, address) ==> 0 <= address - s.targetOffset - g.start <= |g.data| - |s.pattern|
  {
  }

  lemma MatchesInStep(g: Segment, s: Spec, n: nat, address: int)
    ensures address !in MatchesIn(g, s, 0)
    ensures address in MatchesIn(g, s, n + 1) <==>
      || address in MatchesIn(g, s, n)
      || (n + |s.pattern| <= |g.data| && address == g.start + n + s.targetOffset && PatternMatch(Window(g, s, n), s))
  {
    hide PatternMatch, Window;
  }

  lemma {:induction false} MatchesInAre(mem: Memory, g: Segment, s: Spec, n: nat, address: int)
    requires Shows(mem, g.data, g.start) && ValidSpec(s)
    ensures address in MatchesIn(g, s, n) <==>
      OccursIn(mem, s, g, address) && address - s.targetOffset - g.start < n
  {
    hide PatternMatch, Shows, Window, OccursIn, MatchesIn;
    OccursWithin(mem, g, s, address);
    MatchesInStep(g, s, if n > 0 then n - 1 else 0, address);
    if n > 0 {
      MatchesInAre(mem, g, s, n - 1, address);
      if n - 1 + |s.pattern| <= |g.data| {
        WindowMatches(mem, g, s, n - 1);
      }
    }
  }

  /** The segment is scanned, that is, of at most 64 MiB, it could be read, and memory shows the pattern
      around the address within it. */
  ghost predicate ListedIn(mem: Memory, s: Spec, g: Segment, address: int) {
    0 < g.size <= 67108864 && g.readOK && OccursIn(mem, s, g, address)
  }

  lemma SegmentMatchesAre(mem: Memory, g: Segment, s: Spec, address: int)
    requires Shows(mem, g.data, g.start) && ValidSpec(s)
    ensures address in SegmentMatches(g, s) <==> ListedIn(mem, s, g, address)
  {
    hide MatchesIn, Shows;
    MatchesInAre(mem, g, s, |g.data|, address);
  }

  /** The scan lists an address exactly when some segment that was scanned and read shows the pattern. */
  lemma {:induction false} MatchesAre(mem: Memory, gs: seq<Segment>, s: Spec, n: nat, address: int)
    requires n <= |gs| && (forall i :: 0 <= i < |gs| ==> Shows(mem, gs[i].data, gs[i].start)) && ValidSpec(s)
    ensures address in Matches(gs, s, n) <==> exists i :: 0 <= i < n && ListedIn(mem, s, gs[i], address)
  {
    hide Shows, ListedIn, SegmentMatches;
    if n > 0 {
      MatchesAre(mem, gs, s, n - 1, address);
      SegmentMatchesAre(mem, gs[n - 1], s, address);
    }
  }

  /** Around this address memory holds the pattern. */
  ghost predicate Holds(mem: Memory, s: Spec, address: int) {
    exists window :: PatternMatch(window, s) && Shows(mem, window, address - s.targetOffset)
  }

  lemma {:induction false} MatchHolds(mem: Memory, g: Segment, s: Spec, n: nat, address: int)
    requires Shows(mem, g.data, g.start) && ValidSpec(s) && address in MatchesIn(g, s, n)
    ensures Holds(mem, s, address)
  {
    if address in MatchesIn(g, s, n - 1) {
      MatchHolds(mem, g, s, n - 1, address);
    } else {
      var window := Window(g, s, n - 1);
      ShowsPart(mem, g.data, g.start, n - 1, n - 1 + |s.pattern|);
      hide PatternMatch, Shows;
      assert PatternMatch(window, s) && Shows(mem, window, g.start + (n - 1));
      assert address - s.targetOffset == g.start + (n - 1);
    }
  }

  lemma ShowsPart(mem: Memory, bytes: seq<Byte>, from: int, lo: nat, hi: nat)
    requires Shows(mem, bytes, from) && lo <= hi <= |bytes|
    ensures Shows(mem, bytes[lo..hi], from + lo)
  {
    var part := bytes[lo..hi];
    hide ByteAt;
    forall k | 0 <= k < |part| ensures ByteAt(mem, from + lo + k) == part[k] {
      var b := bytes[lo + k];
      assert ByteAt(mem, from + (lo + k)) == b;
      assert from + (lo + k) == from + lo + k;
    }
  }

  /** When the segments read are what memory holds, memory holds the pattern at a located address. */
  lemma {:induction false} LocatedHolds(mem: Memory, gs: seq<Segment>, s: Spec, n: nat, address: int)
    requires n <= |gs| && (forall i :: 0 <= i < |gs| ==> Shows(mem, gs[i].data, gs[i].start))
    requires ValidSpec(s) && address in Matches(gs, s, n)
    ensures Holds(mem, s, address)
  {
    if address in Matches(gs, s, n - 1) {
      LocatedHolds(mem, gs, s, n - 1, address);
    } else {
      MatchHolds(mem, gs[n - 1], s, |gs[n - 1].data|, address);
    }
  }

  const SPECS: seq<Spec> := [
    Spec(0x07, [], false, 0x7f,
         [0x45, 0x0c, 0x88, 0x45, 0xfc, 0x80, 0x7d, 0xfc, 0x00, 0x76, 0x07, 0xb8, 0x00, 0x00, 0x00, 0x00], 8),
    Spec(0x46, [0x55], true, 0x7f,
         [0x8b, 0x45, 0x20, 0x8b, 0x40, 0x14, 0x83, 0xf8, 0x00, 0x7e, 0x0a, 0xb8, 0x1b, 0x00, 0x00, 0x00], 8),
    Spec(0x07, [], false, 0x7f,
         [0x45, 0x0c, 0x88, 0x45, 0xfc, 0x80, 0x7d, 0xfc, 0x00, 0x0f, 0x96, 0xc0, 0xc9, 0xc3, 0x90, 0x55], 8),
    Spec(0x46, [0x55], true, 0x7f,
         [0x8b, 0x45, 0x0c, 0x8b, 0x40, 0x0c, 0x83, 0xf8, 0x00, 0x7f, 0x07, 0xb8, 0x01, 0x00, 0x00, 0x00], 8),
    Spec(0x46, [0x55], true, 0x7f,
         [0x8b, 0x45, 0x0c, 0x0f, 0xb6, 0x40, 0x09, 0x3c, 0x00, 0x77, 0x0b, 0x8b, 0x45, 0x0c, 0x0f, 0xb6], 8),
    Spec(0x46, [0x55], true, 0x7f,
         [0x8b, 0x45, 0x0c, 0x0f, 0xb6, 0x40, 0x0a, 0x3c, 0x00, 0x76, 0x0a, 0xb8, 0x1b, 0x00, 0x00, 0x00], 8)]

  /** The six patterns differ outside their targets: no two specs are ever located at one address. */
  lemma SpecsNeverShareAnAddress(mem: Memory, i: nat, j: nat, address: int)
    requires i < |SPECS| && j < |SPECS| && Holds(mem, SPECS[i], address) && Holds(mem, SPECS[j], address)
    ensures i == j
  {
    var v :| PatternMatch(v, SPECS[i]) && Shows(mem, v, address - SPECS[i].targetOffset);
    var w :| PatternMatch(w, SPECS[j]) && Shows(mem, w, address - SPECS[j].targetOffset);
    Distinguished(v, i);
    Distinguished(w, j);
    hide PatternMatch;
    assert v[9] == w[9] && v[2] == w[2];
  }

  /** The bytes at 2 and 9 tell which pattern it is. */
  lemma Distinguished(window: seq<Byte>, i: nat)
    requires i < |SPECS| && PatternMatch(window, SPECS[i])
    ensures |window| == 16 && SPECS[i].targetOffset == 8
    ensures window[9] == [0x76, 0x7e, 0x0f, 0x7f, 0x77, 0x76][i] && window[2] == [0x88, 0x20, 0x88, 0x0c, 0x0c, 0x0c][i]
  {
    var p := SPECS[i].pattern;
    assert |p| == 16 && SPECS[i].targetOffset == 8;
    assert window[..8][2] == p[..8][2] && window[9..][0] == p[9..][0];
  }

  // ----- the patch as a whole -----

  /** At a located address there is a supported original byte or the new one, so that the check of
      the byte in the preflight cannot fail while nobody else writes to the process. */
  lemma TargetSupported(mem: Memory, s: Spec, address: int)
    requires Holds(mem, s, address)
    ensures address in mem && (mem[address] == s.value || Supported(s, mem[address]))
  {
    var window :| PatternMatch(window, s) && Shows(mem, window, address - s.targetOffset);
    var b := window[s.targetOffset];
    assert ByteAt(mem, address - s.targetOffset + s.targetOffset) == b;
  }

  /** The plans of a preflight that found nothing to object to. */
  ghost predicate AllPlanned(mem: Memory, plans: seq<Plan>, entries: seq<Entry>, n: nat)
    requires n <= |SPECS|
  {
    && |plans| == |entries| == n && PlansFit(mem, plans, entries)
    && forall i :: 0 <= i < n ==>
         plans[i].entry == i && plans[i].value == SPECS[i].value && Holds(mem, SPECS[i], plans[i].address)
  }

  lemma PlannedApart(mem: Memory, plans: seq<Plan>, entries: seq<Entry>)
    requires AllPlanned(mem, plans, entries, |SPECS|)
    ensures AddressesDistinct(plans) && PlansAgree(plans)
  {
    forall i, j | 0 <= i < |plans| && 0 <= j < |plans| && plans[i].address == plans[j].address ensures i == j {
      SpecsNeverShareAnAddress(mem, i, j, plans[i].address);
    }
  }

  lemma PlannedOneMore(mem: Memory, plans: seq<Plan>, entries: seq<Entry>, n: nat, e: Entry, p: Plan)
    requires n < |SPECS| && AllPlanned(mem, plans, entries, n)
    requires Examined(mem, SPECS[n], n, e, p)
    ensures AllPlanned(mem, plans + [p], entries + [e], n + 1)
  {
    hide Holds;
  }

  /** The first n specs are locatable, and their bytes can be read. */
  ghost predicate AllLocatable(gs: seq<Segment>, readable: nat -> bool, n: nat)
    requires n <= |SPECS|
  {
    forall i :: 0 <= i < n ==> readable(i) && Locatable(gs, SPECS[i])
  }

  lemma LocatableStep(gs: seq<Segment>, readable: nat -> bool, n: nat)
    requires n < |SPECS|
    ensures AllLocatable(gs, readable, 0)
    ensures AllLocatable(gs, readable, n + 1) <==>
      AllLocatable(gs, readable, n) && readable(n) && Locatable(gs, SPECS[n])
  {
    hide Locatable;
  }

  lemma PlannedNone(mem: Memory)
    ensures AllPlanned(mem, [], [], 0)
  {
  }

  ghost predicate Examined(mem: Memory, s: Spec, i: nat, e: Entry, p: Plan) {
    && Holds(mem, s, p.address) && p.address in mem && mem[p.address] == p.before
    && p.value == s.value && p.entry == i && e.after == p.before
  }

  /** Locate one spec, read its byte, and check it. */
  method Examine(mem: Memory, gs: seq<Segment>, s: Spec, i: nat, readable: bool)
    returns (found: bool, e: Entry, p: Plan)
    requires forall i :: 0 <= i < |gs| ==> Shows(mem, gs[i].data, gs[i].start)
    ensures found ==> Examined(mem, s, i, e, p)
    ensures found <==> readable && Locatable(gs, s)
  {
    found, e, p := false, Entry(0, 0, false, false), Plan(0, 0, 0, 0);
    var r := Locate(gs, s);
    if r.NotLocated? || !readable {
      return;
    }
    LocatedHolds(mem, gs, s, |gs|, r.address);
    TargetSupported(mem, s, r.address);
    hide Holds, Supported, Locatable;
    var before := mem[r.address];
    var supported := IsSupportedOriginal(s, before);
    if before != s.value && !supported {
      e := Entry(before, before, false, false);
      return;
    }
    found, e, p := true, Entry(before, before, false, before == s.value), Plan(s.value, i, r.address, before);
  }

  class Patcher {
    var mem: Memory
    var entries: seq<Entry>

    method WriteByte(address: Addr, value: Byte, w: Write) returns (ok: bool)
      modifies this`mem
      ensures mem == Poke(old(mem), address, value, w) && ok == w.ok
    {
      if w.effective {
        mem := mem[address := value];
      }
      ok := w.ok;
    }

    /** Undo the plans before `last` that were written, the last one first. */
    method Rollback(plans: seq<Plan>, rollbacks: nat -> Write, last: nat)
      requires last <= |plans| && forall i :: 0 <= i < |plans| ==> plans[i].entry < |entries|
      modifies this
      ensures var r := Back(Image(old(mem), old(entries), 0), plans, rollbacks, 0, last);
        mem == r.mem && entries == r.entries
    {
      ghost var start := Image(mem, entries, 0);
      var i := last;
      while i > 0
        invariant 0 <= i <= last && |entries| == |start.entries|
        invariant var r := Back(start, plans, rollbacks, i, last); mem == r.mem && entries == r.entries
      {
        i := i - 1;
        var p := plans[i];
        if p.before == p.value {
          continue;
        }
        var ok := WriteByte(p.address, p.before, rollbacks(i));
        if ok {
          entries := entries[p.entry := entries[p.entry].(after := p.before, changed := false, ok := false)];
        }
      }
    }

    /** applyAuctionMemoryPatches; `bad` is the plan that failed, if any. */
    method Apply(plans: seq<Plan>, attempts: nat -> Attempt, rollbacks: nat -> Write)
      returns (patched: nat, ok: bool, ghost bad: nat)
      requires PlansFit(mem, plans, entries)
      modifies this
      ensures ok ==>
        && FineUntil(Image(old(mem), old(entries), 0), plans, attempts, |plans|)
        && Image(mem, entries, patched) == Forward(Image(old(mem), old(entries), 0), plans, attempts, |plans|)
      ensures !ok ==>
        && patched == 0 && bad < |plans|
        && FineUntil(Image(old(mem), old(entries), 0), plans, attempts, bad)
        && Fails(Image(old(mem), old(entries), 0), plans, attempts, bad)
        && var r := RolledBack(Image(old(mem), old(entries), 0), plans, attempts, rollbacks, bad);
           mem == r.mem && entries == r.entries
    {
      ghost var start := Image(mem, entries, 0);
      PlansFitMeans(start, plans);
      hide PlansFit, Back, RolledBack, Forward, Written, Fails, Poke, FineUntil;
      ForwardNone(start, plans, attempts);
      patched, ok, bad := 0, true, 0;
      var i := 0;
      while i < |plans|
        invariant 0 <= i <= |plans| && FineUntil(start, plans, attempts, i)
        invariant Image(mem, entries, patched) == Forward(start, plans, attempts, i)
      {
        var p := plans[i];
        ForwardOne(start, plans, attempts, i);
        if p.before == p.value {
          entries := entries[p.entry := entries[p.entry].(ok := true)];
          i := i + 1;
          continue;
        }
        var held := WriteAndVerify(p, attempts(i));
        if !held {
          RolledBackIs(start, plans, attempts, rollbacks, i, Image(mem, entries, 0));
          Rollback(plans, rollbacks, i + 1);
          return 0, false, i;
        }
        entries := entries[p.entry := entries[p.entry].(after := p.value, changed := true, ok := true)];
        patched := patched + 1;
        i := i + 1;
      }
    }

    /** The write of one plan and the read that checks it. */
    method WriteAndVerify(p: Plan, a: Attempt) returns (ok: bool)
      modifies this`mem
      ensures mem == Poke(old(mem), p.address, p.value, a.write)
      ensures ok <==> a.write.ok && a.readOK && p.address in mem && mem[p.address] == p.value
    {
      var written := WriteByte(p.address, p.value, a.write);
      ok := written && a.readOK && p.address in mem && mem[p.address] == p.value;
    }

    /** The specs are located and checked before anything is written. */
    method Preflight(gs: seq<Segment>, readable: nat -> bool) returns (plans: seq<Plan>, ok: bool)
      requires forall i :: 0 <= i < |gs| ==> Shows(mem, gs[i].data, gs[i].start)
      modifies this`entries
      ensures ok ==> AllPlanned(mem, plans, entries, |SPECS|)
      ensures ok <==> AllLocatable(gs, readable, |SPECS|)
    {
      entries := [];
      plans, ok := [], true;
      PlannedNone(mem);
      hide AllPlanned, AllLocatable, Locatable, Examined, Shows;
      assert AllLocatable(gs, readable, 0) by { LocatableStep(gs, readable, 0); }
      var i := 0;
      while i < |SPECS|
        invariant 0 <= i <= |SPECS| && |entries| == i
        invariant ok ==> AllPlanned(mem, plans, entries, i)
        invariant ok <==> AllLocatable(gs, readable, i)
      {
        var found, e, p := Examine(mem, gs, SPECS[i], i, readable(i));
        LocatableStep(gs, readable, i);
        if found {
          if ok { PlannedOneMore(mem, plans, entries, i, e, p); }
          plans := plans + [p];
        } else {
          ok := false;
        }
        entries := entries + [e];
        i := i + 1;
      }
    }

    /** patchAuctionMemory.  Nothing is written unless all six specs are located; then either all
        six addresses hold the new byte, or, if the rollback writes take effect, memory is as before. */
    method Patch(gs: seq<Segment>, readable: nat -> bool, attempts: nat -> Attempt, rollbacks: nat -> Write)
      returns (planned: bool, ok: bool, patched: nat, plans: seq<Plan>)
      requires forall i :: 0 <= i < |gs| ==> Shows(mem, gs[i].data, gs[i].start)
      modifies this
      ensures planned <==> AllLocatable(gs, readable, |SPECS|)
      ensures !planned ==> mem == old(mem) && ok && patched == 0
      ensures planned ==>
        (ok <==> forall i :: 0 <= i < |plans| && plans[i].before != plans[i].value ==>
          attempts(i).write.ok && attempts(i).write.effective && attempts(i).readOK)
      ensures planned ==> |plans| == |entries| == |SPECS| && forall i :: 0 <= i < |SPECS| ==>
        && Holds(old(mem), SPECS[i], plans[i].address)
        && plans[i].address in old(mem) && plans[i].before == old(mem)[plans[i].address]
        && plans[i].value == SPECS[i].value && plans[i].entry == i
      ensures mem.Keys == old(mem.Keys)
      ensures planned && ok ==> forall i :: 0 <= i < |SPECS| ==>
        && plans[i].address in mem && mem[plans[i].address] == SPECS[i].value
        && entries[i].ok && entries[i].after == SPECS[i].value
      ensures patched == if planned && ok then Writes(plans, |plans|) else 0
      ensures planned && !ok && (forall i :: 0 <= i < |SPECS| ==> rollbacks(i).ok && rollbacks(i).effective) ==>
        forall i :: 0 <= i < |SPECS| ==> entries[i].after == mem[plans[i].address]
      ensures planned && !ok && (forall i :: 0 <= i < |SPECS| ==> rollbacks(i).effective) ==> mem == old(mem)
      ensures forall a :: a in old(mem) && (forall i :: 0 <= i < |plans| ==> plans[i].address != a) ==>
        mem[a] == old(mem)[a]
    {
      plans, planned := Preflight(gs, readable);
      if !planned {
        return false, true, 0, plans;
      }
      ghost var start := Image(mem, entries, 0);
      PlannedApart(mem, plans, entries);
      ghost var bad;
      patched, ok, bad := Apply(plans, attempts, rollbacks);
      PlansFitMeans(start, plans);
      SuccessMeans(start, plans, attempts, ok, bad);
      hide Holds, PlansFit, Fails, Forward, RolledBack, Writes, FineUntil, AllLocatable, AddressesDistinct, PlansAgree;
      if ok {
        PatchSucceeds(start, plans, attempts);
      } else {
        PatchFails(start, plans, attempts, rollbacks, bad);
      }
    }
  }

  lemma PatchSucceeds(start: Image, plans: seq<Plan>, attempts: nat -> Attempt)
    requires AllPlanned(start.mem, plans, start.entries, |SPECS|) && PlansAgree(plans) && start.patched == 0
    requires FineUntil(start, plans, attempts, |plans|)
    ensures var im := Forward(start, plans, attempts, |plans|);
      && im.mem.Keys == start.mem.Keys && im.patched == Writes(plans, |plans|)
      && (forall i :: 0 <= i < |SPECS| ==>
            && plans[i].address in im.mem && im.mem[plans[i].address] == SPECS[i].value
            && im.entries[i].ok && im.entries[i].after == SPECS[i].value)
      && (forall a :: a in start.mem && (forall i :: 0 <= i < |plans| ==> plans[i].address != a) ==>
            im.mem[a] == start.mem[a])
  {
    hide Holds, PlansFit, Forward, Writes, FineUntil, PlansAgree;
    PlansFitMeans(start, plans);
    AppliedCompletely(start, plans, attempts);
    ForwardWrites(start, plans, attempts, |plans|);
    forall i | 0 <= i < |SPECS|
      ensures var im := Forward(start, plans, attempts, |plans|);
        im.entries[i].ok && im.entries[i].after == SPECS[i].value
    {
      ReportAfterSuccess(start, plans, attempts, i);
    }
  }

  lemma PatchFails(start: Image, plans: seq<Plan>, attempts: nat -> Attempt, rollbacks: nat -> Write, bad: nat)
    requires AllPlanned(start.mem, plans, start.entries, |SPECS|) && AddressesDistinct(plans)
    requires bad < |plans| && FineUntil(start, plans, attempts, bad) && Fails(start, plans, attempts, bad)
    ensures var r := RolledBack(start, plans, attempts, rollbacks, bad);
      && r.mem.Keys == start.mem.Keys
      && ((forall i :: 0 <= i < |SPECS| ==> rollbacks(i).ok && rollbacks(i).effective) ==>
            forall i :: 0 <= i < |SPECS| ==> r.entries[i].after == r.mem[plans[i].address])
      && ((forall i :: 0 <= i < |SPECS| ==> rollbacks(i).effective) ==> r.mem == start.mem)
      && (forall a :: a in start.mem && (forall i :: 0 <= i < |plans| ==> plans[i].address != a) ==>
            r.mem[a] == start.mem[a])
  {
    hide Holds, PlansFit, RolledBack, Fails, FineUntil, AddressesDistinct;
    PlansFitMeans(start, plans);
    FailureTouchesNothingElse(start, plans, attempts, rollbacks, bad);
    if forall i :: 0 <= i < |SPECS| ==> rollbacks(i).ok && rollbacks(i).effective {
      forall i | 0 <= i < |SPECS|
        ensures var r := RolledBack(start, plans, attempts, rollbacks, bad);
          r.entries[i].after == r.mem[plans[i].address]
      {
        ReportAfterFailure(start, plans, attempts, rollbacks, bad, i);
      }
    }
    if forall i :: 0 <= i < |SPECS| ==> rollbacks(i).effective {
      FailureRestoresMemory(start, plans, attempts, rollbacks, bad);
    }
  }

  lemma SuccessMeans(start: Image, plans: seq<Plan>, attempts: nat -> Attempt, ok: bool, bad: nat)
    requires PlansFit(start.mem, plans, start.entries) && AddressesDistinct(plans)
    requires ok ==> FineUntil(start, plans, attempts, |plans|)
    requires !ok ==> bad < |plans| && Fails(start, plans, attempts, bad)
    ensures ok <==> forall i :: 0 <= i < |plans| && plans[i].before != plans[i].value ==>
      attempts(i).write.ok && attempts(i).write.effective && attempts(i).readOK
  {
    FineMeans(start, plans, attempts, |plans|);
    hide PlansFit, AddressesDistinct, Fails;
  }

  /** How many of the first n plans have to be written. */
  function Writes(plans: seq<Plan>, n: nat): nat
    requires n <= |plans|
  {
    if n == 0 then 0 else Writes(plans, n - 1) + (if Skipped(plans[n - 1]) then 0 else 1)
  }

  lemma {:induction false} ForwardWrites(start: Image, plans: seq<Plan>, attempts: nat -> Attempt, n: nat)
    requires n <= |plans| && forall i :: 0 <= i < |plans| ==> plans[i].entry < |start.entries|
    ensures Forward(start, plans, attempts, n).patched == start.patched + Writes(plans, n)
  {
    if n > 0 { ForwardWrites(start, plans, attempts, n - 1); }
  }

  lemma PlansFitMeans(start: Image, plans: seq<Plan>)
    requires PlansFit(start.mem, plans, start.entries)
    ensures forall i :: 0 <= i < |plans| ==>
      && plans[i].entry < |start.entries|
      && plans[i].address in start.mem && plans[i].before == start.mem[plans[i].address]
  {
  }

  lemma FailureTouchesNothingElse(start: Image, plans: seq<Plan>, attempts: nat -> Attempt, rollbacks: nat -> Write,
        k: nat)
    requires PlansFit(start.mem, plans, start.entries) && k < |plans| && Fails(start, plans, attempts, k)
    ensures var m := RolledBack(start, plans, attempts, rollbacks, k).mem;
      && m.Keys == start.mem.Keys
      && forall a :: a in start.mem && (forall i :: 0 <= i < |plans| ==> plans[i].address != a) ==> m[a] == start.mem[a]
  {
    var m := RolledBack(start, plans, attempts, rollbacks, k).mem;
    AddressRestored(start, plans, attempts, rollbacks, k, plans[k].address);
    hide RolledBack;
    forall a | a in start.mem && forall i :: 0 <= i < |plans| ==> plans[i].address != a ensures m[a] == start.mem[a] {
      AddressRestored(start, plans, attempts, rollbacks, k, a);
    }
  }

  lemma ForwardNone(start: Image, plans: seq<Plan>, attempts: nat -> Attempt)
    requires forall i :: 0 <= i < |plans| ==> plans[i].entry < |start.entries|
    ensures Forward(start, plans, attempts, 0) == start && FineUntil(start, plans, attempts, 0)
  {
  }

  lemma ForwardOne(start: Image, plans: seq<Plan>, attempts: nat -> Attempt, i: nat)
    requires i < |plans| && forall i :: 0 <= i < |plans| ==> plans[i].entry < |start.entries|
    ensures var im, p, m := Forward(start, plans, attempts, i), plans[i], Written(start, plans, attempts, i);
      && m == Poke(im.mem, p.address, p.value, attempts(i).write)
      && Forward(start, plans, attempts, i + 1) ==
           (if p.before == p.value then im.(entries := im.entries[p.entry := im.entries[p.entry].(ok := true)])
            else
              var e := im.entries[p.entry].(after := p.value, changed := true, ok := true);
              Image(m, im.entries[p.entry := e], im.patched + 1))
      && (Fails(start, plans, attempts, i) <==>
            && p.before != p.value
            && !(attempts(i).write.ok && attempts(i).readOK && p.address in m && m[p.address] == p.value))
    ensures FineUntil(start, plans, attempts, i) && !Fails(start, plans, attempts, i) ==>
      FineUntil(start, plans, attempts, i + 1)
  {
  }

  lemma RolledBackIs(start: Image, plans: seq<Plan>, attempts: nat -> Attempt, rollbacks: nat -> Write, k: nat,
        im: Image)
    requires k < |plans| && forall i :: 0 <= i < |plans| ==> plans[i].entry < |start.entries|
    requires im.mem == Written(start, plans, attempts, k) && im.entries == Forward(start, plans, attempts, k).entries
    ensures var r, s := Back(im, plans, rollbacks, 0, k + 1), RolledBack(start, plans, attempts, rollbacks, k);
      r.mem == s.mem && r.entries == s.entries
  {
    BackIgnoresCount(im, Forward(start, plans, attempts, k).(mem := im.mem), plans, rollbacks, 0, k + 1);
  }

  lemma {:induction false} BackIgnoresCount(x: Image, y: Image, plans: seq<Plan>, rollbacks: nat -> Write, n: nat,
        last: nat)
    requires n <= last <= |plans| && forall i :: 0 <= i < |plans| ==> plans[i].entry < |x.entries|
    requires x.mem == y.mem && x.entries == y.entries
    ensures var r, s := Back(x, plans, rollbacks, n, last), Back(y, plans, rollbacks, n, last);
      r.mem == s.mem && r.entries == s.entries
    decreases last - n
  {
    if n < last { BackIgnoresCount(x, y, plans, rollbacks, n + 1, last); }
  }

  /** Patching twice is harmless: when memory holds the new bytes already, nothing is written. */
  lemma {:induction false} SecondPatchWritesNothing(start: Image, plans: seq<Plan>, attempts: nat -> Attempt, n: nat)
    requires PlansFit(start.mem, plans, start.entries) && n <= |plans|
    requires forall i :: 0 <= i < |plans| ==> start.mem[plans[i].address] == plans[i].value
    ensures Forward(start, plans, attempts, n).mem == start.mem
    ensures Forward(start, plans, attempts, n).patched == start.patched
    ensures FineUntil(start, plans, attempts, n)
  {
    if n > 0 { SecondPatchWritesNothing(start, plans, attempts, n - 1); }
  }
}
