/**
 Lists of item IDs in the configuration: decode, normalise, encode and look up, from
 internal/capability/marketapp/marketapp_config.go and marketapp_filter.go.
 */
module ItemCodec {

  type Id = x: int | 0 <= x < 0x1_0000_0000

  const MAX_ID: Id := 0xFFFF_FFFF
  const MAX_IDS: nat := 100000

  // ----- normal form -----

  ghost predicate Increasing(s: seq<Id>) {
    forall i, j :: 0 <= i < j < |s| ==> s[i] < s[j]
  }

  ghost predicate Positive(s: seq<Id>) {
    forall i :: 0 <= i < |s| ==> s[i] > 0
  }

  /** Strictly increasing, and with exactly the non-zero members of v. */
  ghost predicate NormalFormOf(s: seq<Id>, v: seq<Id>) {
    Increasing(s) && forall x :: x in s <==> x in v && x != 0
  }

  function Insert(x: Id, s: seq<Id>): seq<Id> {
    if s == [] then [x]
    else if x < s[0] then [x] + s
    else if x == s[0] then s
    else [s[0]] + Insert(x, s[1..])
  }

  /** What normalizeConfiguredItemIDs computes. */
  function Normalize(v: seq<Id>): seq<Id> {
    if v == [] then []
    else if v[|v| - 1] == 0 then Normalize(v[..|v| - 1])
    else Insert(v[|v| - 1], Normalize(v[..|v| - 1]))
  }

  lemma {:induction false} InsertKeepsOrder(x: Id, s: seq<Id>)
    requires Increasing(s)
    ensures Increasing(Insert(x, s)) && forall y :: y in Insert(x, s) <==> y == x || y in s
  {
    if s != [] && x > s[0] {
      var rest := Insert(x, s[1..]);
      InsertKeepsOrder(x, s[1..]);
      assert s == [s[0]] + s[1..];
      assert forall k :: 0 <= k < |rest| ==> rest[k] in rest;
    }
  }

  lemma {:induction false} NormalizeIsNormal(v: seq<Id>)
    ensures NormalFormOf(Normalize(v), v) && Positive(Normalize(v))
  {
    if v != [] {
      var rest, last := v[..|v| - 1], v[|v| - 1];
      NormalizeIsNormal(rest);
      InsertKeepsOrder(last, Normalize(rest));
      assert v == rest + [last];
    }
  }

  /** A list has only one normal form. */
  lemma {:induction false} NormalFormUnique(s: seq<Id>, t: seq<Id>)
    requires Increasing(s) && Increasing(t) && forall x :: x in s <==> x in t
    ensures s == t
  {
    assert s != [] ==> s[0] in s;
    assert t != [] ==> t[0] in t;
    if s != [] && t != [] {
      assert s[0] == t[0];
      var u, w := s[1..], t[1..];
      forall x ensures x in u <==> x in w {
        if x in u { assert x in s; }
        if x in w { assert x in t; }
      }
      NormalFormUnique(u, w);
      assert s == [s[0]] + u && t == [t[0]] + w;
    }
  }

  /** Normalising a normal list changes nothing. */
  lemma NormalStays(s: seq<Id>)
    requires Increasing(s) && Positive(s)
    ensures Normalize(s) == s
  {
    NormalizeIsNormal(s);
    NormalFormUnique(Normalize(s), s);
  }

  /** The order of a sort.Slice. */
  ghost predicate Ordered(s: seq<Id>) {
    forall i, j :: 0 <= i < j < |s| ==> s[i] <= s[j]
  }

  /** Where x belongs in an ordered list. */
  method Position(s: seq<Id>, x: Id) returns (k: nat)
    requires Ordered(s)
    ensures k <= |s| && Ordered(s[..k] + [x] + s[k..]) && multiset(s[..k] + [x] + s[k..]) == multiset(s) + multiset{x}
  {
    k := 0;
    while k < |s| && s[k] < x
      invariant 0 <= k <= |s| && forall j :: 0 <= j < k ==> s[j] < x
    {
      k := k + 1;
    }
    PutKeepsOrder(s, x, k);
  }

  /** sort.Slice on a copy. */
  method SortedCopy(v: seq<Id>) returns (a: array<Id>)
    ensures fresh(a) && Ordered(a[..]) && multiset(a[..]) == multiset(v)
  {
    var sorted: seq<Id> := [];
    var i := 0;
    while i < |v|
      invariant 0 <= i <= |v| && Ordered(sorted)
      invariant multiset(sorted) == multiset(v[..i])
    {
      hide Ordered;
      var k := Position(sorted, v[i]);
      assert v[..i + 1] == v[..i] + [v[i]];
      sorted := sorted[..k] + [v[i]] + sorted[k..];
      i := i + 1;
    }
    assert v[..i] == v;
    a := new Id[|sorted|](j requires 0 <= j < |sorted| => sorted[j]);
    assert a[..] == sorted;
  }

  lemma PutKeepsOrder(s: seq<Id>, x: Id, k: nat)
    requires k <= |s| && Ordered(s) && (forall j :: 0 <= j < k ==> s[j] < x) && (k < |s| ==> x <= s[k])
    ensures Ordered(s[..k] + [x] + s[k..]) && multiset(s[..k] + [x] + s[k..]) == multiset(s) + multiset{x}
  {
    PutAdds(s, x, k);
    hide Ordered;
    assert Ordered(s[..k] + [x] + s[k..]) by { PutStaysOrdered(s, x, k); }
  }

  lemma PutAdds(s: seq<Id>, x: Id, k: nat)
    requires k <= |s|
    ensures multiset(s[..k] + [x] + s[k..]) == multiset(s) + multiset{x}
  {
    assert s == s[..k] + s[k..];
  }

  lemma PutStaysOrdered(s: seq<Id>, x: Id, k: nat)
    requires k <= |s| && Ordered(s) && (forall j :: 0 <= j < k ==> s[j] < x) && (k < |s| ==> x <= s[k])
    ensures Ordered(s[..k] + [x] + s[k..])
  {
    var t := s[..k] + [x] + s[k..];
    forall i, j | 0 <= i < j < |t| ensures t[i] <= t[j] {
      assert t[i] == if i < k then s[i] else if i == k then x else s[i - 1];
      assert t[j] == if j < k then s[j] else if j == k then x else s[j - 1];
    }
  }

  lemma SameMembers(s: seq<Id>, t: seq<Id>)
    requires multiset(s) == multiset(t)
    ensures |s| == |t| && forall x :: x in s <==> x in t
  {
    assert |multiset(s)| == |s| && |multiset(t)| == |t|;
    assert forall x :: x in s <==> x in multiset(s);
    assert forall x :: x in t <==> x in multiset(t);
  }

  /** normalizeConfiguredItemIDs: sort a copy, then compact it in place. */
  method NormalizeIDs(v: seq<Id>) returns (r: seq<Id>)
    ensures r == Normalize(v)
  {
    hide Normalize, Ordered, Compacted;
    var out := SortedCopy(v);
    ghost var sorted := out[..];
    CompactNone(sorted);
    ghost var done: seq<Id> := [];
    var write, read := 0, 0;
    while read < out.Length
      invariant 0 <= write <= read <= out.Length && |done| == write
      invariant forall k :: 0 <= k < write ==> out[k] == done[k]
      invariant forall k :: read <= k < out.Length ==> out[k] == sorted[k]
      invariant Compacted(done, sorted, read)
    {
      var value := out[read];
      CompactOne(done, sorted, read);
      read := read + 1;
      if value == 0 || (write > 0 && out[write - 1] == value) {
        continue;
      }
      out[write] := value;
      done := done + [value];
      write := write + 1;
    }
    assert out[..write] == done;
    r := out[..write];
    CompactAll(done, sorted, v);
  }

  /** What the compaction has made of the first `read` values. */
  ghost predicate Compacted(done: seq<Id>, sorted: seq<Id>, read: nat) {
    && Ordered(sorted) && read <= |sorted|
    && Increasing(done) && forall x :: x in done <==> x in sorted[..read] && x != 0
  }

  lemma CompactNone(sorted: seq<Id>)
    requires Ordered(sorted)
    ensures Compacted([], sorted, 0)
  {
  }

  lemma CompactAll(done: seq<Id>, sorted: seq<Id>, v: seq<Id>)
    requires Compacted(done, sorted, |sorted|) && multiset(sorted) == multiset(v)
    ensures done == Normalize(v)
  {
    hide Normalize;
    assert sorted[..|sorted|] == sorted;
    SameMembers(sorted, v);
    NormalizeIsNormal(v);
    NormalFormUnique(done, Normalize(v));
  }

  lemma CompactOne(done: seq<Id>, sorted: seq<Id>, read: nat)
    requires Compacted(done, sorted, read) && read < |sorted|
    ensures var value := sorted[read];
      var skipped := value == 0 || (done != [] && done[|done| - 1] == value);
      Compacted(if skipped then done else done + [value], sorted, read + 1)
  {
    var value := sorted[read];
    assert sorted[..read + 1] == sorted[..read] + [value];
    forall x | x in done ensures x <= value {
      var i :| 0 <= i < read && sorted[i] == x;
    }
    if value in done {
      var i :| 0 <= i < |done| && done[i] == value;
      assert done[|done| - 1] in done;
    }
    assert forall i :: 0 <= i < |done| ==> done[i] in done;
  }

  /** configuredItemIDContains: the binary search of sort.Search. */
  method Contains(ids: seq<Id>, id: Id) returns (found: bool)
    requires Increasing(ids)
    ensures found <==> id in ids
  {
    var i, j := 0, |ids|;
    while i < j
      invariant 0 <= i <= j <= |ids|
      invariant (forall k :: 0 <= k < i ==> ids[k] < id) && (forall k :: j <= k < |ids| ==> ids[k] >= id)
    {
      var h := (i + j) / 2;
      if ids[h] < id {
        i := h + 1;
      } else {
        j := h;
      }
    }
    found := i < |ids| && ids[i] == id;
  }

  /** Looking up in the normalised list is plain membership, except for 0. */
  method LookUp(v: seq<Id>, id: Id) returns (found: bool)
    ensures found <==> id in v && id != 0
  {
    NormalizeIsNormal(v);
    var ids := NormalizeIDs(v);
    found := Contains(ids, id);
  }

  // ----- text -----

  predicate IsDigit(c: char) { '0' <= c <= '9' }

  /** unicode.IsSpace. */
  predicate IsSpace(c: char) {
    var n := c as int;
    || 9 <= n <= 13 || n == 0x20 || n == 0x85 || n == 0xA0 || n == 0x1680 || 0x2000 <= n <= 0x200A
    || n == 0x2028 || n == 0x2029 || n == 0x202F || n == 0x205F || n == 0x3000
  }

  predicate Separates(c: char) {
    c == ',' || c as int == 0xFF0C || IsSpace(c)
  }

  function Digit(d: nat): char
    requires d < 10
  {
    "0123456789"[d]
  }

  function Format(n: nat): string {
    if n < 10 then [Digit(n)] else Format(n / 10) + [Digit(n % 10)]
  }

  predicate AllDigits(s: string) {
    forall i :: 0 <= i < |s| ==> IsDigit(s[i])
  }

  function Value(s: string): nat
    requires AllDigits(s)
  {
    if s == [] then 0 else 10 * Value(s[..|s| - 1]) + (s[|s| - 1] as int - '0' as int)
  }

  datatype Parsed = Id(id: Id) | NoId

  /** parseConfiguredItemID on a text without spaces. */
  function Parse(s: string): Parsed {
    if s != [] && AllDigits(s) && 0 < Value(s) <= MAX_ID then Parsed.Id(Value(s)) else NoId
  }

  lemma {:induction false} ValueGrows(s: string, k: nat)
    requires AllDigits(s) && k <= |s|
    ensures Value(s[..k]) <= Value(s)
    decreases |s|
  {
    if k < |s| {
      ValueGrows(s[..|s| - 1], k);
      assert s[..|s| - 1][..k] == s[..k];
    } else {
      assert s[..k] == s;
    }
  }

  /** strconv.ParseUint(s, 10, 32) and the check for 0. */
  method ParseID(s: string) returns (r: Parsed)
    ensures r == Parse(s)
  {
    if s == [] {
      return NoId;
    }
    var n, i := 0, 0;
    while i < |s|
      invariant 0 <= i <= |s| && AllDigits(s[..i]) && n == Value(s[..i]) <= MAX_ID
    {
      if !IsDigit(s[i]) {
        return NoId;
      }
      assert s[..i + 1][..i] == s[..i];
      n := 10 * n + (s[i] as int - '0' as int);
      i := i + 1;
      if n > MAX_ID {
        if AllDigits(s) { ValueGrows(s, i); }
        return NoId;
      }
    }
    assert s[..i] == s;
    r := if n == 0 then NoId else Parsed.Id(n);
  }

  lemma DigitValue(d: nat)
    requires d < 10
    ensures IsDigit(Digit(d)) && Digit(d) as int - '0' as int == d
  {
  }

  lemma {:induction false} FormatIsDigits(n: nat)
    ensures Format(n) != [] && AllDigits(Format(n)) && Value(Format(n)) == n
  {
    DigitValue(n % 10);
    if n >= 10 {
      var s := Format(n);
      FormatIsDigits(n / 10);
      assert s == Format(n / 10) + [Digit(n % 10)];
      assert s[..|s| - 1] == Format(n / 10) && s[|s| - 1] == Digit(n % 10);
      hide Digit, Format;
    }
  }

  lemma ParseFormat(id: Id)
    requires id > 0
    ensures Parse(Format(id)) == Parsed.Id(id)
  {
    FormatIsDigits(id);
  }

  /** Index of the first character for which the text is cut. */
  function FirstSeparator(s: string): (k: nat)
    ensures k <= |s| && forall i :: 0 <= i < k ==> !Separates(s[i])
    ensures k < |s| ==> Separates(s[k])
  {
    if s == [] || Separates(s[0]) then 0 else 1 + FirstSeparator(s[1..])
  }

  /** strings.FieldsFunc. */
  function Fields(s: string): seq<string>
    decreases |s|
  {
    if s == [] then []
    else if Separates(s[0]) then Fields(s[1..])
    else
      var k := FirstSeparator(s);
      [s[..k]] + Fields(s[k..])
  }

  function FirstDash(s: string): (k: nat)
    ensures k <= |s| && forall i :: 0 <= i < k ==> s[i] != '-'
    ensures k < |s| ==> s[k] == '-'
  {
    if s == [] || s[0] == '-' then 0 else 1 + FirstDash(s[1..])
  }

  /** strings.Split(s, "-"). */
  function Split(s: string): (parts: seq<string>)
    ensures parts != []
    decreases |s|
  {
    var k := FirstDash(s);
    if k == |s| then [s] else [s[..k]] + Split(s[k + 1..])
  }

  function Join(parts: seq<string>): string {
    if parts == [] then "" else if |parts| == 1 then parts[0] else parts[0] + "," + Join(parts[1..])
  }

  // ----- decode -----

  datatype Failure = InvalidID | InvalidRange | TooMany

  datatype Span = Span(start: Id, end: Id) | BadSpan(failure: Failure)

  /** One field: an ID or a range of IDs. */
  function DecodeSpan(field: string): Span {
    var parts := Split(field);
    if |parts| > 2 then BadSpan(InvalidRange)
    else
      var start := Parse(parts[0]);
      if start.NoId? then BadSpan(InvalidID)
      else if |parts| == 1 then Span(start.id, start.id)
      else
        var end := Parse(parts[1]);
        if end.NoId? || end.id < start.id then BadSpan(InvalidRange) else Span(start.id, end.id)
  }

  function Expand(start: Id, end: Id): (ids: seq<Id>)
    requires start <= end
    ensures |ids| == end - start + 1 && forall i :: 0 <= i < |ids| ==> ids[i] == start + i
    decreases end - start
  {
    if start == end then [start] else Expand(start, end - 1) + [end]
  }

  datatype Decoded = Ids(ids: seq<Id>) | Failed(failure: Failure)

  /** The loop over the fields. */
  function DecodeFields(fields: seq<string>, out: seq<Id>): Decoded
    decreases |fields|
  {
    if fields == [] then Ids(out)
    else
      var span := DecodeSpan(fields[0]);
      if span.BadSpan? then Failed(span.failure)
      else if span.end < span.start then Failed(InvalidRange)
      else if span.end - span.start + 1 > MAX_IDS || |out| + span.end - span.start + 1 > MAX_IDS then Failed(TooMany)
      else DecodeFields(fields[1..], out + Expand(span.start, span.end))
  }

  function Decode(raw: string): Decoded {
    var d := DecodeFields(Fields(raw), []);
    if d.Failed? then d else Ids(Normalize(d.ids))
  }

  method DecodeField(field: string) returns (span: Span)
    ensures span == DecodeSpan(field)
    ensures span.Span? ==> 0 < span.start <= span.end
  {
    var parts := Split(field);
    if |parts| > 2 {
      return BadSpan(InvalidRange);
    }
    var start := ParseID(parts[0]);
    if start.NoId? {
      return BadSpan(InvalidID);
    }
    var end := start;
    if |parts| == 2 {
      end := ParseID(parts[1]);
      if end.NoId? || end.id < start.id {
        return BadSpan(InvalidRange);
      }
    }
    span := Span(start.id, end.id);
  }

  /** The loop that appends a range; its counter is a uint32 and must stop before it wraps. */
  method AppendRange(out: seq<Id>, start: Id, end: Id) returns (r: seq<Id>)
    requires start <= end
    ensures r == out + Expand(start, end)
  {
    r := out;
    var id: Id := start;
    while true
      invariant start <= id <= end
      invariant r == out + (if id == start then [] else Expand(start, id - 1))
      decreases end - id
    {
      r := r + [id];
      assert r == out + Expand(start, id);
      if id == end {
        return;
      }
      id := (id + 1) % 0x1_0000_0000;
    }
  }

  /** decodeConfiguredItemIDs. */
  method DecodeIDs(raw: string) returns (r: Decoded)
    ensures r == Decode(raw)
  {
    var fields := Fields(raw);
    var out: seq<Id> := [];
    var i := 0;
    while i < |fields|
      invariant 0 <= i <= |fields| && DecodeFields(fields, []) == DecodeFields(fields[i..], out)
    {
      var span := DecodeField(fields[i]);
      assert fields[i..][0] == fields[i] && fields[i..][1..] == fields[i + 1..];
      if span.BadSpan? {
        return Failed(span.failure);
      }
      if span.end - span.start + 1 > MAX_IDS || |out| + span.end - span.start + 1 > MAX_IDS {
        return Failed(TooMany);
      }
      out := AppendRange(out, span.start, span.end);
      i := i + 1;
    }
    var ids := NormalizeIDs(out);
    r := Ids(ids);
  }

  // ----- encode -----

  predicate Follows(a: Id, b: Id) { b as int == a as int + 1 }

  /** The last index of the run of consecutive IDs that starts at index i. */
  function RunEnd(s: seq<Id>, i: nat): (j: nat)
    requires i < |s|
    ensures i <= j < |s| && s[j] == s[i] + (j - i)
    ensures j + 1 < |s| ==> !Follows(s[j], s[j + 1])
    decreases |s| - i
  {
    if i + 1 < |s| && Follows(s[i], s[i + 1]) then RunEnd(s, i + 1) else i
  }

  function Token(start: Id, end: Id): string {
    if start == end then Format(start) else Format(start) + "-" + Format(end)
  }

  function Tokens(s: seq<Id>, i: nat): seq<string>
    requires i <= |s|
    decreases |s| - i
  {
    if i == |s| then [] else [Token(s[i], s[RunEnd(s, i)])] + Tokens(s, RunEnd(s, i) + 1)
  }

  function Encode(v: seq<Id>): string {
    Join(Tokens(Normalize(v), 0))
  }

  /** encodeConfiguredItemIDs. */
  method EncodeIDs(v: seq<Id>) returns (r: string)
    ensures r == Encode(v)
  {
    var values := NormalizeIDs(v);
    NormalizeIsNormal(v);
    hide Normalize, Token, RunEnd, Increasing, NormalFormOf, Format;
    var out: seq<string> := [];
    var index := 0;
    while index < |values|
      invariant 0 <= index <= |values|
      invariant Tokens(values, 0) == out + Tokens(values, index)
    {
      var last := EndOfRun(values, index);
      ghost var rest := Tokens(values, last + 1);
      assert out + ([Token(values[index], values[last])] + rest) == out + [Token(values[index], values[last])] + rest;
      out := out + [Token(values[index], values[last])];
      index := last + 1;
    }
    assert out + [] == out;
    r := Join(out);
  }

  /** The inner loop of encodeConfiguredItemIDs; end + 1 wraps at 2^32, where no ID follows. */
  method EndOfRun(values: seq<Id>, first: nat) returns (index: nat)
    requires first < |values| && Positive(values)
    ensures index == RunEnd(values, first)
  {
    index := first;
    while index + 1 < |values| && values[index + 1] == (if values[index] == MAX_ID then 0 else values[index] + 1)
      invariant first <= index < |values| && RunEnd(values, first) == RunEnd(values, index)
    {
      index := index + 1;
    }
  }

  // ----- round trips -----

  predicate Clean(s: string) {
    forall i :: 0 <= i < |s| ==> !Separates(s[i]) && s[i] != '-'
  }

  lemma DigitsAreClean(s: string)
    requires AllDigits(s)
    ensures Clean(s)
  {
  }

  lemma {:induction false} FirstSeparatorAt(s: string, k: nat)
    requires k <= |s| && (forall i :: 0 <= i < k ==> !Separates(s[i])) && (k < |s| ==> Separates(s[k]))
    ensures FirstSeparator(s) == k
  {
    if k > 0 { FirstSeparatorAt(s[1..], k - 1); }
  }

  lemma {:induction false} FirstDashAt(s: string, k: nat)
    requires k <= |s| && (forall i :: 0 <= i < k ==> s[i] != '-') && (k < |s| ==> s[k] == '-')
    ensures FirstDash(s) == k
  {
    if k > 0 { FirstDashAt(s[1..], k - 1); }
  }

  ghost predicate IsToken(s: string) {
    s != [] && forall i :: 0 <= i < |s| ==> !Separates(s[i])
  }

  /** A field is never empty and holds no space, so that trimming an ID changes nothing. */
  lemma {:induction false} FieldsAreTokens(s: string, k: nat)
    requires k < |Fields(s)|
    ensures IsToken(Fields(s)[k])
    decreases |s|
  {
    if s != [] && Separates(s[0]) {
      FieldsAreTokens(s[1..], k);
    } else if k > 0 {
      FieldsAreTokens(s[FirstSeparator(s)..], k - 1);
    }
  }

  /** Cutting a joined text gives its parts back. */
  lemma {:induction false} FieldsJoin(parts: seq<string>)
    requires forall i :: 0 <= i < |parts| ==> IsToken(parts[i])
    ensures Fields(Join(parts)) == parts
  {
    if parts != [] {
      var s, head := Join(parts), parts[0];
      FirstSeparatorAt(s, |head|);
      assert s[..|head|] == head;
      if |parts| > 1 {
        FieldsJoin(parts[1..]);
        assert s[|head|..] == "," + Join(parts[1..]);
        assert s[|head|..][1..] == Join(parts[1..]);
      }
    }
  }

  lemma SplitWhole(s: string)
    requires Clean(s)
    ensures Split(s) == [s]
  {
    FirstDashAt(s, |s|);
  }

  lemma SplitPair(a: string, b: string)
    requires Clean(a) && Clean(b)
    ensures Split(a + "-" + b) == [a, b]
  {
    var s := a + "-" + b;
    FirstDashAt(s, |a|);
    assert s[..|a|] == a && s[|a| + 1..] == b;
    SplitWhole(b);
  }

  lemma FormatIsClean(id: Id)
    requires id > 0
    ensures Format(id) != [] && Clean(Format(id)) && Parse(Format(id)) == Parsed.Id(id)
  {
    FormatIsDigits(id);
    DigitsAreClean(Format(id));
    ParseFormat(id);
  }

  lemma PairIsToken(a: string, b: string)
    requires a != [] && Clean(a) && Clean(b)
    ensures IsToken(a) && IsToken(a + "-" + b)
  {
  }

  lemma SpanOfToken(start: Id, end: Id)
    requires 0 < start <= end
    ensures IsToken(Token(start, end)) && DecodeSpan(Token(start, end)) == Span(start, end)
  {
    var a, b := Format(start), Format(end);
    FormatIsClean(start);
    FormatIsClean(end);
    PairIsToken(a, b);
    SplitWhole(a);
    SplitPair(a, b);
    hide Format, Parse, Split, Clean, IsToken;
  }

  lemma {:induction false} ExpandRun(s: seq<Id>, i: nat, j: nat)
    requires i <= j < |s| && s[j] == s[i] + (j - i) && Increasing(s)
    ensures Expand(s[i], s[j]) == s[i..j + 1]
  {
    forall k | i <= k <= j ensures s[k] == s[i] + (k - i) {
      Gaps(s, i, k);
      Gaps(s, k, j);
    }
  }

  lemma {:induction false} Gaps(s: seq<Id>, i: nat, j: nat)
    requires i <= j < |s| && Increasing(s)
    ensures s[j] >= s[i] + (j - i)
    decreases j - i
  {
    if i < j { Gaps(s, i, j - 1); }
  }

  lemma {:induction false} TokensAreFields(s: seq<Id>, i: nat)
    requires i <= |s| && Increasing(s) && Positive(s)
    ensures forall k :: 0 <= k < |Tokens(s, i)| ==> IsToken(Tokens(s, i)[k])
    decreases |s| - i
  {
    if i < |s| {
      SpanOfToken(s[i], s[RunEnd(s, i)]);
      TokensAreFields(s, RunEnd(s, i) + 1);
      hide IsToken;
    }
  }

  lemma TokensStep(s: seq<Id>, i: nat)
    requires i < |s|
    ensures Tokens(s, i) == [Token(s[i], s[RunEnd(s, i)])] + Tokens(s, RunEnd(s, i) + 1)
  {
    hide Token;
  }

  lemma DecodeNothing(s: seq<Id>)
    ensures DecodeFields(Tokens(s, |s|), s[..|s|]) == Ids(s)
  {
    assert s[..|s|] == s;
  }

  lemma {:induction false} DecodeTokens(s: seq<Id>, i: nat)
    requires i <= |s| && Increasing(s) && Positive(s) && i <= MAX_IDS
    ensures DecodeFields(Tokens(s, i), s[..i]) == if |s| <= MAX_IDS then Ids(s) else Failed(TooMany)
    decreases |s| - i
  {
    hide DecodeFields, Tokens, RunEnd, Token, Increasing;
    if i == |s| {
      DecodeNothing(s);
    } else {
      TokensStep(s, i);
      var j := RunEnd(s, i);
      DecodeOneToken(s, i, j, Tokens(s, j + 1));
      if j + 1 <= MAX_IDS {
        DecodeTokens(s, j + 1);
      }
    }
  }

  lemma DecodeOneToken(s: seq<Id>, i: nat, j: nat, rest: seq<string>)
    requires i <= j < |s| && Increasing(s) && s[i] > 0 && s[j] == s[i] + (j - i)
    ensures DecodeFields([Token(s[i], s[j])] + rest, s[..i]) ==
      if j + 1 <= MAX_IDS then DecodeFields(rest, s[..j + 1]) else Failed(TooMany)
  {
    hide DecodeSpan, Token, IsToken, Expand, DecodeFields, Increasing;
    SpanOfToken(s[i], s[j]);
    ExpandRun(s, i, j);
    DecodeOneField(Token(s[i], s[j]), rest, s[..i], s[i], s[j]);
    SliceJoin(s, i, j + 1);
  }

  lemma DecodeOneField(field: string, rest: seq<string>, out: seq<Id>, start: Id, end: Id)
    requires DecodeSpan(field) == Span(start, end) && start <= end
    ensures DecodeFields([field] + rest, out) ==
      if |out| + end - start + 1 <= MAX_IDS then DecodeFields(rest, out + Expand(start, end)) else Failed(TooMany)
  {
    hide DecodeSpan, Expand;
    var fields := [field] + rest;
    assert fields[0] == field && fields[1..] == rest;
  }

  lemma SliceJoin(s: seq<Id>, i: nat, k: nat)
    requires i <= k <= |s|
    ensures s[..i] + s[i..k] == s[..k] && |s[..i]| == i
  {
  }

  /** Reading back what was written gives the normalised list, if that has at most 100000 IDs, and
      is refused otherwise - for every list, up to and including the ID 2^32 - 1. */
  lemma DecodeEncode(v: seq<Id>)
    ensures Decode(Encode(v)) == if |Normalize(v)| <= MAX_IDS then Ids(Normalize(v)) else Failed(TooMany)
  {
    var s := Normalize(v);
    NormalizeIsNormal(v);
    TokensAreFields(s, 0);
    FieldsJoin(Tokens(s, 0));
    DecodeTokens(s, 0);
    NormalStays(s);
    assert s[..0] == [];
    hide Normalize, Tokens, Fields, Join, DecodeFields;
  }

  lemma {:induction false} InsertSize(x: Id, s: seq<Id>)
    ensures |Insert(x, s)| <= |s| + 1
  {
    if s != [] { InsertSize(x, s[1..]); }
  }

  lemma {:induction false} NormalizeSize(v: seq<Id>)
    ensures |Normalize(v)| <= |v|
  {
    if v != [] {
      NormalizeSize(v[..|v| - 1]);
      InsertSize(v[|v| - 1], Normalize(v[..|v| - 1]));
    }
  }

  lemma {:induction false} DecodeFieldsSize(fields: seq<string>, out: seq<Id>)
    requires |out| <= MAX_IDS
    ensures var d := DecodeFields(fields, out); d.Ids? ==> |d.ids| <= MAX_IDS
    decreases |fields|
  {
    if fields != [] {
      var span := DecodeSpan(fields[0]);
      if span.Span? && span.start <= span.end && |out| + span.end - span.start + 1 <= MAX_IDS {
        DecodeFieldsSize(fields[1..], out + Expand(span.start, span.end));
      }
    }
  }

  /** Any text that can be read can be written and read again with the same result. */
  lemma EncodeDecodeStable(raw: string)
    requires Decode(raw).Ids?
    ensures Decode(Encode(Decode(raw).ids)) == Decode(raw)
  {
    var d := DecodeFields(Fields(raw), []);
    DecodeFieldsSize(Fields(raw), []);
    NormalizeSize(d.ids);
    NormalizeIsNormal(d.ids);
    NormalStays(Normalize(d.ids));
    DecodeEncode(Normalize(d.ids));
    hide Normalize, Encode, DecodeFields, Fields;
  }

  /** The field names the ID. */
  ghost predicate Covers(field: string, id: Id) {
    var span := DecodeSpan(field);
    span.Span? && span.start <= id <= span.end
  }

  /** Some field names the ID. */
  ghost predicate Named(fields: seq<string>, id: Id) {
    exists k :: 0 <= k < |fields| && Covers(fields[k], id)
  }

  lemma {:induction false} DecodeFieldsMeans(fields: seq<string>, out: seq<Id>, id: Id)
    requires DecodeFields(fields, out).Ids?
    ensures id in DecodeFields(fields, out).ids <==> id in out || Named(fields, id)
    decreases |fields|
  {
    if fields != [] {
      var span := DecodeSpan(fields[0]);
      var ids := Expand(span.start, span.end);
      DecodeFieldsMeans(fields[1..], out + ids, id);
      assert id in ids <==> Covers(fields[0], id) by {
        if Covers(fields[0], id) { assert ids[id - span.start] == id; }
      }
      assert forall k :: 0 <= k < |fields| - 1 ==> fields[1..][k] == fields[k + 1];
      if k :| 0 < k < |fields| && Covers(fields[k], id) {
        assert Covers(fields[1..][k - 1], id);
      }
    }
  }

  /** A list that is read holds exactly the IDs that its fields name, in increasing order. */
  lemma DecodeMeans(raw: string, id: Id)
    requires Decode(raw).Ids?
    ensures Increasing(Decode(raw).ids)
    ensures id in Decode(raw).ids <==> id != 0 && Named(Fields(raw), id)
  {
    var d := DecodeFields(Fields(raw), []);
    DecodeFieldsMeans(Fields(raw), [], id);
    NormalizeIsNormal(d.ids);
    assert Decode(raw).ids == Normalize(d.ids);
    assert id in Normalize(d.ids) <==> id in d.ids && id != 0;
    hide Named, Normalize, DecodeFields, Fields, Decode;
  }

  // ----- what the text means, character by character -----

  /** The characters that cut a list: the comma, the full-width comma, and every blank of Unicode. */
  const CUTS: set<int> := {
    0x2C, 0xFF0C, 0x09, 0x0A, 0x0B, 0x0C, 0x0D, 0x20, 0x85, 0xA0, 0x1680,
    0x2000, 0x2001, 0x2002, 0x2003, 0x2004, 0x2005, 0x2006, 0x2007, 0x2008, 0x2009, 0x200A,
    0x2028, 0x2029, 0x202F, 0x205F, 0x3000}

  lemma CutsSeparate(c: char)
    ensures Separates(c) <==> c as int in CUTS
  {
  }

  /** Each of them cuts a list in two. */
  lemma {:induction false} FieldsCut(a: string, c: char, b: string)
    requires c as int in CUTS
    ensures Fields(a + [c] + b) == Fields(a) + Fields(b)
    decreases |a|
  {
    CutsSeparate(c);
    hide Separates, CUTS;
    var s := a + [c] + b;
    if a == [] {
      assert s[1..] == b;
    } else if Separates(a[0]) {
      FieldsCut(a[1..], c, b);
      assert s[1..] == a[1..] + [c] + b;
    } else {
      var k := FirstSeparator(a);
      FirstSeparatorAt(s, k);
      FieldsCut(a[k..], c, b);
      assert s[..k] == a[..k] && s[k..] == a[k..] + [c] + b;
      assert [a[..k]] + Fields(a[k..]) + Fields(b) == [a[..k]] + (Fields(a[k..]) + Fields(b));
    }
  }

  /** And nothing else does. */
  lemma FieldsWhole(s: string)
    requires s != [] && forall i :: 0 <= i < |s| ==> s[i] as int !in CUTS
    ensures Fields(s) == [s]
  {
    forall i | 0 <= i < |s| ensures !Separates(s[i]) { CutsSeparate(s[i]); }
    hide Separates, CUTS;
    FirstSeparatorAt(s, |s|);
    assert s[..|s|] == s && s[|s|..] == [];
  }

  lemma SplitHead(a: string, rest: string)
    requires '-' !in a
    ensures Split(a) == [a] && Split(a + "-" + rest) == [a] + Split(rest)
  {
    var s := a + "-" + rest;
    FirstDashAt(a, |a|);
    FirstDashAt(s, |a|);
    assert s[..|a|] == a && s[|a| + 1..] == rest;
  }

  /** One number is an ID, two numbers with a dash between them are a range that does not run backwards,
      and anything else is refused, with the error the program reports. */
  lemma SpanOfParts(a: string, b: string, c: string)
    requires '-' !in a && '-' !in b
    ensures DecodeSpan(a) == if Parse(a).Id? then Span(Parse(a).id, Parse(a).id) else BadSpan(InvalidID)
    ensures DecodeSpan(a + "-" + b) ==
      if Parse(a).NoId? then BadSpan(InvalidID)
      else if Parse(b).Id? && Parse(a).id <= Parse(b).id then Span(Parse(a).id, Parse(b).id)
      else BadSpan(InvalidRange)
    ensures DecodeSpan(a + "-" + (b + "-" + c)) == BadSpan(InvalidRange)
  {
    hide Parse, Split;
    SplitHead(a, b);
    SplitHead(b, c);
    SplitHead(a, b + "-" + c);
    SplitSome(c);
  }

  lemma SplitSome(s: string)
    ensures |Split(s)| > 0
  {
  }

  function Zeros(z: nat): string { seq(z, _ => '0') }

  lemma {:induction false} ValueOfZeros(z: nat, t: string)
    requires AllDigits(t)
    ensures AllDigits(Zeros(z) + t) && Value(Zeros(z) + t) == Value(t)
    decreases z + |t|
  {
    var s := Zeros(z) + t;
    if t != [] {
      ValueOfZeros(z, t[..|t| - 1]);
      assert s[..|s| - 1] == Zeros(z) + t[..|t| - 1];
    } else if z > 0 {
      ValueOfZeros(z - 1, []);
      assert s[..|s| - 1] == Zeros(z - 1) + [];
    }
  }

  lemma DigitOf(c: char, d: nat)
    requires d < 10 && c as int == '0' as int + d
    ensures Digit(d) == c && Format(d) == [c]
  {
  }

  lemma ZeroMore(z: nat)
    ensures Zeros(z) + ['0'] == Zeros(z + 1)
  {
  }

  /** One more digit behind zeros and the decimal form of a number. */
  lemma DigitBehind(z: nat, v: nat, c: char, d: nat) returns (more: nat)
    requires d < 10 && c as int == '0' as int + d
    ensures Zeros(z) + Format(v) + [c] == Zeros(more) + Format(10 * v + d)
  {
    hide Zeros, Digit;
    DigitOf(c, d);
    if v == 0 {
      more := z + 1;
      DigitOf('0', 0);
      ZeroMore(z);
    } else {
      more := z;
      FormatStep(v, d);
      hide Format;
      assert Zeros(z) + Format(v) + [c] == Zeros(z) + (Format(v) + [c]);
    }
  }

  lemma {:induction false} DigitsAreFormat(s: string) returns (z: nat)
    requires s != [] && AllDigits(s)
    ensures s == Zeros(z) + Format(Value(s))
  {
    var n := |s| - 1;
    if n == 0 {
      z := 0;
      assert s[..0] == [] && s == [s[0]];
      DigitOf(s[0], Value(s));
    } else {
      z := DigitsAreFormat(s[..n]);
      hide Format, Zeros;
      z := DigitBehind(z, Value(s[..n]), s[n], (s[n] as int - '0' as int) as nat);
      assert s == s[..n] + [s[n]];
    }
  }

  lemma FormatStep(v: nat, d: nat)
    requires v > 0 && d < 10
    ensures Format(10 * v + d) == Format(v) + [Digit(d)]
  {
    assert (10 * v + d) / 10 == v && (10 * v + d) % 10 == d;
  }

  /** A text is read as an ID exactly when it is the decimal form of that ID, zeros in front allowed. */
  lemma ParseMeans(s: string, id: Id)
    ensures Parse(s) == Parsed.Id(id) <==> id > 0 && exists z: nat :: s == Zeros(z) + Format(id)
  {
    FormatIsDigits(id);
    if Parse(s) == Parsed.Id(id) {
      var z := DigitsAreFormat(s);
    }
    if id > 0 {
      if z: nat :| s == Zeros(z) + Format(id) {
        ValueOfZeros(z, Format(id));
      }
    }
    hide Zeros, Format;
  }

  /** How many IDs the fields name, each range counted in full. */
  function SpanTotal(fields: seq<string>): nat {
    if fields == [] then 0
    else
      var span := DecodeSpan(fields[0]);
      (if span.Span? && span.start <= span.end then span.end - span.start + 1 else 0) + SpanTotal(fields[1..])
  }

  lemma {:induction false} DecodeFieldsAccepts(fields: seq<string>, out: seq<Id>)
    requires |out| <= MAX_IDS
    ensures DecodeFields(fields, out).Ids? <==>
      (forall f :: f in fields ==> DecodeSpan(f).Span?) && |out| + SpanTotal(fields) <= MAX_IDS
    decreases |fields|
  {
    if fields != [] {
      var span := DecodeSpan(fields[0]);
      SpanRuns(fields[0]);
      hide DecodeSpan;
      assert fields == [fields[0]] + fields[1..];
      if span.Span? && |out| + span.end - span.start + 1 <= MAX_IDS {
        DecodeFieldsAccepts(fields[1..], out + Expand(span.start, span.end));
      }
    }
  }

  lemma SpanRuns(field: string)
    ensures DecodeSpan(field).Span? ==> 0 < DecodeSpan(field).start <= DecodeSpan(field).end
  {
  }

  /** A list is read exactly when every field is an ID or a range and they name at most 100000 IDs,
      those named twice counted twice. */
  lemma DecodeAccepts(raw: string)
    ensures Decode(raw).Ids? <==>
      (forall f :: f in Fields(raw) ==> DecodeSpan(f).Span?) && SpanTotal(Fields(raw)) <= 100000
  {
    hide DecodeSpan, Fields, SpanTotal, DecodeFields;
    DecodeFieldsAccepts(Fields(raw), []);
  }
}
