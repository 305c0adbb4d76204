/**
 Rows of iteminfo files, internal/capability/marketapp/marketapp_cera_iteminfo.go: two scanners
 and the merge that appends native rows to the PVF data.  A byte is the character of the same code.
 */
module ItemInfo {
  import opened Collections
  import Codec = ItemCodec

  type Byte = char
  type Id = Codec.Id
  type Bytes = seq<Byte>

  const LF: Byte := '\n'
  const CR: Byte := '\r'
  const CRLF: Bytes := [CR, LF]

  datatype Found = Some(id: Id) | None

  // ----- the ID at the start of a line -----

  predicate Blank(b: Byte) { b == ' ' || b == '\t' || b == CR }

  predicate Digit(b: Byte) { '0' <= b <= '9' }

  /** The first index from i on that is not blank. */
  function BlankEnd(line: Bytes, i: nat): (k: nat)
    requires i <= |line|
    ensures i <= k <= |line| && (forall j :: i <= j < k ==> Blank(line[j]))
    ensures k < |line| ==> !Blank(line[k])
    decreases |line| - i
  {
    if i < |line| && Blank(line[i]) then BlankEnd(line, i + 1) else i
  }

  function DigitEnd(line: Bytes, i: nat): (k: nat)
    requires i <= |line|
    ensures i <= k <= |line| && (forall j :: i <= j < k ==> Digit(line[j]))
    ensures k < |line| ==> !Digit(line[k])
    decreases |line| - i
  {
    if i < |line| && Digit(line[i]) then DigitEnd(line, i + 1) else i
  }

  /** The number in line[i..k]. */
  function Number(line: Bytes, i: nat, k: nat): nat
    requires i <= k <= |line| && forall j :: i <= j < k ==> Digit(line[j])
  {
    if k == i then 0 else assert Digit(line[k - 1]); 10 * Number(line, i, k - 1) + (line[k - 1] as int - '0' as int)
  }

  /** What leadingItemInfoID returns: blanks, a number between 1 and 2^32 - 1, then a blank or the end. */
  function LeadingID(line: Bytes): Found {
    var i := BlankEnd(line, 0);
    var k := DigitEnd(line, i);
    if 0 < Number(line, i, k) <= Codec.MAX_ID && (k == |line| || Blank(line[k])) then Some(Number(line, i, k)) else None
  }

  lemma {:induction false} NumberGrows(line: Bytes, i: nat, j: nat, k: nat)
    requires i <= j <= k <= |line| && forall m :: i <= m < k ==> Digit(line[m])
    ensures Number(line, i, j) <= Number(line, i, k)
    decreases k - j
  {
    if j < k { NumberGrows(line, i, j, k - 1); }
  }

  lemma {:induction false} EndsAt(line: Bytes, i: nat, k: nat)
    requires i <= k <= |line|
    ensures (forall j :: i <= j < k ==> Blank(line[j])) && (k < |line| ==> !Blank(line[k])) ==> BlankEnd(line, i) == k
    ensures (forall j :: i <= j < k ==> Digit(line[j])) && (k < |line| ==> !Digit(line[k])) ==> DigitEnd(line, i) == k
    decreases k - i
  {
    if i < k { EndsAt(line, i + 1, k); }
  }

  /** leadingItemInfoID: the loops over the bytes. */
  method LeadingItemInfoID(line: Bytes) returns (r: Found)
    ensures r == LeadingID(line)
  {
    var index := 0;
    while index < |line| && (line[index] == ' ' || line[index] == '\t' || line[index] == CR)
      invariant 0 <= index <= |line| && BlankEnd(line, 0) == BlankEnd(line, index)
    {
      index := index + 1;
    }
    var start := index;
    var id := 0;
    while index < |line| && '0' <= line[index] <= '9'
      invariant start <= index <= |line| && DigitEnd(line, start) == DigitEnd(line, index)
      invariant forall j :: start <= j < index ==> Digit(line[j])
      invariant id == Number(line, start, index) <= Codec.MAX_ID
    {
      id := id * 10 + (line[index] as int - '0' as int);
      index := index + 1;
      if id > Codec.MAX_ID {
        NumberGrows(line, start, index, DigitEnd(line, start));
        return None;
      }
    }
    if index == start || id == 0 {
      return None;
    }
    if index < |line| && line[index] != ' ' && line[index] != '\t' && line[index] != CR {
      return None;
    }
    r := Some(id);
  }

  lemma {:induction false} NumberLocal(line: Bytes, more: Bytes, i: nat, k: nat)
    requires i <= k <= |line| && forall j :: i <= j < k ==> Digit(line[j])
    ensures forall j :: i <= j < k ==> Digit((line + more)[j])
    ensures Number(line + more, i, k) == Number(line, i, k)
  {
    if k > i { NumberLocal(line, more, i, k - 1); }
  }

  lemma {:induction false} NumberIsValue(line: Bytes, i: nat, k: nat)
    requires i <= k <= |line| && forall j :: i <= j < k ==> Digit(line[j])
    ensures Codec.AllDigits(line[i..k]) && Number(line, i, k) == Codec.Value(line[i..k])
  {
    if k > i {
      NumberIsValue(line, i, k - 1);
      assert line[i..k][..k - 1 - i] == line[i..k - 1];
    }
  }

  /** What a line is read as: blanks, then digits that are an ID of a list, then a blank or nothing. */
  lemma LeadingReads(blanks: Bytes, digits: Bytes, rest: Bytes)
    requires forall i :: 0 <= i < |blanks| ==> blanks[i] in {' ', '\t', '\r'}
    requires forall i :: 0 <= i < |digits| ==> '0' <= digits[i] <= '9'
    requires rest != [] ==> !('0' <= rest[0] <= '9') && (digits == [] ==> rest[0] !in {' ', '\t', '\r'})
    ensures LeadingID(blanks + digits + rest) ==
      if Codec.Parse(digits).Id? && (rest == [] || rest[0] in {' ', '\t', '\r'})
      then Some(Codec.Parse(digits).id) else None
  {
    var line, i, k := blanks + digits + rest, |blanks|, |blanks| + |digits|;
    assert forall j :: i <= j < k ==> line[j] == digits[j - i];
    assert k < |line| ==> line[k] == rest[0];
    EndsAt(line, 0, i);
    EndsAt(line, i, k);
    NumberIsValue(line, i, k);
    assert line[i..k] == digits;
    hide BlankEnd, DigitEnd, Number;
  }

  /** Where the digits of a line end. */
  function IdEnd(line: Bytes): (k: nat)
    ensures k <= |line|
  {
    DigitEnd(line, BlankEnd(line, 0))
  }

  /** A line is read alike with a CR behind it. */
  lemma ReturnIgnored(line: Bytes)
    ensures LeadingID(line + [CR]) == LeadingID(line)
  {
    var long, i := line + [CR], BlankEnd(line, 0);
    var k := DigitEnd(line, i);
    if i == |line| {
      EndsAt(long, 0, |line| + 1);
    } else {
      EndsAt(long, 0, i);
      EndsAt(long, i, k);
      NumberLocal(line, [CR], i, k);
    }
  }

  /** With the LF still there, as the file scanner reads it, a line is read alike unless its ID runs
      up to the LF: then the file scanner misses it. */
  lemma NewlineMatters(line: Bytes)
    ensures LeadingID(line + [LF]) == if IdEnd(line) < |line| then LeadingID(line) else None
  {
    var long, i := line + [LF], BlankEnd(line, 0);
    var k := DigitEnd(line, i);
    EndsAt(long, 0, i);
    EndsAt(long, i, k);
    NumberLocal(line, [LF], i, k);
  }

  // ----- scanning -----

  /** The index of the first LF, or the length. */
  function LineEnd(data: Bytes): (k: nat)
    ensures k <= |data| && (forall j :: 0 <= j < k ==> data[j] != LF) && (k < |data| ==> data[k] == LF)
  {
    if data == [] || data[0] == LF then 0 else 1 + LineEnd(data[1..])
  }

  function Tail(data: Bytes): Bytes {
    if LineEnd(data) == |data| then [] else data[LineEnd(data) + 1..]
  }

  function AsSet(f: Found): set<Id> {
    if f.Some? then {f.id} else {}
  }

  /** The IDs that scanItemInfoLines visits. */
  function Ids(data: Bytes): set<Id>
    decreases |data|
  {
    if data == [] then {} else AsSet(LeadingID(data[..LineEnd(data)])) + Ids(Tail(data))
  }

  /** The line that ReadBytes returns: with its LF, if it has one. */
  function FileLine(data: Bytes): Bytes {
    if LineEnd(data) == |data| then data else data[..LineEnd(data)] + [LF]
  }

  /** The IDs that scanItemInfoFile visits. */
  function FileIds(data: Bytes): set<Id>
    decreases |data|
  {
    if data == [] then {} else AsSet(LeadingID(FileLine(data))) + FileIds(Tail(data))
  }

  method ScanItemInfoIDs(data: Bytes) returns (present: set<Id>)
    ensures present == Ids(data)
  {
    present := {};
    var rest := data;
    while |rest| > 0
      invariant present + Ids(rest) == Ids(data)
      decreases |rest|
    {
      var lineEnd := LineEnd(rest);
      ghost var before := rest;
      var line := rest[..lineEnd];
      if lineEnd < |rest| {
        rest := rest[lineEnd + 1..];
      } else {
        rest := [];
      }
      assert rest == Tail(before);
      var id := LeadingItemInfoID(line);
      if id.Some? {
        present := present + {id.id};
      }
    }
  }

  /** The ID of the first line, if the line is that ID with a bare LF behind it. */
  function BareId(data: Bytes): Found
    requires data != []
  {
    var k := LineEnd(data);
    if k < |data| && IdEnd(data[..k]) == k then LeadingID(data[..k]) else None
  }

  /** The IDs of all such lines. */
  function BareIds(data: Bytes): set<Id>
    decreases |data|
  {
    if data == [] then {} else AsSet(BareId(data)) + BareIds(Tail(data))
  }

  lemma LinesAgree(data: Bytes)
    requires data != []
    ensures LeadingID(FileLine(data)) == if BareId(data).Some? then None else LeadingID(data[..LineEnd(data)])
    ensures BareId(data).Some? ==> BareId(data) == LeadingID(data[..LineEnd(data)])
  {
    var line := data[..LineEnd(data)];
    hide LeadingID, IdEnd, LineEnd;
    if |line| < |data| {
      NewlineMatters(line);
    } else {
      assert line == data;
    }
  }

  /** The line scanner sees what the file scanner sees and the bare IDs. */
  lemma {:induction false} ScannersRelate(data: Bytes)
    ensures Ids(data) == FileIds(data) + BareIds(data)
    decreases |data|
  {
    if data != [] {
      ScannersRelate(Tail(data));
      LinesAgree(data);
      hide LeadingID, IdEnd, FileLine, Tail, BareId, LineEnd;
    }
  }

  /** So the file scanner never sees more, and the two see the same IDs exactly when every bare ID
      also stands at the beginning of some line that the file scanner accepts. */
  lemma ScannersAgree(data: Bytes)
    ensures FileIds(data) <= Ids(data)
    ensures FileIds(data) == Ids(data) <==> BareIds(data) <= FileIds(data)
  {
    ScannersRelate(data);
    hide Ids, FileIds, BareIds;
  }

  lemma Reads123()
    ensures LeadingID("123") == Some(123) && IdEnd("123") == 3
  {
    var line: Bytes := "123";
    EndsAt(line, 0, 3);
    EndsAt(line, 0, 0);
    assert Number(line, 0, 1) == 1 && Number(line, 0, 2) == 12 && Number(line, 0, 3) == 123;
  }

  /** "123" and LF: one scanner sees the ID 123, the other sees nothing. */
  lemma ScannersDiffer()
    ensures Ids("123\n") == {123} && FileIds("123\n") == {}
  {
    hide LeadingID, IdEnd, LineEnd;
    var line: Bytes, data: Bytes := "123", "123\n";
    Reads123();
    NewlineMatters(line);
    LineEndAt(data, 3);
    assert data[..3] == line && data == line + [LF] && data[4..] == [];
  }

  // ----- merging -----

  type Rows = map<Id, Bytes>

  /** A row that can be written as a line of its own. */
  ghost predicate RowFits(id: Id, row: Bytes) {
    LF !in row && LeadingID(row) == Some(id)
  }

  ghost predicate RowsFit(rows: Rows) {
    forall id :: id in rows ==> RowFits(id, rows[id])
  }

  /** bytes.TrimRight(line, "\\r\\n"). */
  function TrimRight(line: Bytes): (t: Bytes)
    ensures t <= line && (t != [] ==> t[|t| - 1] != CR && t[|t| - 1] != LF)
    ensures forall j :: |t| <= j < |line| ==> line[j] == CR || line[j] == LF
  {
    if line != [] && (line[|line| - 1] == CR || line[|line| - 1] == LF) then TrimRight(line[..|line| - 1]) else line
  }

  lemma TrimKeepsId(line: Bytes)
    requires LeadingID(line).Some?
    ensures LeadingID(TrimRight(line)) == LeadingID(line)
  {
    var t, i := TrimRight(line), BlankEnd(line, 0);
    var k := DigitEnd(line, i);
    var cut := line[|t|..];
    assert line == t + cut;
    assert k > i && Digit(line[k - 1]);
    assert k <= |t| && forall j :: 0 <= j < |t| ==> t[j] == line[j];
    hide TrimRight;
    EndsAt(t, 0, i);
    EndsAt(t, i, k);
    NumberLocal(t, cut, i, k);
  }

  /** A line the file scanner accepts, trimmed, is a row that fits. */
  lemma TrimmedRowFits(line: Bytes)
    requires LeadingID(line).Some? && forall j :: 0 <= j < |line| - 1 ==> line[j] != LF
    ensures RowFits(LeadingID(line).id, TrimRight(line))
  {
    hide LeadingID, TrimRight;
    TrimKeepsId(line);
    NoNewlineLeft(line, TrimRight(line));
  }

  lemma NoNewlineLeft(line: Bytes, t: Bytes)
    requires t <= line && (t != [] ==> t[|t| - 1] != LF) && forall j :: 0 <= j < |line| - 1 ==> line[j] != LF
    ensures LF !in t
  {
    assert forall j :: 0 <= j < |t| ==> t[j] == line[j];
    assert forall j :: 0 <= j < |t| ==> t[j] != LF;
  }

  datatype File = Missing | Unreadable | Content(data: Bytes)

  /** The row of a line is added unless its ID has one already. */
  function WithLine(rows: Rows, line: Bytes): Rows {
    var id := LeadingID(line);
    if id.Some? && id.id !in rows then rows[id.id := TrimRight(line)] else rows
  }

  /** The lines of a file, one after the other. */
  function WithFile(rows: Rows, data: Bytes): Rows
    decreases |data|
  {
    if data == [] then rows else WithFile(WithLine(rows, FileLine(data)), Tail(data))
  }

  /** The readable files among the first n, one after the other. */
  function WithFiles(files: seq<File>, n: nat): Rows
    requires n <= |files|
  {
    if n == 0 then map[]
    else if files[n - 1].Content? then WithFile(WithFiles(files, n - 1), files[n - 1].data)
    else WithFiles(files, n - 1)
  }

  /** loadItemInfoRows. */
  method LoadRows(files: seq<File>) returns (rows: Rows, ok: bool)
    ensures ok <==> Unreadable !in files
    ensures ok ==> rows == WithFiles(files, |files|)
    ensures RowsFit(rows)
  {
    hide RowsFit, WithFile;
    rows, ok := NoRows(), true;
    var f := 0;
    while f < |files|
      invariant 0 <= f <= |files| && RowsFit(rows) && ok && Unreadable !in files[..f]
      invariant rows == WithFiles(files, f)
    {
      if files[f].Unreadable? {
        return rows, false;
      }
      if files[f].Content? {
        rows := LoadFile(rows, files[f].data);
      }
      f := f + 1;
    }
  }

  function NoRows(): (rows: Rows)
    ensures RowsFit(rows) && rows == map[]
  {
    map[]
  }

  method AddRow(rows: Rows, line: Bytes) returns (more: Rows)
    requires RowsFit(rows) && forall j :: 0 <= j < |line| - 1 ==> line[j] != LF
    ensures more == WithLine(rows, line) && RowsFit(more)
  {
    more := rows;
    var id := LeadingItemInfoID(line);
    if id.Some? {
      TrimmedRowFits(line);
      hide RowFits, LeadingID, TrimRight;
      if id.id !in more {
        more := more[id.id := TrimRight(line)];
      }
    }
  }

  /** The callback of loadItemInfoRows on every line of a file. */
  method LoadFile(rows: Rows, data: Bytes) returns (more: Rows)
    requires RowsFit(rows)
    ensures more == WithFile(rows, data) && RowsFit(more)
  {
    hide RowsFit, WithLine, FileLine, Tail;
    more := rows;
    var rest := data;
    while rest != []
      invariant RowsFit(more) && WithFile(more, rest) == WithFile(rows, data)
      decreases |rest|
    {
      FileIdsStep(rest);
      more := AddRow(more, FileLine(rest));
      rest := Tail(rest);
    }
  }

  /** The first line of a file from which the file scanner reads the ID. */
  function FirstLine(data: Bytes, id: Id): Bytes
    requires id in FileIds(data)
    decreases |data|
  {
    if LeadingID(FileLine(data)) == Some(id) then FileLine(data) else FirstLine(Tail(data), id)
  }

  lemma LineStep(rows: Rows, line: Bytes, id: Id)
    ensures var more := WithLine(rows, line);
      && (id in more <==> id in rows || LeadingID(line) == Some(id))
      && (id in rows ==> more[id] == rows[id])
      && (id !in rows && LeadingID(line) == Some(id) ==> more[id] == TrimRight(line))
  {
    hide LeadingID, TrimRight;
  }

  /** A file adds exactly the IDs that its scanner sees and that have no row yet; each gets the
      trimmed text of its first line, and the other rows stay. */
  lemma {:induction false} FileRowIs(rows: Rows, data: Bytes, id: Id)
    ensures var more := WithFile(rows, data);
      && (id in more <==> id in rows || id in FileIds(data))
      && (id in rows ==> more[id] == rows[id])
      && (id !in rows && id in FileIds(data) ==> more[id] == TrimRight(FirstLine(data, id)))
    decreases |data|
  {
    hide LeadingID, FileLine, Tail, TrimRight, WithLine, LineEnd;
    if data != [] {
      var line, rest := FileLine(data), Tail(data);
      FileIdsStep(data);
      assert WithFile(rows, data) == WithFile(WithLine(rows, line), rest);
      hide WithFile, FileIds;
      LineStep(rows, line, id);
      FileRowIs(WithLine(rows, line), rest, id);
    }
  }

  /** The file scanner reads the ID from the file. */
  predicate Sees(file: File, id: Id) {
    file.Content? && id in FileIds(file.data)
  }

  /** The number of the first file in which the scanner sees the ID, or n. */
  function FirstFile(files: seq<File>, n: nat, id: Id): (k: nat)
    requires n <= |files|
    ensures k <= n
  {
    if n == 0 then 0
    else
      var k := FirstFile(files, n - 1, id);
      if k < n - 1 || Sees(files[n - 1], id) then k else n
  }

  lemma {:induction false} FirstFileIs(files: seq<File>, n: nat, id: Id)
    requires n <= |files|
    ensures var k := FirstFile(files, n, id);
      (forall j :: 0 <= j < k ==> !Sees(files[j], id)) && (k < n ==> Sees(files[k], id))
  {
    hide Sees;
    if n > 0 {
      FirstFileIs(files, n - 1, id);
    }
  }

  /** The loaded rows: each ID that some file has, with the trimmed text of its first line in the
      first file that has it. */
  lemma {:induction false} LoadedRowsAre(files: seq<File>, n: nat, id: Id)
    requires n <= |files|
    ensures var rows, k := WithFiles(files, n), FirstFile(files, n, id);
      && (id in rows <==> k < n)
      && (k < n ==> Sees(files[k], id) && rows[id] == TrimRight(FirstLine(files[k].data, id)))
  {
    hide WithFile, FileIds, FirstLine, TrimRight;
    if n > 0 {
      var rest, file := WithFiles(files, n - 1), files[n - 1];
      LoadedRowsAre(files, n - 1, id);
      assert WithFiles(files, n) == if file.Content? then WithFile(rest, file.data) else rest;
      hide WithFiles;
      if file.Content? {
        FileRowIs(rest, file.data, id);
      }
    }
  }

  lemma FileIdsStep(data: Bytes)
    requires data != []
    ensures FileIds(data) == AsSet(LeadingID(FileLine(data))) + FileIds(Tail(data)) && |Tail(data)| < |data|
    ensures forall j :: 0 <= j < |FileLine(data)| - 1 ==> FileLine(data)[j] != LF
  {
    hide LeadingID;
  }

  function Lines(rows: Rows, ids: seq<Id>): Bytes
    requires forall i :: 0 <= i < |ids| ==> ids[i] in rows
  {
    if ids == [] then [] else Lines(rows, ids[..|ids| - 1]) + rows[ids[|ids| - 1]] + CRLF
  }

  /** The PVF data, with a line end if its last line has none. */
  function Closed(data: Bytes): Bytes {
    if data != [] && data[|data| - 1] != LF then data + CRLF else data
  }

  /** ids are the IDs of the rows that the data lacks, in increasing order. */
  ghost predicate MissingIds(data: Bytes, rows: Rows, ids: seq<Id>) {
    Codec.Increasing(ids) && forall id :: id in ids <==> id in rows && id !in Ids(data)
  }

  method CollectMissing(rows: Rows, present: set<Id>) returns (missing: seq<Id>)
    ensures forall id :: id in missing <==> id in rows && id !in present
    ensures forall i, j :: 0 <= i < j < |missing| ==> missing[i] != missing[j]
  {
    missing := [];
    var todo := rows.Keys;
    while todo != {}
      invariant todo <= rows.Keys
      invariant forall i, j :: 0 <= i < j < |missing| ==> missing[i] != missing[j]
      invariant forall id :: id in missing <==> id in rows && id !in todo && id !in present
      decreases todo
    {
      var id := Choose(todo);
      if id !in present {
        missing := missing + [id];
      }
      todo := todo - {id};
    }
  }

  method WriteRows(buffer: Bytes, rows: Rows, ids: seq<Id>) returns (out: Bytes)
    requires forall i :: 0 <= i < |ids| ==> ids[i] in rows
    ensures out == buffer + Lines(rows, ids)
  {
    out := buffer;
    var i := 0;
    while i < |ids|
      invariant 0 <= i <= |ids| && out == buffer + Lines(rows, ids[..i])
    {
      assert ids[..i + 1][..i] == ids[..i];
      out := out + rows[ids[i]] + CRLF;
      assert out == buffer + (Lines(rows, ids[..i]) + rows[ids[i]] + CRLF);
      i := i + 1;
    }
    assert ids[..i] == ids;
  }

  /** sort.Slice on distinct IDs. */
  method SortIds(missing: seq<Id>) returns (sorted: seq<Id>)
    requires forall i, j :: 0 <= i < j < |missing| ==> missing[i] != missing[j]
    ensures Codec.Increasing(sorted) && |sorted| == |missing| && forall id :: id in sorted <==> id in missing
  {
    var a := Codec.SortedCopy(missing);
    sorted := a[..];
    Codec.SameMembers(sorted, missing);
    OnceEach(missing);
    forall i, j | 0 <= i < j < |sorted| ensures sorted[i] < sorted[j] {
      if sorted[i] == sorted[j] {
        TwiceCounted(sorted, i, j);
      }
    }
  }

  lemma {:induction false} OnceEach(ids: seq<Id>)
    requires forall i, j :: 0 <= i < j < |ids| ==> ids[i] != ids[j]
    ensures forall id :: multiset(ids)[id] <= 1
  {
    if ids != [] {
      var rest, last := ids[..|ids| - 1], ids[|ids| - 1];
      OnceEach(rest);
      assert ids == rest + [last] && last !in rest;
    }
  }

  lemma TwiceCounted(ids: seq<Id>, i: nat, j: nat)
    requires i < j < |ids| && ids[i] == ids[j]
    ensures multiset(ids)[ids[i]] >= 2
  {
    var head, tail := ids[..j], ids[j..];
    assert ids == head + tail && head[i] == ids[i] && tail[0] == ids[j];
    assert ids[i] in multiset(head) && ids[i] in multiset(tail);
  }

  /** mergeItemInfoOverlay: the missing rows in ascending order behind the PVF data. */
  method MergeItemInfo(pvf: Bytes, rows: Rows) returns (out: Bytes, changed: bool, ghost ids: seq<Id>)
    ensures MissingIds(pvf, rows, ids) && (forall i :: 0 <= i < |ids| ==> ids[i] in rows)
    ensures out == if ids == [] then pvf else Closed(pvf) + Lines(rows, ids)
    ensures changed <==> exists id :: id in rows && id !in Ids(pvf)
    ensures pvf <= out && (!changed ==> out == pvf)
    ensures RowsFit(rows) ==> Ids(out) == Ids(pvf) + rows.Keys
  {
    hide RowsFit, Ids, Lines;
    var present := ScanItemInfoIDs(pvf);
    var missing := CollectMissing(rows, present);
    MembersByIndex(missing);
    var sorted := SortIds(missing);
    ids := sorted;
    MembersByIndex(ids);
    if RowsFit(rows) {
      MergeIsUnion(pvf, rows, ids);
    }
    if |missing| == 0 {
      return pvf, false, ids;
    }
    assert missing[0] in rows && missing[0] !in Ids(pvf);
    out := pvf;
    if |out| > 0 && out[|out| - 1] != LF {
      out := out + CRLF;
    }
    out := WriteRows(out, rows, sorted);
    changed := true;
  }

  lemma MembersByIndex(ids: seq<Id>)
    ensures forall i :: 0 <= i < |ids| ==> ids[i] in ids
    ensures ids != [] ==> ids[0] in ids
  {
  }

  lemma {:induction false} LineEndAt(data: Bytes, k: nat)
    requires k <= |data| && (forall j :: 0 <= j < k ==> data[j] != LF) && (k < |data| ==> data[k] == LF)
    ensures LineEnd(data) == k
  {
    if k > 0 { LineEndAt(data[1..], k - 1); }
  }

  ghost predicate EndsLine(data: Bytes) { data == [] || data[|data| - 1] == LF }

  lemma SplitLine(data: Bytes) returns (line: Bytes, rest: Bytes)
    requires LF in data
    ensures data == line + [LF] + rest && LF !in line
  {
    var k := LineEnd(data);
    line, rest := data[..k], data[k + 1..];
  }

  /** The first line decides, then the rest. */
  lemma IdsLine(line: Bytes, rest: Bytes)
    requires LF !in line
    ensures Ids(line + [LF] + rest) == AsSet(LeadingID(line)) + Ids(rest)
  {
    var data := line + [LF] + rest;
    LineEndAt(data, |line|);
    assert data[..|line|] == line && Tail(data) == rest;
    hide LeadingID, LineEnd, Tail;
  }

  lemma IdsLastLine(line: Bytes)
    requires LF !in line && line != []
    ensures Ids(line) == AsSet(LeadingID(line))
  {
    LineEndAt(line, |line|);
    assert line[..|line|] == line && Tail(line) == [];
    hide LeadingID, LineEnd, Tail;
  }

  lemma Regroup(line: Bytes, rest: Bytes, b: Bytes)
    ensures line + [LF] + rest + b == line + [LF] + (rest + b)
  {
  }

  /** Behind a line end the scanner starts afresh. */
  lemma {:induction false} IdsConcat(a: Bytes, b: Bytes)
    requires EndsLine(a)
    ensures Ids(a + b) == Ids(a) + Ids(b)
    decreases |a|
  {
    if a == [] {
      assert a + b == b;
    } else {
      var line, rest := SplitLine(a);
      assert EndsLine(rest);
      hide Ids, LeadingID, AsSet, EndsLine;
      IdsLine(line, rest);
      IdsConcat(rest, b);
      IdsLine(line, rest + b);
      Regroup(line, rest, b);
    }
  }

  lemma IdsOfUnclosedLine(line: Bytes)
    requires line != [] && LF !in line
    ensures Ids(line + CRLF) == Ids(line) == AsSet(LeadingID(line))
  {
    assert line + CRLF == line + [CR] + [LF] + [];
    hide LeadingID;
    IdsLastLine(line);
    IdsLine(line + [CR], []);
    ReturnIgnored(line);
  }

  lemma {:induction false} IdsWithLineEnd(data: Bytes)
    requires !EndsLine(data)
    ensures Ids(data + CRLF) == Ids(data)
    decreases |data|
  {
    if LF in data {
      var line, rest := SplitLine(data);
      assert !EndsLine(rest);
      hide Ids, LeadingID, AsSet, EndsLine;
      IdsLine(line, rest);
      IdsWithLineEnd(rest);
      IdsLine(line, rest + CRLF);
      Regroup(line, rest, CRLF);
    } else {
      IdsOfUnclosedLine(data);
    }
  }

  /** Closing the last line of the PVF data does not change its IDs. */
  lemma IdsClosed(data: Bytes)
    ensures Ids(Closed(data)) == Ids(data) && EndsLine(Closed(data)) && data <= Closed(data)
  {
    if !EndsLine(data) {
      IdsWithLineEnd(data);
    }
    hide Ids;
  }

  lemma IdsOfRow(id: Id, row: Bytes)
    requires RowFits(id, row)
    ensures Ids(row + CRLF) == {id} && EndsLine(row + CRLF)
  {
    IdsOfUnclosedLine(row);
    hide Ids;
  }

  lemma LinesStep(rows: Rows, ids: seq<Id>)
    requires ids != [] && forall i :: 0 <= i < |ids| ==> ids[i] in rows
    ensures Lines(rows, ids) == Lines(rows, ids[..|ids| - 1]) + (rows[ids[|ids| - 1]] + CRLF)
    ensures EndsLine(Lines(rows, ids))
    ensures forall id :: id in ids <==> id in ids[..|ids| - 1] || id == ids[|ids| - 1]
  {
    assert ids == ids[..|ids| - 1] + [ids[|ids| - 1]];
  }

  lemma {:induction false} IdsOfLines(rows: Rows, ids: seq<Id>)
    requires RowsFit(rows) && forall i :: 0 <= i < |ids| ==> ids[i] in rows
    ensures (forall id :: id in Ids(Lines(rows, ids)) <==> id in ids) && EndsLine(Lines(rows, ids))
  {
    if ids != [] {
      var rest, last := ids[..|ids| - 1], ids[|ids| - 1];
      IdsOfLines(rows, rest);
      IdsOfRow(last, rows[last]);
      hide Ids, Lines, RowsFit, EndsLine;
      IdsConcat(Lines(rows, rest), rows[last] + CRLF);
      LinesStep(rows, ids);
    }
  }

  /** The merged data keeps the PVF data as its beginning, and its own scanner finds in it exactly
      the IDs of both, also when the PVF data does not end in a line end. */
  lemma MergeIsUnion(pvf: Bytes, rows: Rows, ids: seq<Id>)
    requires RowsFit(rows) && MissingIds(pvf, rows, ids) && forall i :: 0 <= i < |ids| ==> ids[i] in rows
    ensures var out := if ids == [] then pvf else Closed(pvf) + Lines(rows, ids);
      && pvf <= out
      && Ids(out) == Ids(pvf) + rows.Keys
  {
    IdsClosed(pvf);
    IdsOfLines(rows, ids);
    IdsConcat(Closed(pvf), Lines(rows, ids));
    UnionOfMissing(Ids(pvf), Ids(Lines(rows, ids)), rows.Keys, ids);
    hide Ids, Lines, RowsFit, Closed;
  }

  lemma UnionOfMissing(present: set<Id>, added: set<Id>, keys: set<Id>, ids: seq<Id>)
    requires forall id :: id in ids <==> id in keys && id !in present
    requires forall id :: id in added <==> id in ids
    ensures present + added == present + keys
    ensures ids == [] ==> present == present + keys
  {
    MembersByIndex(ids);
  }

  /** Merging the same rows again changes nothing. */
  lemma MergeAgain(pvf: Bytes, rows: Rows, ids: seq<Id>, again: seq<Id>)
    requires RowsFit(rows) && MissingIds(pvf, rows, ids) && forall i :: 0 <= i < |ids| ==> ids[i] in rows
    requires MissingIds(if ids == [] then pvf else Closed(pvf) + Lines(rows, ids), rows, again)
    ensures again == []
  {
    MergeIsUnion(pvf, rows, ids);
    MembersByIndex(again);
    hide Ids, Lines, RowsFit, Closed, LineEnd, Codec.Increasing;
  }
}
