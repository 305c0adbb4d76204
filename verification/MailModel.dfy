/**
 The mail notifier of internal/capability/mailnotify/notifier.go as a system of two mail
 tables, a durable cursor file and the notifications sent.

 A row carries what the queries select: its id, and the character to notify, or 0 when the
 mail was sent by a player.  Rows become visible in any order of their ids, as their
 transactions commit, and may be deleted at any time.  Failures of the database, of the sender
 and of the file, and a program that is killed between sending and saving, are choices of the
 environment.
 */
module MailModel {
  import opened Collections
  import Codec = ItemCodec

  type Id = x: int | 0 <= x < 0x1_0000_0000_0000_0000
  type Charac = x: int | 0 <= x < 0x1_0000_0000

  const MAX_PENDING: nat := 4096
  const MAX_MAILS_PER_POLL: nat := 64
  const QUERY_LIMIT: nat := 1000
  const PENDING_TTL: nat := 24 * 60 * 60 * 1000  // milliseconds

  /** `arrived` is the length of the log when the row appeared; `late` tells that the durable
      cursor of its table was at or behind its id already. */
  datatype Row = Row(id: Id, charac: Charac, arrived: nat, late: bool)

  type Pending = map<Charac, int>

  datatype Cursors = Cursors(letterID: Id, postalID: Id, pending: Pending)

  datatype File = Absent | Unreadable | Saved(state: Cursors)

  /** What happened, oldest first: a delivery, or entries that a saved poll gave up as too old. */
  datatype Entry = Notified(charac: Charac) | Expired(dropped: Pending, now: int)

  datatype World = World(
    letters: seq<Row>,       // the rows of the table, in the order of their ids
    postals: seq<Row>,
    file: File,
    baseLetter: Id,
    basePostal: Id,
    log: seq<Entry>,
    history: seq<Row>)       // every row that ever appeared

  datatype Table = Letters | Postals

  datatype Attempt = Attempt(key: Charac, accepted: bool)

  datatype Poll = Poll(
    now: int,                // in milliseconds
    delay: nat,              // settleDelay
    loaded: Pending,         // the pending mails after loadState trimmed them
    queryOK: bool,
    attempts: seq<Attempt>,  // in the order of the map range
    cancelled: bool,         // the context ended the sending
    saveOK: bool)

  datatype Op =
    | MailArrives(table: Table, id: Id, charac: Charac)
    | MailDeleted(table: Table, id: Id)
    | FileLost
    | FileDamaged
    | PollOnce(poll: Poll)

  // ----- the parts of a poll -----

  predicate TooOld(readyAt: int, now: int) {
    readyAt <= 0 || readyAt < now - PENDING_TTL
  }

  /** prunePendingMails. */
  function Pruned(p: Pending, now: int): Pending {
    map k | k in p && !TooOld(p[k], now) :: p[k]
  }

  function DroppedBy(p: Pending, now: int): Pending {
    map k | k in p && TooOld(p[k], now) :: p[k]
  }

  /** The order of Go strings. */
  predicate TextLess(s: string, t: string) {
    t != [] && (s == [] || s[0] < t[0] || (s[0] == t[0] && TextLess(s[1..], t[1..])))
  }

  /** The order of trimPendingMails: by ready time, then by the decimal text of the key. */
  predicate Earlier(p: Pending, k: Charac, d: Charac)
    requires k in p && d in p
  {
    p[k] < p[d] || (p[k] == p[d] && TextLess(Codec.Format(k), Codec.Format(d)))
  }

  /** trimPendingMails keeps the first entries in that order. */
  ghost predicate Trimmed(p: Pending, limit: nat, kept: Pending) {
    && (forall k :: k in kept ==> k in p && kept[k] == p[k])
    && |kept| == (if |p| <= limit then |p| else limit)
    && (forall k, d :: k in kept && d in p && d !in kept ==> Earlier(p, k, d))
  }

  lemma {:induction false} TextOrder(s: string, t: string, u: string)
    ensures s != t <==> TextLess(s, t) || TextLess(t, s)
    ensures !(TextLess(s, t) && TextLess(t, s))
    ensures TextLess(s, t) && TextLess(t, u) ==> TextLess(s, u)
    decreases |s|
  {
    if s != [] && t != [] {
      TextOrder(s[1..], t[1..], if u == [] then [] else u[1..]);
      assert s == [s[0]] + s[1..] && t == [t[0]] + t[1..];
    }
  }

  lemma EarlierOrder(p: Pending, k: Charac, d: Charac, e: Charac)
    requires k in p && d in p && e in p
    ensures k != d <==> Earlier(p, k, d) || Earlier(p, d, k)
    ensures !(Earlier(p, k, d) && Earlier(p, d, k))
    ensures Earlier(p, k, d) && Earlier(p, d, e) ==> Earlier(p, k, e)
  {
    hide TextLess, Codec.Format;
    TextOrder(Codec.Format(k), Codec.Format(d), Codec.Format(e));
    Codec.FormatIsDigits(k);
    Codec.FormatIsDigits(d);
  }

  /** Which entries stay is determined. */
  lemma TrimUnique(p: Pending, limit: nat, a: Pending, b: Pending)
    requires Trimmed(p, limit, a) && Trimmed(p, limit, b)
    ensures a == b
  {
    hide Earlier;
    if a.Keys != b.Keys {
      assert |a.Keys| == |b.Keys|;
      var k := Difference(a.Keys, b.Keys);
      var d := Difference(b.Keys, a.Keys);
      EarlierOrder(p, k, d, k);
    }
  }

  /** The rows behind the cursor, at most limit of them. */
  function Fetch(rows: seq<Row>, cursor: Id, limit: nat): seq<Row>
    decreases |rows|
  {
    if rows == [] || limit == 0 then []
    else if rows[0].id <= cursor then Fetch(rows[1..], cursor, limit)
    else [rows[0]] + Fetch(rows[1..], cursor, limit - 1)
  }

  /** The cursor after a query. */
  function NextCursor(cursor: Id, fetched: seq<Row>): Id {
    if fetched == [] then cursor
    else var c := NextCursor(cursor, fetched[..|fetched| - 1]);
      if fetched[|fetched| - 1].id > c then fetched[|fetched| - 1].id else c
  }

  datatype Intake = Intake(pending: Pending, added: bool, dropped: nat)

  /** The loop of collect over the fetched rows. */
  function TakeIn(p: Pending, fetched: seq<Row>, readyAt: int): Intake {
    if fetched == [] then Intake(p, false, 0)
    else
      var t, c := TakeIn(p, fetched[..|fetched| - 1], readyAt), fetched[|fetched| - 1].charac;
      if c == 0 || c in t.pending then t
      else if |t.pending| >= MAX_PENDING then t.(dropped := t.dropped + 1)
      else t.(pending := t.pending[c := readyAt], added := true)
  }

  function Fetched(w: World, s: Cursors): seq<Row> {
    Fetch(w.letters, s.letterID, QUERY_LIMIT) + Fetch(w.postals, s.postalID, QUERY_LIMIT)
  }

  /** collect: the cursors move only if every fetched event found a place. */
  function Collect(w: World, s: Cursors, readyAt: int): (Cursors, bool) {
    var intake := TakeIn(s.pending, Fetched(w, s), readyAt);
    var letterID := NextCursor(s.letterID, Fetch(w.letters, s.letterID, QUERY_LIMIT));
    var postalID := NextCursor(s.postalID, Fetch(w.postals, s.postalID, QUERY_LIMIT));
    if intake.dropped > 0 then (s.(pending := intake.pending), intake.added)
    else (Cursors(letterID, postalID, intake.pending), intake.added || letterID != s.letterID || postalID != s.postalID)
  }

  predicate Settles(a: Attempt) { a.key == 0 || a.accepted }

  function Settled(attempts: seq<Attempt>): set<Charac> {
    set i | 0 <= i < |attempts| && Settles(attempts[i]) :: attempts[i].key
  }

  function Deliveries(attempts: seq<Attempt>): seq<Entry> {
    if attempts == [] then []
    else
      var a := attempts[|attempts| - 1];
      Deliveries(attempts[..|attempts| - 1]) + (if a.key != 0 && a.accepted then [Notified(a.key)] else [])
  }

  /** What the send loop may do: ready mails, each once, at most 64, and all of them unless a limit is met. */
  ghost predicate SendsAllowed(pending: Pending, now: int, attempts: seq<Attempt>, cancelled: bool) {
    && |attempts| <= MAX_MAILS_PER_POLL
    && (forall i :: 0 <= i < |attempts| ==> attempts[i].key in pending && pending[attempts[i].key] <= now)
    && (forall i, j :: 0 <= i < j < |attempts| ==> attempts[i].key != attempts[j].key)
    && (!cancelled && |attempts| < MAX_MAILS_PER_POLL ==>
          forall k :: k in pending && pending[k] <= now ==> exists i :: 0 <= i < |attempts| && attempts[i].key == k)
  }

  // ----- a poll -----

  /** The state in memory when the sending starts, and whether it has changed; None if the query failed. */
  datatype Ready = None | Some(state: Cursors, changed: bool)

  function Prepare(w: World, s: Cursors, p: Poll): Ready {
    var pruned := s.(pending := Pruned(p.loaded, p.now));
    var changed := DroppedBy(p.loaded, p.now) != map[];
    if |pruned.pending| >= MAX_PENDING then Some(pruned, changed)
    else if !p.queryOK then None
    else
      var (collected, more) := Collect(w, pruned, p.now + p.delay);
      Some(collected, changed || more)
  }

  function PollSaved(w: World, s: Cursors, p: Poll): World {
    match Prepare(w, s, p)
    case None => w
    case Some(ready, changed) =>
      var sent := w.log + Deliveries(p.attempts);
      if (changed || Settled(p.attempts) != {}) && p.saveOK then
        w.(file := Saved(ready.(pending := ready.pending - Settled(p.attempts))),
           log := sent + [Expired(DroppedBy(p.loaded, p.now), p.now)])
      else w.(log := sent)
  }

  function RowsOf(w: World, table: Table): seq<Row> { if table == Letters then w.letters else w.postals }

  function BaseOf(w: World, table: Table): Id { if table == Letters then w.baseLetter else w.basePostal }

  function CursorOf(s: Cursors, table: Table): Id { if table == Letters then s.letterID else s.postalID }

  function WithRows(w: World, table: Table, rows: seq<Row>): World {
    if table == Letters then w.(letters := rows) else w.(postals := rows)
  }

  /** The first index behind the ids up to this one. */
  function Place(rows: seq<Row>, id: Id): (k: nat)
    ensures k <= |rows| && (forall j :: 0 <= j < k ==> rows[j].id <= id) && (k < |rows| ==> rows[k].id > id)
  {
    if rows == [] || rows[0].id > id then 0 else 1 + Place(rows[1..], id)
  }

  function Insert(rows: seq<Row>, row: Row): seq<Row> {
    rows[..Place(rows, row.id)] + [row] + rows[Place(rows, row.id)..]
  }

  function Remove(rows: seq<Row>, id: Id): seq<Row> {
    if rows == [] then [] else if rows[0].id == id then rows[1..] else [rows[0]] + Remove(rows[1..], id)
  }

  /** The row of a mail that appears now. */
  function NewRow(w: World, table: Table, id: Id, charac: Charac): Row {
    Row(id, charac, |w.log|, w.file.Saved? && id <= CursorOf(w.file.state, table))
  }

  function LastId(rows: seq<Row>): Id {
    if rows == [] then 0 else rows[|rows| - 1].id
  }

  /** Without a readable file the present ends of the tables become the baseline. */
  function Baseline(w: World, p: Poll): World {
    if !p.queryOK || !p.saveOK then w
    else
      var letterID, postalID := LastId(w.letters), LastId(w.postals);
      w.(file := Saved(Cursors(letterID, postalID, map[])), baseLetter := letterID, basePostal := postalID)
  }

  ghost predicate Enabled(w: World, op: Op) {
    match op
    case MailArrives(table, id, _) => id > 0 && forall r :: r in RowsOf(w, table) ==> r.id != id
    case PollOnce(p) =>
      w.file.Saved? ==>
        && Trimmed(w.file.state.pending, MAX_PENDING, p.loaded)
        && (Prepare(w, w.file.state, p).Some? ==>
              SendsAllowed(Prepare(w, w.file.state, p).state.pending, p.now, p.attempts, p.cancelled))
    case _ => true
  }

  function Step(w: World, op: Op): World {
    match op
    case MailArrives(table, id, charac) =>
      var row := NewRow(w, table, id, charac);
      WithRows(w, table, Insert(RowsOf(w, table), row)).(history := w.history + [row])
    case MailDeleted(table, id) => WithRows(w, table, Remove(RowsOf(w, table), id))
    case FileLost => w.(file := Absent)
    case FileDamaged => w.(file := Unreadable)
    case PollOnce(p) => if w.file.Saved? then PollSaved(w, w.file.state, p) else Baseline(w, p)
  }

  // ----- no mail is lost -----

  predicate Ends(e: Entry, c: Charac) {
    match e
    case Notified(k) => k == c
    case Expired(dropped, now) => c in dropped && TooOld(dropped[c], now)
  }

  /** Since `from`, a notification for c was delivered or a pending one was given up as too old. */
  ghost predicate Ended(log: seq<Entry>, from: nat, c: Charac) {
    exists q :: from <= q < |log| && Ends(log[q], c)
  }

  /** Every system mail between the baseline and the cursor that did not arrive late is waiting, or
      was ended after it arrived. */
  ghost predicate Accounted(rows: seq<Row>, base: Id, cursor: Id, waiting: set<Charac>, log: seq<Entry>) {
    forall r :: r in rows && base < r.id <= cursor && !r.late && r.charac != 0 ==>
      r.charac in waiting || Ended(log, r.arrived, r.charac)
  }

  /** Late rows stay behind the cursor. */
  ghost predicate LateBehind(rows: seq<Row>, cursor: Id) {
    forall r :: r in rows && r.late ==> r.id <= cursor
  }

  ghost predicate Increasing(rows: seq<Row>) {
    forall i, j :: 0 <= i < j < |rows| ==> rows[i].id < rows[j].id
  }

  ghost predicate TableOrdered(rows: seq<Row>, log: seq<Entry>, history: seq<Row>) {
    Increasing(rows) && forall r :: r in rows ==> r.id > 0 && r.arrived <= |log| && r in history
  }

  ghost predicate TablesOrdered(w: World) {
    TableOrdered(w.letters, w.log, w.history) && TableOrdered(w.postals, w.log, w.history)
  }

  ghost predicate TableFits(rows: seq<Row>, base: Id, cursor: Id, waiting: set<Charac>, log: seq<Entry>) {
    base <= cursor && Accounted(rows, base, cursor, waiting, log) && LateBehind(rows, cursor)
  }

  ghost predicate StateFits(w: World, s: Cursors, waiting: set<Charac>, log: seq<Entry>) {
    && TableFits(w.letters, w.baseLetter, s.letterID, waiting, log)
    && TableFits(w.postals, w.basePostal, s.postalID, waiting, log)
  }

  /** A system mail for c arrived when the log had at most `until` entries. */
  ghost predicate HasMail(w: World, c: Charac, until: nat) {
    exists r :: r in w.history && r.charac == c && r.arrived <= until
  }

  ghost predicate OnlyMail(w: World, p: Pending) {
    forall c :: c in p ==> c != 0 && HasMail(w, c, |w.log|)
  }

  ghost predicate OnlyMailNotified(w: World) {
    forall q :: 0 <= q < |w.log| && w.log[q].Notified? ==> w.log[q].charac != 0 && HasMail(w, w.log[q].charac, q)
  }

  ghost predicate Inv(w: World) {
    && TablesOrdered(w) && OnlyMailNotified(w)
    && (w.file.Saved? ==>
          && StateFits(w, w.file.state, w.file.state.pending.Keys, w.log)
          && |w.file.state.pending| <= MAX_PENDING && OnlyMail(w, w.file.state.pending))
  }

  /** A cursor file that the program wrote is never trimmed. */
  lemma TrimIsIdle(p: Pending, kept: Pending)
    requires Trimmed(p, MAX_PENDING, kept) && |p| <= MAX_PENDING
    ensures kept == p
  {
    SubsetSize(kept.Keys, p.Keys);
  }

  lemma {:induction false} NextCursorBounds(cursor: Id, fetched: seq<Row>)
    ensures NextCursor(cursor, fetched) >= cursor
    ensures forall i :: 0 <= i < |fetched| ==> fetched[i].id <= NextCursor(cursor, fetched)
    ensures
      || NextCursor(cursor, fetched) == cursor
      || exists i :: 0 <= i < |fetched| && fetched[i].id == NextCursor(cursor, fetched)
  {
    if fetched != [] {
      var rest := fetched[..|fetched| - 1];
      NextCursorBounds(cursor, rest);
      assert forall i :: 0 <= i < |rest| ==> fetched[i] == rest[i];
    }
  }

  lemma {:induction false} FetchFromTable(rows: seq<Row>, cursor: Id, limit: nat)
    ensures forall f :: f in Fetch(rows, cursor, limit) ==> f in rows && f.id > cursor
  {
    if rows != [] && limit > 0 {
      FetchFromTable(rows[1..], cursor, if rows[0].id <= cursor then limit else limit - 1);
    }
  }

  lemma TailIncreasing(rows: seq<Row>)
    requires Increasing(rows) && rows != []
    ensures Increasing(rows[1..]) && forall r :: r in rows[1..] ==> r.id > rows[0].id
    ensures forall r :: r in rows <==> r == rows[0] || r in rows[1..]
  {
    assert rows == [rows[0]] + rows[1..];
  }

  /** With the rows up to the cursor in front of index k, a query gives the first `limit` rows from there. */
  lemma {:induction false} FetchIs(rows: seq<Row>, cursor: Id, limit: nat, k: nat)
    requires k <= |rows| && (forall j :: 0 <= j < k ==> rows[j].id <= cursor)
    requires forall j :: k <= j < |rows| ==> rows[j].id > cursor
    ensures Fetch(rows, cursor, limit) == rows[k..if k + limit < |rows| then k + limit else |rows|]
  {
    if rows != [] && limit > 0 {
      var rest := rows[1..];
      var end := if k + limit < |rows| then k + limit else |rows|;
      assert forall j :: 0 <= j < |rest| ==> rest[j] == rows[j + 1];
      if k > 0 {
        FetchIs(rest, cursor, limit, k - 1);
        assert rest[k - 1..end - 1] == rows[k..end];
      } else {
        FetchIs(rest, cursor, limit - 1, 0);
        assert [rows[0]] + rest[..end - 1] == rows[..end];
      }
    }
  }

  /** At most n rows of an increasing table are behind the cursor. */
  predicate AtMostBehind(rows: seq<Row>, cursor: Id, n: nat) {
    |rows| <= n || rows[|rows| - n - 1].id <= cursor
  }

  lemma FetchSlice(rows: seq<Row>, cursor: Id, limit: nat) returns (k: nat, end: nat)
    requires Increasing(rows)
    ensures k <= end <= |rows| && end == (if k + limit < |rows| then k + limit else |rows|)
    ensures (forall j :: 0 <= j < k ==> rows[j].id <= cursor) && (forall j :: k <= j < |rows| ==> rows[j].id > cursor)
    ensures Fetch(rows, cursor, limit) == rows[k..end]
  {
    k := Place(rows, cursor);
    end := if k + limit < |rows| then k + limit else |rows|;
    assert forall j :: k <= j < |rows| ==> rows[j].id > cursor;
    FetchIs(rows, cursor, limit, k);
  }

  lemma FetchReaches(rows: seq<Row>, cursor: Id, limit: nat, i: nat)
    requires Increasing(rows)
    requires i < |rows| && rows[i].id > cursor && (i < limit || rows[i - limit].id <= cursor)
    ensures rows[i] in Fetch(rows, cursor, limit)
  {
    hide Increasing, Fetch;
    var k, end := FetchSlice(rows, cursor, limit);
    assert rows[k..end][i - k] == rows[i];
  }

  /** A query fetches rows of the table that are behind the cursor, in the order of the table and at most
      `limit` of them, and a row with fewer than `limit` rows between the cursor and itself is fetched. */
  lemma FetchExact(rows: seq<Row>, cursor: Id, limit: nat)
    requires Increasing(rows)
    ensures |Fetch(rows, cursor, limit)| <= limit && Increasing(Fetch(rows, cursor, limit))
    ensures forall f :: f in Fetch(rows, cursor, limit) ==> f in rows && f.id > cursor
    ensures forall i :: 0 <= i < |rows| && rows[i].id > cursor && (i < limit || rows[i - limit].id <= cursor) ==>
      rows[i] in Fetch(rows, cursor, limit)
  {
    FetchFromTable(rows, cursor, limit);
    hide Fetch;
    var k, end := FetchSlice(rows, cursor, limit);
    forall i | 0 <= i < |rows| && rows[i].id > cursor && (i < limit || rows[i - limit].id <= cursor)
      ensures rows[i] in Fetch(rows, cursor, limit)
    {
      FetchReaches(rows, cursor, limit, i);
    }
  }

  /** So with at most `limit` rows behind the cursor exactly these are fetched. */
  lemma FetchesAll(rows: seq<Row>, cursor: Id, limit: nat)
    requires Increasing(rows) && AtMostBehind(rows, cursor, limit)
    ensures forall r :: r in rows ==> (r.id > cursor <==> r in Fetch(rows, cursor, limit))
  {
    FetchFromTable(rows, cursor, limit);
    hide Fetch;
    forall i | 0 <= i < |rows| && rows[i].id > cursor ensures rows[i] in Fetch(rows, cursor, limit) {
      FetchReaches(rows, cursor, limit, i);
    }
  }

  /** What the cursor passes was fetched. */
  lemma {:induction false} FetchCovers(rows: seq<Row>, cursor: Id, limit: nat, r: Row, reached: Row)
    requires Increasing(rows) && r in rows && cursor < r.id <= reached.id && reached in Fetch(rows, cursor, limit)
    ensures r in Fetch(rows, cursor, limit)
  {
    TailIncreasing(rows);
    hide Increasing;
    if r != rows[0] {
      FetchCovers(rows[1..], cursor, if rows[0].id <= cursor then limit else limit - 1, r, reached);
    }
  }

  lemma {:induction false} TakeInBounds(p: Pending, fetched: seq<Row>, readyAt: int)
    requires |p| <= MAX_PENDING
    ensures var t := TakeIn(p, fetched, readyAt);
      && |t.pending| <= MAX_PENDING
      && (forall k :: k in p ==> k in t.pending && t.pending[k] == p[k])
      && (forall k :: k in t.pending ==>
            k in p || (k != 0 && t.pending[k] == readyAt && exists f :: f in fetched && f.charac == k))
      && (t.dropped == 0 ==> forall f :: f in fetched && f.charac != 0 ==> f.charac in t.pending)
      && (!t.added ==> t.pending == p)
  {
    if fetched != [] {
      var rest, last := fetched[..|fetched| - 1], fetched[|fetched| - 1];
      TakeInBounds(p, rest, readyAt);
      assert fetched == rest + [last];
      assert last in fetched;
    }
  }

  /** The flag tells whether the pending set grew. */
  lemma {:induction false} AddedMeans(p: Pending, fetched: seq<Row>, readyAt: int)
    ensures var t := TakeIn(p, fetched, readyAt); if t.added then |t.pending| > |p| else t.pending == p
  {
    if fetched != [] {
      AddedMeans(p, fetched[..|fetched| - 1], readyAt);
    }
  }

  lemma FetchPasses(rows: seq<Row>, cursor: Id)
    requires Increasing(rows)
    ensures var fetched := Fetch(rows, cursor, QUERY_LIMIT);
      && cursor <= NextCursor(cursor, fetched)
      && forall r :: r in rows && cursor < r.id <= NextCursor(cursor, fetched) ==> r in fetched
  {
    var fetched := Fetch(rows, cursor, QUERY_LIMIT);
    var next := NextCursor(cursor, fetched);
    NextCursorBounds(cursor, fetched);
    hide Fetch, NextCursor, Increasing;
    if next != cursor {
      var k :| 0 <= k < |fetched| && fetched[k].id == next;
      forall r | r in rows && cursor < r.id <= next ensures r in fetched {
        FetchCovers(rows, cursor, QUERY_LIMIT, r, fetched[k]);
      }
    }
  }

  lemma FitsAfterFetch(rows: seq<Row>, base: Id, cursor: Id, waiting: set<Charac>, more: set<Charac>, log: seq<Entry>)
    requires Increasing(rows) && TableFits(rows, base, cursor, waiting, log) && waiting <= more
    requires forall f :: f in Fetch(rows, cursor, QUERY_LIMIT) && f.charac != 0 ==> f.charac in more
    ensures TableFits(rows, base, NextCursor(cursor, Fetch(rows, cursor, QUERY_LIMIT)), more, log)
  {
    FetchPasses(rows, cursor);
    hide Fetch, NextCursor, Increasing, Ended;
  }

  /** A mail that leaves the pending set with an entry in the log stays accounted for. */
  lemma FitsAfterEnd(rows: seq<Row>, base: Id, cursor: Id, waiting: set<Charac>, left: set<Charac>,
                     log: seq<Entry>, newLog: seq<Entry>)
    requires TableFits(rows, base, cursor, waiting, log) && log <= newLog
    requires forall r :: r in rows ==> r.arrived <= |log|
    requires forall c :: c in waiting && c !in left && c != 0 ==> Ended(newLog, |log|, c)
    ensures TableFits(rows, base, cursor, left, newLog)
  {
    hide Ended;
    forall r | r in rows && base < r.id <= cursor && !r.late && r.charac != 0
      ensures r.charac in left || Ended(newLog, r.arrived, r.charac)
    {
      if r.charac in waiting && r.charac !in left {
        EndedEarlier(newLog, |log|, r.arrived, r.charac);
      } else if r.charac !in waiting {
        EndedLater(log, newLog, r.arrived, r.charac);
      }
    }
  }

  lemma EndedLater(log: seq<Entry>, newLog: seq<Entry>, from: nat, c: Charac)
    requires Ended(log, from, c) && log <= newLog
    ensures Ended(newLog, from, c)
  {
    var q :| from <= q < |log| && Ends(log[q], c);
    assert newLog[q] == log[q];
  }

  lemma EndedEarlier(log: seq<Entry>, from: nat, earlier: nat, c: Charac)
    requires Ended(log, from, c) && earlier <= from
    ensures Ended(log, earlier, c)
  {
  }

  lemma {:induction false} DeliveriesAre(attempts: seq<Attempt>)
    ensures |Deliveries(attempts)| <= |attempts|
    ensures forall e :: e in Deliveries(attempts) ==>
      e.Notified? && e.charac != 0 && exists a :: a in attempts && a.key == e.charac && a.accepted
    ensures forall a :: a in attempts && a.key != 0 && a.accepted ==> Notified(a.key) in Deliveries(attempts)
  {
    if attempts != [] {
      var rest, last := attempts[..|attempts| - 1], attempts[|attempts| - 1];
      DeliveriesAre(rest);
      assert attempts == rest + [last];
      assert last in attempts;
    }
  }

  lemma CollectFits(w: World, s: Cursors, before: set<Charac>, readyAt: int)
    requires TablesOrdered(w) && StateFits(w, s, before, w.log)
    requires |s.pending| <= MAX_PENDING && OnlyMail(w, s.pending)
    ensures var c := Collect(w, s, readyAt).0;
      && StateFits(w, c, before + c.pending.Keys, w.log)
      && |c.pending| <= MAX_PENDING && OnlyMail(w, c.pending)
      && (forall k :: k in s.pending ==> k in c.pending)
  {
    var t, c := TakeIn(s.pending, Fetched(w, s), readyAt), Collect(w, s, readyAt).0;
    TakeInBounds(s.pending, Fetched(w, s), readyAt);
    IntakeIsMail(w, s, readyAt);
    var all := before + c.pending.Keys;
    FitsMore(w.letters, w.baseLetter, s.letterID, before, all, w.log);
    FitsMore(w.postals, w.basePostal, s.postalID, before, all, w.log);
    if t.dropped == 0 {
      assert forall f :: f in Fetched(w, s) && f.charac != 0 ==> f.charac in all;
      FitsAfterFetch(w.letters, w.baseLetter, s.letterID, before, all, w.log);
      FitsAfterFetch(w.postals, w.basePostal, s.postalID, before, all, w.log);
    }
    hide TakeIn, TableOrdered, HasMail, NextCursor, Fetch, TableFits;
  }

  lemma FitsMore(rows: seq<Row>, base: Id, cursor: Id, waiting: set<Charac>, more: set<Charac>, log: seq<Entry>)
    requires TableFits(rows, base, cursor, waiting, log) && waiting <= more
    ensures TableFits(rows, base, cursor, more, log)
  {
    hide Ended;
  }

  lemma PrunedBounds(p: Pending, now: int)
    ensures Pruned(p, now).Keys <= p.Keys && |Pruned(p, now)| <= |p|
    ensures forall k :: k in p && k !in Pruned(p, now) ==> TooOld(p[k], now)
  {
    SubsetSize(Pruned(p, now).Keys, p.Keys);
  }

  lemma PrunedFits(w: World, s: Cursors, pruned: Cursors)
    requires pruned == s.(pending := pruned.pending) && pruned.pending.Keys <= s.pending.Keys
    requires StateFits(w, s, s.pending.Keys, w.log) && OnlyMail(w, s.pending)
    ensures StateFits(w, pruned, s.pending.Keys, w.log) && OnlyMail(w, pruned.pending)
  {
    hide TableFits, HasMail;
  }

  lemma PrunedOrCollectedFits(w: World, s: Cursors, pruned: Cursors, ready: Cursors, readyAt: int)
    requires TablesOrdered(w) && StateFits(w, s, s.pending.Keys, w.log) && OnlyMail(w, s.pending)
    requires pruned == s.(pending := pruned.pending) && pruned.pending.Keys <= s.pending.Keys
    requires |pruned.pending| <= MAX_PENDING && (ready == pruned || ready == Collect(w, pruned, readyAt).0)
    ensures StateFits(w, ready, s.pending.Keys + ready.pending.Keys, w.log)
    ensures |ready.pending| <= MAX_PENDING && OnlyMail(w, ready.pending)
    ensures forall k :: k in pruned.pending ==> k in ready.pending
  {
    PrunedFits(w, s, pruned);
    hide StateFits, OnlyMail, TablesOrdered, Collect;
    if ready == pruned {
      assert s.pending.Keys + ready.pending.Keys == s.pending.Keys;
    } else {
      CollectFits(w, pruned, s.pending.Keys, readyAt);
    }
  }

  lemma PrepareIs(w: World, s: Cursors, p: Poll)
    requires Prepare(w, s, p).Some?
    ensures var pruned := s.(pending := Pruned(p.loaded, p.now));
      Prepare(w, s, p).state == pruned || Prepare(w, s, p).state == Collect(w, pruned, p.now + p.delay).0
  {
    hide Collect, Pruned;
  }

  /** What is prepared for sending is accounted for by what was loaded and what was added. */
  lemma PrepareFits(w: World, p: Poll)
    requires Inv(w) && w.file.Saved? && p.loaded == w.file.state.pending
    requires Prepare(w, w.file.state, p).Some?
    ensures var s := Prepare(w, w.file.state, p).state;
      && StateFits(w, s, p.loaded.Keys + s.pending.Keys, w.log)
      && |s.pending| <= MAX_PENDING && OnlyMail(w, s.pending)
      && (forall k :: k in p.loaded && k !in s.pending ==> TooOld(p.loaded[k], p.now))
  {
    var s := w.file.state;
    var pruned := s.(pending := Pruned(p.loaded, p.now));
    PrunedBounds(p.loaded, p.now);
    PrepareIs(w, s, p);
    hide StateFits, OnlyMail, OnlyMailNotified, TablesOrdered, Collect, Prepare, Pruned, TooOld;
    PrunedOrCollectedFits(w, s, pruned, Prepare(w, s, p).state, p.now + p.delay);
  }

  lemma IntakeIsMail(w: World, s: Cursors, readyAt: int)
    requires TablesOrdered(w) && OnlyMail(w, s.pending) && |s.pending| <= MAX_PENDING
    ensures OnlyMail(w, TakeIn(s.pending, Fetched(w, s), readyAt).pending)
  {
    var t := TakeIn(s.pending, Fetched(w, s), readyAt);
    TakeInBounds(s.pending, Fetched(w, s), readyAt);
    FetchFromTable(w.letters, s.letterID, QUERY_LIMIT);
    FetchFromTable(w.postals, s.postalID, QUERY_LIMIT);
    forall c | c in t.pending && c !in s.pending ensures c != 0 && HasMail(w, c, |w.log|) {
      var f :| f in Fetched(w, s) && f.charac == c;
      assert f in w.history && f.arrived <= |w.log|;
    }
  }

  /** The log after a poll only reports notifications of mail that had arrived. */
  lemma LogStaysMail(w: World, log: seq<Entry>, t: World)
    requires OnlyMailNotified(w) && w.log <= log && t.history == w.history && t.log == log
    requires forall q :: |w.log| <= q < |log| && log[q].Notified? ==>
      log[q].charac != 0 && HasMail(w, log[q].charac, |w.log|)
    ensures OnlyMailNotified(t)
  {
    forall q | 0 <= q < |log| && log[q].Notified? ensures log[q].charac != 0 && HasMail(t, log[q].charac, q) {
      if q < |w.log| {
        assert log[q] == w.log[q] && HasMail(w, w.log[q].charac, q);
        HasMailLater(w, t, log[q].charac, q, q);
      } else {
        HasMailLater(w, t, log[q].charac, |w.log|, q);
      }
    }
  }

  lemma HasMailLater(w: World, t: World, c: Charac, q: nat, r: nat)
    requires HasMail(w, c, q) && w.history <= t.history && q <= r
    ensures HasMail(t, c, r)
  {
    var m :| m in w.history && m.charac == c && m.arrived <= q;
    assert m in t.history;
  }

  lemma {:induction false} InLog(log: seq<Entry>, more: seq<Entry>, e: Entry, c: Charac)
    requires e in more && Ends(e, c)
    ensures Ended(log + more, |log|, c)
  {
    var i :| 0 <= i < |more| && more[i] == e;
    assert (log + more)[|log| + i] == e;
  }

  lemma PollEnds(s: Cursors, p: Poll, c: Charac, log: seq<Entry>)
    requires c in p.loaded.Keys + s.pending.Keys && c !in (s.pending - Settled(p.attempts)) && c != 0
    requires c in p.loaded && c !in s.pending ==> TooOld(p.loaded[c], p.now)
    ensures Ended(log + Deliveries(p.attempts) + [Expired(DroppedBy(p.loaded, p.now), p.now)], |log|, c)
  {
    var dropped := Expired(DroppedBy(p.loaded, p.now), p.now);
    DeliveriesAre(p.attempts);
    assert log + Deliveries(p.attempts) + [dropped] == log + (Deliveries(p.attempts) + [dropped]);
    if c in s.pending {
      var i :| 0 <= i < |p.attempts| && Settles(p.attempts[i]) && p.attempts[i].key == c;
      assert p.attempts[i] in p.attempts;
      assert Notified(c) in Deliveries(p.attempts);
      InLog(log, Deliveries(p.attempts) + [dropped], Notified(c), c);
    } else {
      InLog(log, Deliveries(p.attempts) + [dropped], dropped, c);
    }
  }

  lemma PollKeepsMailLog(w: World, p: Poll)
    requires Inv(w) && w.file.Saved? && Enabled(w, PollOnce(p))
    ensures OnlyMailNotified(PollSaved(w, w.file.state, p))
  {
    hide TablesOrdered, StateFits, Prepare, Trimmed, HasMail, Settled, Deliveries;
    var t := PollSaved(w, w.file.state, p);
    TrimIsIdle(w.file.state.pending, p.loaded);
    if Prepare(w, w.file.state, p).Some? {
      var s := Prepare(w, w.file.state, p).state;
      PrepareFits(w, p);
      DeliveriesAre(p.attempts);
      forall q | |w.log| <= q < |t.log| && t.log[q].Notified?
        ensures t.log[q].charac != 0 && HasMail(w, t.log[q].charac, |w.log|)
      {
        assert t.log[q] in Deliveries(p.attempts);
        assert t.log[q].charac in s.pending;
      }
      LogStaysMail(w, t.log, t);
    }
  }

  lemma PollKeepsAccount(w: World, p: Poll)
    requires Inv(w) && w.file.Saved? && Enabled(w, PollOnce(p))
    ensures var t := PollSaved(w, w.file.state, p);
      && StateFits(t, t.file.state, t.file.state.pending.Keys, t.log)
      && |t.file.state.pending| <= MAX_PENDING && OnlyMail(t, t.file.state.pending)
  {
    var t := PollSaved(w, w.file.state, p);
    TrimIsIdle(w.file.state.pending, p.loaded);
    if Prepare(w, w.file.state, p).Some? {
      var s := Prepare(w, w.file.state, p).state;
      PrepareFits(w, p);
      var left := s.pending - Settled(p.attempts);
      SubsetSize(left.Keys, s.pending.Keys);
      LogGrows(w, p);
      if t.file != w.file {
        forall c | c in p.loaded.Keys + s.pending.Keys && c !in left && c != 0 ensures Ended(t.log, |w.log|, c) {
          PollEnds(s, p, c, w.log);
        }
      }
      var waiting := if t.file == w.file then p.loaded.Keys else p.loaded.Keys + s.pending.Keys;
      var kept := t.file.state.pending.Keys;
      FitsAfterEnd(w.letters, w.baseLetter, t.file.state.letterID, waiting, kept, w.log, t.log);
      FitsAfterEnd(w.postals, w.basePostal, t.file.state.postalID, waiting, kept, w.log, t.log);
      forall c | c in t.file.state.pending ensures c != 0 && HasMail(t, c, |t.log|) {
        HasMailLater(w, t, c, |w.log|, |t.log|);
      }
    }
  }

  lemma LogGrows(w: World, p: Poll)
    requires w.file.Saved?
    ensures var t := PollSaved(w, w.file.state, p);
      && w.log <= t.log && t.file.Saved? && t.letters == w.letters && t.postals == w.postals
      && t.baseLetter == w.baseLetter && t.basePostal == w.basePostal && t.history == w.history
  {
  }

  lemma OrderedLater(rows: seq<Row>, log: seq<Entry>, newLog: seq<Entry>, history: seq<Row>)
    requires TableOrdered(rows, log, history) && log <= newLog
    ensures TableOrdered(rows, newLog, history)
  {
  }

  lemma PollKeepsInv(w: World, p: Poll)
    requires Inv(w) && w.file.Saved? && Enabled(w, PollOnce(p))
    ensures Inv(PollSaved(w, w.file.state, p))
  {
    PollKeepsAccount(w, p);
    PollKeepsMailLog(w, p);
    LogGrows(w, p);
    hide PollSaved, StateFits, TableOrdered, OnlyMail, OnlyMailNotified;
    OrderedLater(w.letters, w.log, PollSaved(w, w.file.state, p).log, w.history);
    OrderedLater(w.postals, w.log, PollSaved(w, w.file.state, p).log, w.history);
  }

  lemma InsertIs(rows: seq<Row>, row: Row)
    requires Increasing(rows) && forall r :: r in rows ==> r.id != row.id
    ensures Increasing(Insert(rows, row)) && forall r :: r in Insert(rows, row) <==> r in rows || r == row
  {
    var k := Place(rows, row.id);
    hide Place;
    var head, tail := rows[..k], rows[k..];
    assert rows == head + tail;
    assert forall j :: 0 <= j < k ==> rows[j] in rows && rows[j].id < row.id;
    assert forall j :: k <= j < |rows| ==> rows[j].id > row.id;
    InsertedIncreasing(rows, row, k);
  }

  lemma InsertedIncreasing(rows: seq<Row>, row: Row, k: nat)
    requires Increasing(rows) && k <= |rows|
    requires forall j :: 0 <= j < k ==> rows[j].id < row.id
    requires forall j :: k <= j < |rows| ==> rows[j].id > row.id
    ensures Increasing(rows[..k] + [row] + rows[k..])
  {
    var more := rows[..k] + [row] + rows[k..];
    forall i, j | 0 <= i < j < |more| ensures more[i].id < more[j].id {
      assert more[i] == if i < k then rows[i] else if i == k then row else rows[i - 1];
      assert more[j] == if j < k then rows[j] else if j == k then row else rows[j - 1];
    }
  }

  lemma ConsIncreasing(first: Row, rest: seq<Row>)
    requires Increasing(rest) && forall r :: r in rest ==> r.id > first.id
    ensures Increasing([first] + rest) && forall r :: r in [first] + rest <==> r == first || r in rest
  {
    forall i, j | 0 <= i < j < |rest| + 1 ensures ([first] + rest)[i].id < ([first] + rest)[j].id {
      assert rest[j - 1] in rest;
    }
  }

  lemma {:induction false} RemoveIs(rows: seq<Row>, id: Id)
    requires Increasing(rows)
    ensures Increasing(Remove(rows, id)) && forall r :: r in Remove(rows, id) <==> r in rows && r.id != id
  {
    if rows != [] {
      TailIncreasing(rows);
      hide Increasing;
      var first, rest := rows[0], rows[1..];
      assert rows == [first] + rest;
      if first.id != id {
        RemoveIs(rest, id);
        ConsIncreasing(first, Remove(rest, id));
      }
    }
  }

  lemma RowArrives(rows: seq<Row>, row: Row, log: seq<Entry>, history: seq<Row>)
    requires TableOrdered(rows, log, history) && row.id > 0 && row.arrived <= |log|
    requires forall r :: r in rows ==> r.id != row.id
    ensures TableOrdered(Insert(rows, row), log, history + [row])
  {
    InsertIs(rows, row);
    hide Increasing, Insert;
  }

  lemma RowFits(rows: seq<Row>, row: Row, base: Id, cursor: Id, waiting: set<Charac>, log: seq<Entry>)
    requires Increasing(rows) && (forall r :: r in rows ==> r.id != row.id)
    requires TableFits(rows, base, cursor, waiting, log)
    requires row.late <==> row.id <= cursor
    ensures TableFits(Insert(rows, row), base, cursor, waiting, log)
  {
    InsertIs(rows, row);
    hide Increasing, Insert, Ended;
  }

  lemma HistoryGrows(rows: seq<Row>, log: seq<Entry>, history: seq<Row>, more: seq<Row>)
    requires TableOrdered(rows, log, history) && history <= more
    ensures TableOrdered(rows, log, more)
  {
    hide Increasing;
    assert forall r :: r in history ==> r in more;
  }

  lemma MailStays(w: World, t: World)
    requires OnlyMailNotified(w) && w.history <= t.history && t.log == w.log
    ensures OnlyMailNotified(t) && forall p :: OnlyMail(w, p) ==> OnlyMail(t, p)
  {
    forall q | 0 <= q < |t.log| && t.log[q].Notified? ensures t.log[q].charac != 0 && HasMail(t, t.log[q].charac, q) {
      HasMailLater(w, t, t.log[q].charac, q, q);
    }
    forall p, c | OnlyMail(w, p) && c in p ensures c != 0 && HasMail(t, c, |t.log|) {
      HasMailLater(w, t, c, |w.log|, |w.log|);
    }
  }

  lemma ArrivalKeepsInv(w: World, op: Op)
    requires Inv(w) && Enabled(w, op) && op.MailArrives?
    ensures Inv(Step(w, op))
  {
    hide TableOrdered, TableFits, OnlyMail, OnlyMailNotified, Insert;
    var rows, row := RowsOf(w, op.table), NewRow(w, op.table, op.id, op.charac);
    assert TableOrdered(rows, w.log, w.history);
    RowArrives(rows, row, w.log, w.history);
    HistoryGrows(w.letters, w.log, w.history, w.history + [row]);
    HistoryGrows(w.postals, w.log, w.history, w.history + [row]);
    MailStays(w, Step(w, op));
    if w.file.Saved? {
      var s := w.file.state;
      assert Increasing(rows) by { OrderedMeans(rows, w.log, w.history); }
      RowFits(rows, row, BaseOf(w, op.table), CursorOf(s, op.table), s.pending.Keys, w.log);
    }
  }

  lemma OrderedMeans(rows: seq<Row>, log: seq<Entry>, history: seq<Row>)
    requires TableOrdered(rows, log, history)
    ensures Increasing(rows)
  {
  }

  lemma RowLeaves(rows: seq<Row>, id: Id, log: seq<Entry>, history: seq<Row>)
    requires TableOrdered(rows, log, history)
    ensures TableOrdered(Remove(rows, id), log, history)
    ensures forall base, cursor, waiting ::
      TableFits(rows, base, cursor, waiting, log) ==> TableFits(Remove(rows, id), base, cursor, waiting, log)
  {
    RemoveIs(rows, id);
    hide Increasing, Remove, Ended;
  }

  lemma DeletionKeepsInv(w: World, op: Op)
    requires Inv(w) && Enabled(w, op) && op.MailDeleted?
    ensures Inv(Step(w, op))
  {
    hide TableOrdered, TableFits, OnlyMail, OnlyMailNotified, Remove;
    RowLeaves(RowsOf(w, op.table), op.id, w.log, w.history);
    MailStays(w, Step(w, op));
  }

  lemma {:induction false} LastIsGreatest(rows: seq<Row>)
    requires Increasing(rows)
    ensures forall r :: r in rows ==> r.id <= LastId(rows)
  {
  }

  lemma BaselineFits(rows: seq<Row>, waiting: set<Charac>, log: seq<Entry>)
    requires Increasing(rows)
    ensures TableFits(rows, LastId(rows), LastId(rows), waiting, log)
  {
    LastIsGreatest(rows);
    hide Increasing, LastId, Ended;
  }

  lemma BaselineKeepsInv(w: World, p: Poll)
    requires Inv(w) && !w.file.Saved?
    ensures Inv(Baseline(w, p))
  {
    OrderedMeans(w.letters, w.log, w.history);
    OrderedMeans(w.postals, w.log, w.history);
    hide TableOrdered, Increasing, TableFits, OnlyMailNotified, HasMail, LastId;
    BaselineFits(w.letters, {}, w.log);
    BaselineFits(w.postals, {}, w.log);
  }

  lemma StepKeepsInv(w: World, op: Op)
    requires Inv(w) && Enabled(w, op)
    ensures Inv(Step(w, op))
  {
    match op
    case MailArrives(_, _, _) => ArrivalKeepsInv(w, op);
    case MailDeleted(_, _) => DeletionKeepsInv(w, op);
    case PollOnce(p) =>
      if w.file.Saved? { PollKeepsInv(w, p); } else { BaselineKeepsInv(w, p); }
      hide Inv, PollSaved, Baseline;
    case _ => hide TablesOrdered, OnlyMailNotified, HasMail;
  }

  // ----- what one poll achieves, and how long a mail may wait -----

  lemma {:induction false} RoomForAll(p: Pending, fetched: seq<Row>, readyAt: int)
    ensures TakeIn(p, fetched, readyAt).dropped > 0 ==> |TakeIn(p, fetched, readyAt).pending| >= MAX_PENDING
  {
    if fetched != [] {
      RoomForAll(p, fetched[..|fetched| - 1], readyAt);
    }
  }

  lemma AllSettled(pending: Pending, now: int, attempts: seq<Attempt>)
    requires SendsAllowed(pending, now, attempts, false) && |attempts| < MAX_MAILS_PER_POLL
    requires forall k :: k in pending ==> pending[k] <= now
    requires forall i :: 0 <= i < |attempts| ==> attempts[i].accepted
    ensures Settled(attempts) == pending.Keys && |pending| <= |attempts|
    ensures forall k :: k in pending && k != 0 ==> Notified(k) in Deliveries(attempts)
  {
    DeliveriesAre(attempts);
    SettledSize(attempts);
  }

  lemma {:induction false} SettledSize(attempts: seq<Attempt>)
    ensures |Settled(attempts)| <= |attempts|
  {
    if attempts != [] {
      var rest, last := attempts[..|attempts| - 1], attempts[|attempts| - 1];
      SettledSize(rest);
      assert Settled(attempts) == Settled(rest) + (if Settles(last) then {last.key} else {});
    }
  }

  ghost predicate FaultFree(w: World, p: Poll) {
    && w.file.Saved? && Enabled(w, PollOnce(p))
    && p.queryOK && p.saveOK && !p.cancelled && p.delay == 0
    && |p.attempts| < MAX_MAILS_PER_POLL && (forall i :: 0 <= i < |p.attempts| ==> p.attempts[i].accepted)
    && |w.file.state.pending| < MAX_PENDING
    && (forall k :: k in w.file.state.pending ==> w.file.state.pending[k] <= p.now)
  }

  /** With few ready characters the query of a fault-free poll is taken in completely. */
  lemma FaultFreeIntake(w: World, p: Poll, pruned: Cursors, ready: Cursors)
    requires FaultFree(w, p) && pruned == w.file.state.(pending := Pruned(p.loaded, p.now))
    requires ready == Collect(w, pruned, p.now).0
    ensures Prepare(w, w.file.state, p) ==
      Some(ready, DroppedBy(p.loaded, p.now) != map[] || Collect(w, pruned, p.now).1)
    ensures Settled(p.attempts) == ready.pending.Keys
    ensures ready.letterID == NextCursor(pruned.letterID, Fetch(w.letters, pruned.letterID, QUERY_LIMIT))
    ensures ready.postalID == NextCursor(pruned.postalID, Fetch(w.postals, pruned.postalID, QUERY_LIMIT))
    ensures forall f :: f in Fetched(w, pruned) && f.charac != 0 ==> Notified(f.charac) in Deliveries(p.attempts)
    ensures pruned.pending.Keys <= ready.pending.Keys
  {
    var s := w.file.state;
    TrimIsIdle(s.pending, p.loaded);
    PrunedBounds(s.pending, p.now);
    TakeInBounds(pruned.pending, Fetched(w, pruned), p.now);
    RoomForAll(pruned.pending, Fetched(w, pruned), p.now);
    hide TakeIn, Fetch, NextCursor, Fetched, Settled, Trimmed;
    assert Prepare(w, s, p).state == ready;
    AllSettled(ready.pending, p.now, p.attempts);
    hide SendsAllowed, Prepare;
  }

  lemma PollWrites(w: World, p: Poll, ready: Cursors, changed: bool)
    requires w.file.Saved? && Prepare(w, w.file.state, p) == Some(ready, changed) && p.saveOK
    ensures var t := Step(w, PollOnce(p));
      && t.file == (if changed || Settled(p.attempts) != {}
                    then Saved(ready.(pending := ready.pending - Settled(p.attempts))) else w.file)
      && forall e :: e in Deliveries(p.attempts) ==> e in t.log[|w.log|..]
  {
    hide Prepare, Settled;
    var t := Step(w, PollOnce(p));
    assert t.log[|w.log|..|w.log| + |Deliveries(p.attempts)|] == Deliveries(p.attempts);
  }

  lemma FaultFreePollSends(w: World, p: Poll)
    requires FaultFree(w, p)
    ensures var s, t := w.file.state, Step(w, PollOnce(p));
      && t.file == Saved(Cursors(NextCursor(s.letterID, Fetch(w.letters, s.letterID, QUERY_LIMIT)),
                                 NextCursor(s.postalID, Fetch(w.postals, s.postalID, QUERY_LIMIT)), map[]))
      && forall f :: f in Fetched(w, s) && f.charac != 0 ==> Notified(f.charac) in t.log[|w.log|..]
  {
    var s := w.file.state;
    TrimIsIdle(s.pending, p.loaded);
    PrunedBounds(s.pending, p.now);
    var pruned := s.(pending := Pruned(p.loaded, p.now));
    var (ready, more) := Collect(w, pruned, p.now);
    var changed := DroppedBy(p.loaded, p.now) != map[] || more;
    FaultFreeIntake(w, p, pruned, ready);
    PollWrites(w, p, ready, changed);
    CollectUnchanged(w, pruned, p.now);
    NothingDropped(p.loaded, p.now);
    assert Fetched(w, pruned) == Fetched(w, s);
    hide TakeIn, Fetch, NextCursor, Fetched, Settled, SendsAllowed, Trimmed, Collect, Prepare;
    hide Step, DroppedBy, Pruned, Deliveries;
    if changed || Settled(p.attempts) != {} {
      assert ready.pending - Settled(p.attempts) == map[];
    } else {
      assert ready == s && s.pending == map[];
    }
  }

  /** The cursor stands at the greatest id of the table, or where it was when no row is behind it. */
  ghost predicate AtEnd(rows: seq<Row>, cursor: Id, next: Id) {
    && (forall r :: r in rows ==> r.id <= next)
    && (if exists r :: r in rows && r.id > cursor then exists r :: r in rows && r.id == next else next == cursor)
  }

  /** The cursor after a query that takes in all rows behind it. */
  lemma CursorAtEnd(rows: seq<Row>, cursor: Id)
    requires Increasing(rows) && AtMostBehind(rows, cursor, QUERY_LIMIT)
    ensures AtEnd(rows, cursor, NextCursor(cursor, Fetch(rows, cursor, QUERY_LIMIT)))
  {
    var fetched := Fetch(rows, cursor, QUERY_LIMIT);
    FetchesAll(rows, cursor, QUERY_LIMIT);
    FetchFromTable(rows, cursor, QUERY_LIMIT);
    NextCursorBounds(cursor, fetched);
    hide Fetch, NextCursor, Increasing;
    forall r | r in rows ensures r.id <= NextCursor(cursor, fetched) {
      if r.id > cursor { assert r in fetched; }
    }
    assert forall i :: 0 <= i < |fetched| ==> fetched[i] in fetched;
  }

  /** A poll that meets no failure, fewer than 64 ready characters and at most 1000 rows behind each
      cursor notifies every system mail behind the cursors, leaves nothing pending, and moves each
      cursor to the greatest id of its table, or leaves it where it is when no row is behind it. */
  lemma FaultFreePollDelivers(w: World, p: Poll)
    requires FaultFree(w, p) && TablesOrdered(w)
    requires AtMostBehind(w.letters, w.file.state.letterID, QUERY_LIMIT)
    requires AtMostBehind(w.postals, w.file.state.postalID, QUERY_LIMIT)
    ensures var s, t := w.file.state, Step(w, PollOnce(p));
      && t.letters == w.letters && t.postals == w.postals
      && (forall r :: r in w.letters && r.id > s.letterID && r.charac != 0 ==> Notified(r.charac) in t.log[|w.log|..])
      && (forall r :: r in w.postals && r.id > s.postalID && r.charac != 0 ==> Notified(r.charac) in t.log[|w.log|..])
      && t.file.Saved? && t.file.state.pending == map[]
      && AtEnd(w.letters, s.letterID, t.file.state.letterID) && AtEnd(w.postals, s.postalID, t.file.state.postalID)
  {
    var s := w.file.state;
    FaultFreePollSends(w, p);
    OrderedMeans(w.letters, w.log, w.history);
    OrderedMeans(w.postals, w.log, w.history);
    FetchesAll(w.letters, s.letterID, QUERY_LIMIT);
    FetchesAll(w.postals, s.postalID, QUERY_LIMIT);
    CursorAtEnd(w.letters, s.letterID);
    CursorAtEnd(w.postals, s.postalID);
    TablesStay(w, p);
    hide FaultFree, Step, Fetch, NextCursor, TablesOrdered, Increasing;
  }

  lemma TablesStay(w: World, p: Poll)
    requires w.file.Saved? && Enabled(w, PollOnce(p))
    ensures Step(w, PollOnce(p)).letters == w.letters && Step(w, PollOnce(p)).postals == w.postals
  {
    hide Prepare, Settled, Deliveries, Trimmed, SendsAllowed;
  }

  /** c waits since an earlier poll, and for no more than 24 hours. */
  predicate WaitsSince(was: Pending, now: int, c: Charac, readyAt: int) {
    c in was && readyAt == was[c] && readyAt > 0 && readyAt >= now - 24 * 3600 * 1000
  }

  lemma ReadySince(w: World, p: Poll, c: Charac)
    requires w.file.Saved? && |w.file.state.pending| <= MAX_PENDING && Enabled(w, PollOnce(p))
    requires Prepare(w, w.file.state, p).Some? && c in Prepare(w, w.file.state, p).state.pending
    ensures var readyAt := Prepare(w, w.file.state, p).state.pending[c];
      WaitsSince(w.file.state.pending, p.now, c, readyAt) || readyAt == p.now + p.delay
  {
    TrimIsIdle(w.file.state.pending, p.loaded);
    PrunedBounds(p.loaded, p.now);
    var pruned := w.file.state.(pending := Pruned(p.loaded, p.now));
    TakeInBounds(pruned.pending, Fetched(w, pruned), p.now + p.delay);
    hide TakeIn, Fetched, Fetch, NextCursor, Trimmed, SendsAllowed;
  }

  lemma SavedIsReady(w: World, p: Poll, c: Charac)
    requires w.file.Saved? && Step(w, PollOnce(p)).file.Saved? && Step(w, PollOnce(p)).file != w.file
    requires c in Step(w, PollOnce(p)).file.state.pending
    ensures var ready := Prepare(w, w.file.state, p);
      && ready.Some? && c in ready.state.pending
      && Step(w, PollOnce(p)).file.state.pending[c] == ready.state.pending[c]
  {
    hide Prepare, Settled, Deliveries;
  }

  lemma NoticeIsDelivery(w: World, p: Poll, c: Charac)
    requires w.file.Saved?
    ensures |w.log| <= |Step(w, PollOnce(p)).log|
    ensures Notified(c) in Step(w, PollOnce(p)).log[|w.log|..] ==>
      Prepare(w, w.file.state, p).Some? && Notified(c) in Deliveries(p.attempts)
  {
    hide Prepare, Settled, Deliveries;
  }

  lemma DeliveredWasReady(pending: Pending, now: int, attempts: seq<Attempt>, cancelled: bool, c: Charac)
    requires SendsAllowed(pending, now, attempts, cancelled) && Notified(c) in Deliveries(attempts)
    ensures c in pending && pending[c] <= now
  {
    DeliveriesAre(attempts);
    hide Deliveries;
    var a :| a in attempts && a.key == c && a.accepted;
  }

  /** The settle delay and the age limit, as a poll saves and sends: a character that waits has its old
      ready time, at most 24 hours ago, or became known now and is ready after the delay; and nobody
      is notified before that time. */
  lemma DelaysRespected(w: World, p: Poll, c: Charac)
    requires w.file.Saved? && |w.file.state.pending| <= MAX_PENDING && Enabled(w, PollOnce(p))
    ensures var was, t := w.file.state.pending, Step(w, PollOnce(p));
      && (t.file.Saved? && t.file != w.file && c in t.file.state.pending ==>
            || WaitsSince(was, p.now, c, t.file.state.pending[c])
            || t.file.state.pending[c] == p.now + p.delay)
      && (Notified(c) in t.log[|w.log|..] ==>
            (c in was && was[c] <= p.now && WaitsSince(was, p.now, c, was[c])) || p.delay == 0)
  {
    hide Prepare, Step, WaitsSince, Deliveries, Trimmed, SendsAllowed;
    var t := Step(w, PollOnce(p));
    if t.file.Saved? && t.file != w.file && c in t.file.state.pending {
      SavedIsReady(w, p, c);
      ReadySince(w, p, c);
    }
    NoticeIsDelivery(w, p, c);
    if Notified(c) in t.log[|w.log|..] {
      DeliveredWasReady(Prepare(w, w.file.state, p).state.pending, p.now, p.attempts, p.cancelled, c);
      ReadySince(w, p, c);
      WaitsUnchanged(w.file.state.pending, p.now, c, Prepare(w, w.file.state, p).state.pending[c]);
    }
  }

  lemma WaitsUnchanged(was: Pending, now: int, c: Charac, readyAt: int)
    ensures WaitsSince(was, now, c, readyAt) ==> c in was && was[c] == readyAt
  {
  }

  /** Without a readable file a poll notifies nobody and puts both cursors at the ends of the tables. */
  lemma BaselineIsTheEnd(w: World, p: Poll)
    requires TablesOrdered(w) && !w.file.Saved? && Enabled(w, PollOnce(p))
    ensures var t := Step(w, PollOnce(p));
      && t.log == w.log && t.letters == w.letters && t.postals == w.postals
      && (p.queryOK && p.saveOK ==>
            && t.file.Saved? && t.file.state.pending == map[]
            && AtEnd(w.letters, 0, t.file.state.letterID) && AtEnd(w.postals, 0, t.file.state.postalID))
      && (!(p.queryOK && p.saveOK) ==> t == w)
  {
    LastIsEnd(w.letters, w.log, w.history);
    LastIsEnd(w.postals, w.log, w.history);
    hide LastId, TableOrdered, AtEnd;
  }

  lemma LastIsEnd(rows: seq<Row>, log: seq<Entry>, history: seq<Row>)
    requires TableOrdered(rows, log, history)
    ensures AtEnd(rows, 0, LastId(rows))
  {
    LastIsGreatest(rows);
    if rows != [] { assert rows[|rows| - 1] in rows; }
  }

  lemma CollectUnchanged(w: World, s: Cursors, readyAt: int)
    requires |s.pending| <= MAX_PENDING
    ensures !Collect(w, s, readyAt).1 ==> Collect(w, s, readyAt).0 == s
  {
    TakeInBounds(s.pending, Fetched(w, s), readyAt);
  }

  lemma NothingDropped(p: Pending, now: int)
    ensures DroppedBy(p, now) == map[] ==> Pruned(p, now) == p
  {
    if DroppedBy(p, now) == map[] {
      assert forall k :: k in p && TooOld(p[k], now) ==> k in DroppedBy(p, now);
    }
  }

  /** An event whose character is already pending does not restart the clock. */
  lemma {:induction false} MergedMailKeepsTheOldAge(p: Pending, fetched: seq<Row>, readyAt: int, f: Row)
    requires f in fetched && f.charac != 0 && TakeIn(p, fetched, readyAt).dropped == 0 && |p| <= MAX_PENDING
    ensures var t := TakeIn(p, fetched, readyAt).pending;
      f.charac in t && t[f.charac] == if f.charac in p then p[f.charac] else readyAt
  {
    TakeInBounds(p, fetched, readyAt);
  }

  /** So a collected mail is kept for 24 hours after it became ready exactly when its character was
      not pending already, or was pending with a ready time at least as late. */
  lemma KeptForADay(p: Pending, fetched: seq<Row>, readyAt: int, f: Row)
    requires f in fetched && f.charac != 0 && TakeIn(p, fetched, readyAt).dropped == 0 && |p| <= MAX_PENDING
    ensures var t := TakeIn(p, fetched, readyAt).pending;
      (forall now :: now <= readyAt + PENDING_TTL ==> f.charac in Pruned(t, now))
      <==> (if f.charac in p then p[f.charac] > 0 && p[f.charac] >= readyAt else readyAt > 0)
  {
    MergedMailKeepsTheOldAge(p, fetched, readyAt, f);
    var t := TakeIn(p, fetched, readyAt).pending;
    hide TakeIn;
    assert f.charac in Pruned(t, readyAt + PENDING_TTL) <==> !TooOld(t[f.charac], readyAt + PENDING_TTL);
  }

  /** Two letters for character 5, the second a day after the first and while the first still
      waits: the next prune drops them both, the second after one millisecond. */
  lemma DroppedAfterOneMillisecond()
    ensures var now := 1 + PENDING_TTL; var second := Row(2, 5, 0, false);
      var t := TakeIn(map[5 := 1], [second], now);
      t.dropped == 0 && t.pending == map[5 := 1] && Pruned(t.pending, now + 1) == map[]
  {
    assert [Row(2, 5, 0, false)][..0] == [];
  }

  // ----- runs -----

  const EMPTY_WORLD: World := World([], [], Absent, 0, 0, [], [])

  ghost predicate IsRun(run: seq<World>, ops: seq<Op>) {
    && |run| == |ops| + 1 && run[0] == EMPTY_WORLD
    && forall k :: 0 <= k < |ops| ==> Enabled(run[k], ops[k]) && run[k + 1] == Step(run[k], ops[k])
  }

  lemma {:induction false} RunKeepsInv(run: seq<World>, ops: seq<Op>, k: nat)
    requires IsRun(run, ops) && k < |run|
    ensures Inv(run[k])
  {
    if k > 0 {
      RunKeepsInv(run, ops, k - 1);
      StepKeepsInv(run[k - 1], ops[k - 1]);
    }
  }

  /** The character is in the durable pending set, or was ended since the log had `from` entries. */
  ghost predicate Kept(w: World, c: Charac, from: nat) {
    w.file.Saved? && (c in w.file.state.pending || Ended(w.log, from, c))
  }

  /** What a poll makes of a character that it loaded or took in. */
  lemma PollKeeps(w: World, p: Poll, c: Charac)
    requires Inv(w) && w.file.Saved? && Enabled(w, PollOnce(p)) && c != 0
    requires Prepare(w, w.file.state, p).Some? && PollSaved(w, w.file.state, p).file != w.file
    requires c in w.file.state.pending || c in Prepare(w, w.file.state, p).state.pending
    ensures Kept(PollSaved(w, w.file.state, p), c, |w.log|)
  {
    hide Prepare, Trimmed, SendsAllowed, StateFits, OnlyMail, OnlyMailNotified, TablesOrdered;
    hide Ended, Deliveries, Settled;
    TrimIsIdle(w.file.state.pending, p.loaded);
    PrepareFits(w, p);
    var s := Prepare(w, w.file.state, p).state;
    if c !in (s.pending - Settled(p.attempts)) {
      PollEnds(s, p, c, w.log);
    }
  }

  lemma StepKeeps(w: World, op: Op, c: Charac, from: nat)
    requires Inv(w) && Enabled(w, op) && Kept(w, c, from) && c != 0 && from <= |w.log|
    requires Step(w, op).file.Saved?
    ensures Kept(Step(w, op), c, from)
  {
    hide Inv, Prepare, Ended, Trimmed, SendsAllowed, Deliveries, Settled;
    var t := Step(w, op);
    if op.PollOnce? {
      LogGrows(w, op.poll);
      if c in w.file.state.pending && t.file != w.file {
        PollKeeps(w, op.poll, c);
        if c !in t.file.state.pending { EndedEarlier(t.log, |w.log|, from, c); }
      }
    }
    if Ended(w.log, from, c) { EndedLater(w.log, t.log, from, c); }
  }

  /** A row that the cursor passes in collect was fetched, and is among the pending mails. */
  lemma CollectTakes(w: World, s: Cursors, readyAt: int, table: Table, row: Row)
    requires TablesOrdered(w) && |s.pending| <= MAX_PENDING && row in RowsOf(w, table)
    requires CursorOf(s, table) < row.id <= CursorOf(Collect(w, s, readyAt).0, table)
    ensures row in Fetch(RowsOf(w, table), CursorOf(s, table), QUERY_LIMIT)
    ensures row.charac != 0 ==> row.charac in Collect(w, s, readyAt).0.pending
  {
    hide TakeIn, Fetch, NextCursor, Increasing;
    TakeInBounds(s.pending, Fetched(w, s), readyAt);
    FetchPasses(RowsOf(w, table), CursorOf(s, table));
  }

  /** A row that the durable cursor passes in a poll is kept from that poll on. */
  lemma PollTakes(w: World, p: Poll, table: Table, row: Row)
    requires Inv(w) && w.file.Saved? && Enabled(w, PollOnce(p)) && row in RowsOf(w, table)
    requires CursorOf(w.file.state, table) < row.id <= CursorOf(PollSaved(w, w.file.state, p).file.state, table)
    ensures row in Fetch(RowsOf(w, table), CursorOf(w.file.state, table), QUERY_LIMIT)
    ensures row.charac != 0 ==> Kept(PollSaved(w, w.file.state, p), row.charac, |w.log|)
  {
    hide Inv, Trimmed, SendsAllowed, Prepare, PollSaved, Collect, Kept, Fetch;
    var s := w.file.state;
    PollWritesReady(w, p, table);
    PrepareIs(w, s, p);
    PollTakesIntoReady(w, p, table, row);
    if row.charac != 0 {
      PollKeeps(w, p, row.charac);
    }
  }

  lemma PollWritesReady(w: World, p: Poll, table: Table)
    requires w.file.Saved? && CursorOf(PollSaved(w, w.file.state, p).file.state, table) != CursorOf(w.file.state, table)
    ensures var ready, t := Prepare(w, w.file.state, p), PollSaved(w, w.file.state, p);
      ready.Some? && t.file != w.file && CursorOf(t.file.state, table) == CursorOf(ready.state, table)
  {
    hide Prepare, Settled, Deliveries;
  }

  lemma PollTakesIntoReady(w: World, p: Poll, table: Table, row: Row)
    requires Inv(w) && w.file.Saved? && Enabled(w, PollOnce(p)) && Prepare(w, w.file.state, p).Some?
    requires row in RowsOf(w, table)
    requires CursorOf(w.file.state, table) < row.id <= CursorOf(Prepare(w, w.file.state, p).state, table)
    ensures row in Fetch(RowsOf(w, table), CursorOf(w.file.state, table), QUERY_LIMIT)
    ensures row.charac != 0 ==> row.charac in Prepare(w, w.file.state, p).state.pending
  {
    hide Inv, Enabled, Collect, TablesOrdered, Pruned, Prepare, Fetch;
    var s := w.file.state;
    LoadedFits(w, p);
    PrepareIs(w, s, p);
    CollectTakes(w, s.(pending := Pruned(p.loaded, p.now)), p.now + p.delay, table, row);
  }

  lemma LoadedFits(w: World, p: Poll)
    requires Inv(w) && w.file.Saved? && Enabled(w, PollOnce(p))
    ensures TablesOrdered(w) && p.loaded == w.file.state.pending && |Pruned(p.loaded, p.now)| <= MAX_PENDING
  {
    hide StateFits, OnlyMail, OnlyMailNotified, TablesOrdered, Prepare, SendsAllowed;
    TrimIsIdle(w.file.state.pending, p.loaded);
    PrunedBounds(p.loaded, p.now);
  }

  /** In step j of the run a poll fetches the row and moves the durable cursor past it. */
  ghost predicate CollectedIn(run: seq<World>, ops: seq<Op>, j: nat, table: Table, row: Row) {
    && j + 1 < |run| && j < |ops| && ops[j].PollOnce? && run[j].file.Saved? && run[j + 1].file.Saved?
    && row in Fetch(RowsOf(run[j], table), CursorOf(run[j].file.state, table), QUERY_LIMIT)
    && row.id <= CursorOf(run[j + 1].file.state, table)
  }

  /** A row behind the cursor that is not late was there before, unless a poll moved the cursor. */
  lemma PassedRowIsOld(w: World, op: Op, table: Table, row: Row)
    requires Inv(w) && Enabled(w, op) && !op.PollOnce? && w.file.Saved?
    requires row in RowsOf(Step(w, op), table) && row.id <= CursorOf(w.file.state, table) && !row.late
    ensures row in RowsOf(w, table)
  {
    hide TableFits, OnlyMail, OnlyMailNotified, Increasing, Insert, Remove;
    if op.MailArrives? {
      OrderedMeans(RowsOf(w, op.table), w.log, w.history);
      InsertIs(RowsOf(w, op.table), NewRow(w, op.table, op.id, op.charac));
    } else if op.MailDeleted? {
      OrderedMeans(RowsOf(w, op.table), w.log, w.history);
      RemoveIs(RowsOf(w, op.table), op.id);
    }
  }

  lemma {:induction false} MailKeptSince(run: seq<World>, ops: seq<Op>, k: nat, table: Table, row: Row) returns (j: nat)
    requires IsRun(run, ops) && k < |run| && run[k].file.Saved? && row in RowsOf(run[k], table) && !row.late
    requires BaseOf(run[k], table) < row.id <= CursorOf(run[k].file.state, table)
    ensures j < k && CollectedIn(run, ops, j, table, row) && |run[j].log| <= |run[k].log|
    ensures row.charac != 0 ==> Kept(run[k], row.charac, |run[j].log|)
  {
    hide Inv, Enabled, Kept, PollSaved, Fetch, Insert, Remove;
    var w, op := run[k - 1], ops[k - 1];
    RunKeepsInv(run, ops, k - 1);
    if op.PollOnce? {
      LogGrows(w, op.poll);
      if row.id <= CursorOf(w.file.state, table) {
        j := MailKeptSince(run, ops, k - 1, table, row);
        if row.charac != 0 { StepKeeps(w, op, row.charac, |run[j].log|); }
      } else {
        j := k - 1;
        PollTakes(w, op.poll, table, row);
      }
    } else {
      PassedRowIsOld(w, op, table, row);
      j := MailKeptSince(run, ops, k - 1, table, row);
      if row.charac != 0 { StepKeeps(w, op, row.charac, |run[j].log|); }
    }
  }

  /** A row that arrived late is in no query, of this poll or any other. */
  lemma LateIsNeverFetched(run: seq<World>, ops: seq<Op>, j: nat, table: Table, row: Row)
    requires IsRun(run, ops) && j < |run| && run[j].file.Saved? && row.late
    ensures row !in Fetch(RowsOf(run[j], table), CursorOf(run[j].file.state, table), QUERY_LIMIT)
  {
    hide Fetch, Accounted, OnlyMail, OnlyMailNotified, TablesOrdered;
    RunKeepsInv(run, ops, j);
    FetchFromTable(RowsOf(run[j], table), CursorOf(run[j].file.state, table), QUERY_LIMIT);
  }

  /** In every run a mail between the baseline and the durable cursor was collected by some poll if
      and only if it did not arrive late, that is, behind the cursor.  And a system mail that did not
      arrive late is in the durable pending set, or since the poll that collected it began its
      character was notified, or a pending entry for its character was dropped more than 24 hours
      after it became ready. */
  lemma NoMailLost(run: seq<World>, ops: seq<Op>, k: nat, table: Table, row: Row)
    requires IsRun(run, ops) && k < |run| && run[k].file.Saved? && row in RowsOf(run[k], table)
    requires BaseOf(run[k], table) < row.id <= CursorOf(run[k].file.state, table)
    ensures (exists j: nat :: j < k && CollectedIn(run, ops, j, table, row)) <==> !row.late
    ensures !row.late && row.charac != 0 ==>
      exists j: nat ::
        && j < k && CollectedIn(run, ops, j, table, row)
        && (row.charac in run[k].file.state.pending || Ended(run[k].log, |run[j].log|, row.charac))
  {
    hide IsRun, Ended;
    if row.late {
      forall j: nat | j < k ensures !CollectedIn(run, ops, j, table, row) {
        if run[j].file.Saved? { LateIsNeverFetched(run, ops, j, table, row); }
      }
    } else {
      var j := MailKeptSince(run, ops, k, table, row);
      hide CollectedIn;
      assert row.charac != 0 ==> Kept(run[k], row.charac, |run[j].log|);
    }
  }

  ghost predicate Reached(w: World) {
    exists run, ops :: IsRun(run, ops) && run[|ops|] == w
  }

  lemma ReachedStep(w: World, op: Op)
    requires Reached(w) && Enabled(w, op)
    ensures Reached(Step(w, op))
  {
    hide Enabled, Step;
    var run, ops :| IsRun(run, ops) && run[|ops|] == w;
    assert IsRun(run + [Step(w, op)], ops + [op]);
  }

  /** A baseline over empty tables, and then a letter with id 2 for character 5. */
  lemma ReachLetter() returns (w: World)
    ensures Reached(w)
    ensures w == World([Row(2, 5, 0, false)], [], Saved(Cursors(0, 0, map[])), 0, 0, [], [Row(2, 5, 0, false)])
  {
    w := EMPTY_WORLD;
    assert IsRun([w], []);
    assert Reached(w);
    hide Reached, IsRun;
    var poll := Poll(0, 0, map[], true, [], false, true);
    ReachedStep(w, PollOnce(poll));
    w := Step(w, PollOnce(poll));
    ReachedStep(w, MailArrives(Letters, 2, 5));
    w := Step(w, MailArrives(Letters, 2, 5));
  }

  lemma FetchLetter(row: Row)
    requires row == Row(2, 5, 0, false)
    ensures Fetch([row], 0, QUERY_LIMIT) == [row] && NextCursor(0, [row]) == 2
    ensures TakeIn(map[], [row], 1000) == Intake(map[5 := 1000], true, 0)
  {
    assert [row][1..] == [] && [row][..0] == [];
    assert Fetch([], 0, QUERY_LIMIT - 1) == [];
  }

  /** A poll collects and delivers it. */
  lemma ReachDelivery() returns (w: World)
    ensures Reached(w)
    ensures w == World([Row(2, 5, 0, false)], [], Saved(Cursors(2, 0, map[])), 0, 0,
                       [Notified(5), Expired(map[], 1000)], [Row(2, 5, 0, false)])
  {
    hide Reached;
    w := ReachLetter();
    var row := Row(2, 5, 0, false);
    var a := Attempt(5, true);
    var poll := Poll(1000, 0, map[], true, [a], false, true);
    FetchLetter(row);
    assert Fetched(w, w.file.state) == [row];
    hide Fetch, TakeIn, NextCursor;
    assert NextCursor(0, []) == 0 by { NextCursorBounds(0, []); }
    assert Pruned(map[], 1000) == map[] && DroppedBy(map[], 1000) == map[];
    assert Collect(w, w.file.state, 1000) == (Cursors(2, 0, map[5 := 1000]), true);
    assert Prepare(w, w.file.state, poll) == Some(Cursors(2, 0, map[5 := 1000]), true);
    hide Prepare, Collect;
    assert [a][..0] == [] && Deliveries([a]) == [Notified(5)];
    assert Settles(a) && [a][0] == a && Settled([a]) == {5};
    assert map[5 := 1000] - {5} == map[];
    ReachedStep(w, PollOnce(poll));
    w := Step(w, PollOnce(poll));
  }

  /** A run that loses a mail: now the letter with id 1 becomes visible.  It is between the baseline
      and the cursor, no poll has collected it or ever will, and its character was not notified. */
  lemma LateMailIsLost()
    ensures exists w ::
      && Reached(w) && w.file.Saved? && Row(1, 7, 2, true) in w.letters
      && w.baseLetter < 1 <= w.file.state.letterID && 7 !in w.file.state.pending && !Ended(w.log, 0, 7)
  {
    hide Reached;
    var w := ReachDelivery();
    ReachedStep(w, MailArrives(Letters, 1, 7));
    var t := Step(w, MailArrives(Letters, 1, 7));
    assert Row(1, 7, 2, true) in t.letters;
  }

  /** Conversely a character is notified only after system mail for it has arrived. */
  lemma OnlyRealMail(run: seq<World>, ops: seq<Op>, k: nat, q: nat)
    requires IsRun(run, ops) && k < |run| && q < |run[k].log| && run[k].log[q].Notified?
    ensures run[k].log[q].charac != 0 && HasMail(run[k], run[k].log[q].charac, q)
  {
    RunKeepsInv(run, ops, k);
    hide HasMail;
  }

  function Notices(log: seq<Entry>): nat {
    if log == [] then 0 else Notices(log[..|log| - 1]) + (if log[|log| - 1].Notified? then 1 else 0)
  }

  lemma {:induction false} NoticesAtMost(log: seq<Entry>, n: nat)
    requires |log| <= n || (|log| == n + 1 && log[n].Expired?)
    ensures Notices(log) <= n
  {
    if log != [] {
      NoticesAtMost(log[..|log| - 1], if |log| <= n then |log| - 1 else n);
    }
  }

  lemma PollNotices(w: World, p: Poll)
    requires w.file.Saved? && Enabled(w, PollOnce(p))
    ensures var log := PollSaved(w, w.file.state, p).log; w.log <= log && Notices(log[|w.log|..]) <= MAX_MAILS_PER_POLL
  {
    hide Prepare, Trimmed, Settled, Deliveries, Notices;
    DeliveriesAre(p.attempts);
    NoticesAtMost(PollSaved(w, w.file.state, p).log[|w.log|..], MAX_MAILS_PER_POLL);
  }

  /** The durable pending set never exceeds 4096 entries, so that loading never trims it, and the
      log shows at most 64 deliveries per poll. */
  lemma PollsAreBounded(run: seq<World>, ops: seq<Op>, k: nat)
    requires IsRun(run, ops) && k < |ops|
    ensures run[k].file.Saved? ==> |run[k].file.state.pending| <= MAX_PENDING
    ensures run[k].file.Saved? && ops[k].PollOnce? ==> ops[k].poll.loaded == run[k].file.state.pending
    ensures run[k].log <= run[k + 1].log && Notices(run[k + 1].log[|run[k].log|..]) <= MAX_MAILS_PER_POLL
  {
    hide StateFits, OnlyMail, OnlyMailNotified, TablesOrdered, Notices, PollSaved, Trimmed, SendsAllowed, Prepare;
    RunKeepsInv(run, ops, k);
    if run[k].file.Saved? && ops[k].PollOnce? {
      TrimIsIdle(run[k].file.state.pending, ops[k].poll.loaded);
      PollNotices(run[k], ops[k].poll);
    } else {
      assert run[k + 1].log == run[k].log;
      NoticesAtMost(run[k + 1].log[|run[k].log|..], MAX_MAILS_PER_POLL);
    }
  }
}
