/**
 The notifier of internal/capability/mailnotify/notifier.go: its loops over the pending map, and
 a poll that reads and replaces the cursor file.
 */
module MailNotify {
  import opened Collections
  import opened MailModel

  /** trimPendingMails: drop the entries that come last until limit are left. */
  method TrimPending(p: Pending, limit: nat) returns (kept: Pending)
    ensures Trimmed(p, limit, kept)
  {
    kept := p;
    while |kept| > limit
      invariant forall k :: k in kept ==> k in p && kept[k] == p[k]
      invariant |kept| >= (if |p| <= limit then |p| else limit)
      invariant forall k, d :: k in kept && d in p && d !in kept ==> Earlier(p, k, d)
      decreases |kept|
    {
      hide Earlier;
      var latest := Latest(p, kept.Keys);
      kept := kept - {latest};
    }
    SubsetSize(kept.Keys, p.Keys);
  }

  /** The last of the given entries in the order of the trim. */
  method Latest(p: Pending, keys: set<Charac>) returns (key: Charac)
    requires keys != {} && keys <= p.Keys
    ensures key in keys && forall k :: k in keys && k != key ==> Earlier(p, k, key)
  {
    hide Earlier;
    key := Choose(keys);
    var todo := keys - {key};
    while todo != {}
      invariant todo <= keys && key in keys && key !in todo
      invariant forall k :: k in keys && k !in todo && k != key ==> Earlier(p, k, key)
      decreases todo
    {
      var k := Choose(todo);
      forall other | other in keys && other !in todo
        ensures Earlier(p, key, k) && other != key ==> Earlier(p, other, k)
      {
        EarlierOrder(p, other, key, k);
      }
      EarlierOrder(p, key, k, key);
      if Earlier(p, key, k) {
        key := k;
      }
      todo := todo - {k};
    }
  }

  method PrunePending(p: Pending, now: int) returns (left: Pending, changed: bool)
    ensures left == Pruned(p, now) && changed == (DroppedBy(p, now) != map[])
  {
    left, changed := p, false;
    ghost var dropped: Pending := map[];
    var todo := p.Keys;
    while todo != {}
      invariant todo <= p.Keys
      invariant left == map k | k in p && (k in todo || !TooOld(p[k], now)) :: p[k]
      invariant dropped == map k | k in p && k !in todo && TooOld(p[k], now) :: p[k]
      invariant changed == (dropped != map[])
      decreases todo
    {
      var key := Choose(todo);
      if p[key] <= 0 || p[key] < now - PENDING_TTL {
        left := left - {key};
        dropped := dropped[key := p[key]];
        changed := true;
      }
      todo := todo - {key};
    }
    assert dropped == DroppedBy(p, now);
  }

  /** queryEvents over the rows the database returns. */
  method QueryEvents(fetched: seq<Row>, cursor: Id) returns (next: Id)
    ensures next == NextCursor(cursor, fetched)
  {
    next := cursor;
    var i := 0;
    while i < |fetched|
      invariant 0 <= i <= |fetched| && next == NextCursor(cursor, fetched[..i])
    {
      assert fetched[..i + 1][..i] == fetched[..i];
      if fetched[i].id > next {
        next := fetched[i].id;
      }
      i := i + 1;
    }
    assert fetched[..i] == fetched;
  }

  method CollectEvents(p: Pending, fetched: seq<Row>, readyAt: int)
    returns (pending: Pending, changed: bool, dropped: nat)
    ensures Intake(pending, changed, dropped) == TakeIn(p, fetched, readyAt)
  {
    pending, changed, dropped := p, false, 0;
    var i := 0;
    while i < |fetched|
      invariant 0 <= i <= |fetched| && Intake(pending, changed, dropped) == TakeIn(p, fetched[..i], readyAt)
    {
      assert fetched[..i + 1][..i] == fetched[..i];
      var key := fetched[i].charac;
      i := i + 1;
      if key == 0 {
        continue;
      }
      if key !in pending {
        if |pending| >= MAX_PENDING {
          dropped := dropped + 1;
          continue;
        }
        pending := pending[key := readyAt];
        changed := true;
      }
    }
    assert fetched[..i] == fetched;
  }

  /** The loop that sends: `cancels` tells whether the context ends before a round, `accepts`
      what the sender answers to an attempt. */
  method SendReady(p: Pending, now: int, cancels: nat -> bool, accepts: nat -> bool)
    returns (left: Pending, changed: bool, delivered: nat, failed: nat, attempts: seq<Attempt>, cancelled: bool)
    ensures SendsAllowed(p, now, attempts, cancelled)
    ensures left == p - Settled(attempts) && changed == (Settled(attempts) != {})
    ensures delivered == |Deliveries(attempts)| && delivered + failed <= |attempts|
  {
    left, changed, delivered, failed, attempts, cancelled := p, false, 0, 0, [], false;
    var todo, round := p.Keys, 0;
    while todo != {}
      invariant todo <= p.Keys && !cancelled && |attempts| <= MAX_MAILS_PER_POLL
      invariant Tally(p, attempts, left, changed, delivered, failed)
      invariant Tried(p, now, attempts, todo)
      decreases todo
    {
      if cancels(round) {
        cancelled := true;
        break;
      }
      round := round + 1;
      var key := Choose(todo);
      if now < p[key] {
        TriedSkips(p, now, attempts, todo, key);
        hide Tried, Tally;
        todo := todo - {key};
        continue;
      }
      if |attempts| >= MAX_MAILS_PER_POLL {
        break;
      }
      var a := Attempt(key, accepts(|attempts|));
      TriedMore(p, now, attempts, todo, a);
      TallyMore(p, attempts, left, changed, delivered, failed, a);
      hide Tried, Tally;
      todo := todo - {key};
      attempts := attempts + [a];
      if key == 0 {
        left := left - {key};
        changed := true;
        continue;
      }
      if !a.accepted {
        failed := failed + 1;
        continue;
      }
      left := left - {key};
      changed := true;
      delivered := delivered + 1;
    }
    hide Settled, Deliveries;
  }

  ghost predicate Tally(p: Pending, attempts: seq<Attempt>, left: Pending, changed: bool, delivered: nat, failed: nat) {
    && left == p - Settled(attempts) && changed == (Settled(attempts) != {})
    && delivered == |Deliveries(attempts)| && delivered + failed <= |attempts|
  }

  lemma TallyMore(p: Pending, attempts: seq<Attempt>, left: Pending, changed: bool, delivered: nat, failed: nat,
        a: Attempt)
    requires Tally(p, attempts, left, changed, delivered, failed)
    ensures a.key == 0 ==> Tally(p, attempts + [a], left - {a.key}, true, delivered, failed)
    ensures a.key != 0 && !a.accepted ==> Tally(p, attempts + [a], left, changed, delivered, failed + 1)
    ensures a.key != 0 && a.accepted ==> Tally(p, attempts + [a], left - {a.key}, true, delivered + 1, failed)
  {
    SettledMore(attempts, a);
    DeliveriesMore(attempts, a);
    hide Settled, Deliveries;
  }

  /** The attempts so far are for ready keys outside todo, each once, and none outside was skipped. */
  ghost predicate Tried(p: Pending, now: int, attempts: seq<Attempt>, todo: set<Charac>) {
    && (forall i :: 0 <= i < |attempts| ==>
          attempts[i].key in p && attempts[i].key !in todo && p[attempts[i].key] <= now)
    && (forall i, j :: 0 <= i < j < |attempts| ==> attempts[i].key != attempts[j].key)
    && (forall k :: k in p && k !in todo && p[k] <= now ==> exists i :: 0 <= i < |attempts| && attempts[i].key == k)
  }

  lemma TriedSkips(p: Pending, now: int, attempts: seq<Attempt>, todo: set<Charac>, key: Charac)
    requires Tried(p, now, attempts, todo) && key in p && p[key] > now
    ensures Tried(p, now, attempts, todo - {key})
  {
  }

  lemma TriedMore(p: Pending, now: int, attempts: seq<Attempt>, todo: set<Charac>, a: Attempt)
    requires Tried(p, now, attempts, todo) && a.key in todo && a.key in p && p[a.key] <= now
    ensures Tried(p, now, attempts + [a], todo - {a.key})
  {
    var more := attempts + [a];
    forall k | k in p && k !in todo - {a.key} && p[k] <= now ensures exists i :: 0 <= i < |more| && more[i].key == k {
      if k == a.key {
        assert more[|attempts|].key == k;
      } else {
        var i :| 0 <= i < |attempts| && attempts[i].key == k;
        assert more[i].key == k;
      }
    }
  }

  lemma SettledMore(attempts: seq<Attempt>, a: Attempt)
    ensures Settled(attempts + [a]) == Settled(attempts) + (if Settles(a) then {a.key} else {})
  {
    var more := attempts + [a];
    assert more[|attempts|] == a;
    forall k | k in Settled(attempts) ensures k in Settled(more) {
      var i :| 0 <= i < |attempts| && Settles(attempts[i]) && attempts[i].key == k;
      assert more[i] == attempts[i];
    }
  }

  lemma DeliveriesMore(attempts: seq<Attempt>, a: Attempt)
    ensures Deliveries(attempts + [a]) ==
      Deliveries(attempts) + (if a.key != 0 && a.accepted then [Notified(a.key)] else [])
  {
    var more := attempts + [a];
    assert more[..|more| - 1] == attempts;
  }

  class Notifier {
    const settleDelay: nat
    var file: File
    ghost var baseLetter: Id
    ghost var basePostal: Id
    ghost var log: seq<Entry>

    /** The notifier beside a database that holds these rows, and has held those of the history. */
    ghost function View(letters: seq<Row>, postals: seq<Row>, history: seq<Row>): World
      reads this
    {
      World(letters, postals, file, baseLetter, basePostal, log, history)
    }

    constructor (settleDelay: nat, file: File)
      ensures this.settleDelay == settleDelay && this.file == file && log == []
    {
      this.settleDelay, this.file := settleDelay, file;
      baseLetter, basePostal, log := 0, 0, [];
    }

    /** One poll is one PollOnce step of the system, whatever the environment answers. */
    method PollOnce(letters: seq<Row>, postals: seq<Row>, now: int, queryOK: bool, saveOK: bool,
                    cancels: nat -> bool, accepts: nat -> bool, ghost history: seq<Row>)
      returns (ok: bool, ghost poll: Poll)
      modifies this
      ensures poll.now == now && poll.delay == settleDelay && poll.queryOK == queryOK && poll.saveOK == saveOK
      ensures Enabled(old(View(letters, postals, history)), Op.PollOnce(poll))
      ensures View(letters, postals, history) == Step(old(View(letters, postals, history)), Op.PollOnce(poll))
      ensures ok && old(file).Saved? ==> !poll.cancelled
    {
      ghost var w := View(letters, postals, history);
      poll := Poll(now, settleDelay, map[], queryOK, [], false, saveOK);
      if !file.Saved? {
        ok := EstablishBaseline(letters, postals, queryOK, saveOK, poll, history);
        return;
      }
      var loaded := TrimPending(file.state.pending, MAX_PENDING);
      poll := poll.(loaded := loaded);
      var prepared := PrepareState(file.state, loaded, letters, postals, now, settleDelay, queryOK, w, poll);
      if prepared == None {
        return false, poll;
      }
      hide Prepare, DroppedBy, Trimmed, SendsAllowed, Settled, Deliveries;
      var state := prepared.state;
      var left, sent, delivered, failed, attempts, cancelled := SendReady(state.pending, now, cancels, accepts);
      poll := poll.(attempts := attempts, cancelled := cancelled);
      PrepareIgnoresSends(w, w.file.state, poll);
      log := log + Deliveries(attempts);
      if prepared.changed || sent {
        if !saveOK {
          return false, poll;
        }
        file := Saved(state.(pending := left));
        log := log + [Expired(DroppedBy(loaded, now), now)];
      }
      ok := !cancelled;
    }

    method EstablishBaseline(letters: seq<Row>, postals: seq<Row>, queryOK: bool, saveOK: bool,
                             ghost poll: Poll, ghost history: seq<Row>)
      returns (ok: bool)
      requires poll.queryOK == queryOK && poll.saveOK == saveOK
      modifies this
      ensures View(letters, postals, history) == Baseline(old(View(letters, postals, history)), poll)
      ensures ok == (queryOK && saveOK)
    {
      if !queryOK || !saveOK {
        return false;
      }
      baseLetter, basePostal := LastId(letters), LastId(postals);
      file := Saved(Cursors(LastId(letters), LastId(postals), map[]));
      ok := true;
    }
  }

  /** collect, when the queries succeed. */
  method CollectInto(state: Cursors, letters: seq<Row>, postals: seq<Row>, readyAt: int, ghost w: World)
    returns (next: Cursors, changed: bool)
    requires w.letters == letters && w.postals == postals
    ensures (next, changed) == Collect(w, state, readyAt)
  {
    var newLetters := Fetch(letters, state.letterID, QUERY_LIMIT);
    var newPostals := Fetch(postals, state.postalID, QUERY_LIMIT);
    var letterID := QueryEvents(newLetters, state.letterID);
    var postalID := QueryEvents(newPostals, state.postalID);
    var pending, added, dropped := CollectEvents(state.pending, newLetters + newPostals, readyAt);
    hide Fetch, NextCursor, TakeIn;
    next, changed := state.(pending := pending), added;
    if dropped > 0 {
      return;
    }
    if letterID != state.letterID || postalID != state.postalID {
      next := next.(letterID := letterID, postalID := postalID);
      changed := true;
    }
  }

  /** The first half of poll: prune and collect. */
  method PrepareState(s: Cursors, loaded: Pending, letters: seq<Row>, postals: seq<Row>, now: int, delay: nat,
        queryOK: bool, ghost w: World, ghost p: Poll)
    returns (prepared: Ready)
    requires w.letters == letters && w.postals == postals
    requires p.loaded == loaded && p.now == now && p.delay == delay && p.queryOK == queryOK
    ensures prepared == Prepare(w, s, p)
  {
    var pruned, changed := PrunePending(loaded, now);
    var state := s.(pending := pruned);
    hide Collect, Pruned, DroppedBy;
    if |state.pending| < MAX_PENDING {
      if !queryOK {
        return None;
      }
      var collected;
      state, collected := CollectInto(state, letters, postals, now + delay, w);
      changed := changed || collected;
    }
    prepared := Some(state, changed);
  }

  lemma PrepareIgnoresSends(w: World, s: Cursors, p: Poll)
    ensures Prepare(w, s, p) == Prepare(w, s, p.(attempts := [], cancelled := false))
  {
  }
}
