/** The event routes: start a new event, archive one with a frozen
    snapshot of its figures and settlements, delete one, and the history
    view that shows frozen figures for archived events and live ones
    otherwise. */
module Events {
  import opened Base
  import opened Seqs
  import opened Money
  import opened Settlements
  import opened DateUtils
  import opened Database

  /** `UPDATE events SET is_active = 0, archived_at = now WHERE is_active = 1`:
      every event ends up inactive; only the flag and the archive time of
      the active ones change, their totals and settlements stay. */
  function Deactivated(events: map<Id, Event>, now: Time): (r: map<Id, Event>)
    ensures r.Keys == events.Keys
    ensures forall k :: k in r ==> !r[k].isActive
    ensures forall k :: k in events ==>
      r[k].(isActive := events[k].isActive, archivedAt := events[k].archivedAt) == events[k]
    ensures forall k :: k in events && events[k].isActive ==> r[k].archivedAt == Some(now)
    ensures forall k :: k in events && !events[k].isActive ==> r[k] == events[k]
  {
    map k | k in events :: if events[k].isActive then events[k].(isActive := false, archivedAt := Some(now)) else events[k]
  }

  /** `participant_ids` when it is an array, otherwise the ids of all
      active users. */
  function Participants(ids: Option<seq<Id>>, users: map<Id, User>, n: nat): seq<Id> {
    match ids
    case Some(uids) => uids
    case None => Keys(users, IsActiveUser(), n)
  }

  /** Without a participant list, the participants are exactly the active
      users, each once. */
  lemma DefaultParticipants(users: map<Id, User>, n: nat)
    requires forall k :: k in users ==> k < n
    ensures forall u :: u in Participants(None, users, n) <==> u in users && users[u].isActive
    ensures forall i, j :: 0 <= i < j < |Participants(None, users, n)| ==>
      Participants(None, users, n)[i] != Participants(None, users, n)[j]
  {
    KeysSpec(users, IsActiveUser(), n);
  }

  /** One `INSERT INTO expenses (event_id, user_id, amount) VALUES (e, uid, NULL)`
      per participant, the rows taking ids `first`, `first + 1`, ... */
  function NullRows(first: Id, e: Id, uids: seq<Id>, now: Time): map<Id, Expense> {
    if uids == [] then map[]
    else NullRows(first, e, uids[..|uids| - 1], now)[first + |uids| - 1 := Expense(e, uids[|uids| - 1], None, now)]
  }

  /** The inserted rows: ids `first` up to `first + |uids|`, the row with
      id `first + i` for participant `uids[i]`, amount NULL. */
  lemma {:induction false} NullRowsSpec(first: Id, e: Id, uids: seq<Id>, now: Time)
    ensures forall k :: k in NullRows(first, e, uids, now) <==> first <= k < first + |uids|
    ensures forall i :: 0 <= i < |uids| ==>
      first + i in NullRows(first, e, uids, now) && NullRows(first, e, uids, now)[first + i] == Expense(e, uids[i], None, now)
  {
    if uids != [] {
      var init := uids[..|uids| - 1];
      NullRowsSpec(first, e, init, now);
      forall i | 0 <= i < |uids|
        ensures first + i in NullRows(first, e, uids, now) && NullRows(first, e, uids, now)[first + i] == Expense(e, uids[i], None, now)
      {
        if i < |init| {
          assert uids[i] == init[i];
        }
      }
    }
  }

  /** Start keeps the tables well formed: the new event is the only active
      one and the new rows belong to it. */
  lemma StartWellFormed(users: map<Id, User>, events: map<Id, Event>, expenses: map<Id, Expense>,
                        nextUser: Id, nextEvent: Id, nextExpense: Id, now: Time, ev: Event, uids: seq<Id>)
    requires WellFormed(users, events, expenses, nextUser, nextEvent, nextExpense)
    requires ev.isActive
    ensures WellFormed(users, Deactivated(events, now)[nextEvent := ev],
                       expenses + NullRows(nextExpense, nextEvent, uids, now),
                       nextUser, nextEvent + 1, nextExpense + |uids|)
  {
    StartLeavesOneActive(events, now, nextEvent, ev, nextEvent + 1);
    NullRowsSpec(nextExpense, nextEvent, uids, now);
    var after := expenses + NullRows(nextExpense, nextEvent, uids, now);
    var events' := Deactivated(events, now)[nextEvent := ev];
    forall k | k in after ensures 0 < k < nextExpense + |uids| && after[k].eventId in events' {
      if k >= nextExpense {
        assert k in NullRows(nextExpense, nextEvent, uids, now);
        var i := k - nextExpense;
        assert 0 <= i < |uids|;
        assert after[k] == Expense(nextEvent, uids[i], None, now);
      } else {
        assert k !in NullRows(nextExpense, nextEvent, uids, now);
        assert k in expenses && after[k] == expenses[k];
        assert expenses[k].eventId in events;
        assert expenses[k].eventId in Deactivated(events, now);
      }
    }
  }

  /** Starting leaves exactly one active event: the new one. */
  lemma StartLeavesOneActive(events: map<Id, Event>, now: Time, id: Id, ev: Event, n: nat)
    requires ev.isActive && id < n
    ensures var after := Deactivated(events, now)[id := ev];
      && AtMostOneActive(after)
      && (forall k :: k in after ==> (after[k].isActive <==> k == id))
      && ActiveEvent(after, n) == Some(id)
  {
    var after := Deactivated(events, now)[id := ev];
    ActiveEventUnique(after, n, id);
  }

  /** The new event's rows are one row with a NULL amount per participant,
      in participant order, provided it had no rows before. */
  lemma {:induction false} StartRows(expenses: map<Id, Expense>, first: Id, e: Id, uids: seq<Id>, now: Time)
    requires forall k :: k in expenses ==> k < first && expenses[k].eventId != e
    ensures var rows := RowsOf(expenses + NullRows(first, e, uids, now), e, first + |uids|);
      && |rows| == |uids|
      && forall i :: 0 <= i < |uids| ==> rows[i] == Expense(e, uids[i], None, now)
  {
    var after := expenses + NullRows(first, e, uids, now);
    NullRowKeys(expenses, first, e, uids, now, |uids|);
    NullRowsSpec(first, e, uids, now);
    var ks := Keys(after, OfEvent(e), first + |uids|);
    forall i | 0 <= i < |uids| ensures RowsOf(after, e, first + |uids|)[i] == Expense(e, uids[i], None, now) {
      assert ks[i] == first + i;
    }
  }

  /** The qualifying ids among the first `c` new rows are exactly those rows. */
  lemma {:induction false} NullRowKeys(expenses: map<Id, Expense>, first: Id, e: Id, uids: seq<Id>, now: Time, c: nat)
    requires c <= |uids|
    requires forall k :: k in expenses ==> k < first && expenses[k].eventId != e
    ensures var ks := Keys(expenses + NullRows(first, e, uids, now), OfEvent(e), first + c);
      |ks| == c && forall i :: 0 <= i < c ==> ks[i] == first + i
  {
    var after := expenses + NullRows(first, e, uids, now);
    NullRowsSpec(first, e, uids, now);
    if c == 0 {
      KeysBeyond(after, OfEvent(e), 0, first);
    } else {
      NullRowKeys(expenses, first, e, uids, now, c - 1);
      assert after[first + (c - 1)] == Expense(e, uids[c - 1], None, now);
    }
  }

  /** `POST /start`. */
  method StartEvent(db: Db, name: Option<string>, participantIds: Option<seq<Id>>,
                    startDate: Option<string>, endDate: Option<string>, now: Time)
    returns (r: Reply<Id>)
    requires db.Valid()
    modifies db
    ensures db.Valid()
    ensures Falsy(name) || Falsy(startDate) || Falsy(endDate) ==>
      r == Failed(400, "Name and Date Range are required.") && unchanged(db)
    ensures !(Falsy(name) || Falsy(startDate) || Falsy(endDate)) ==>
      var id := old(db.nextEvent);
      var uids := Participants(participantIds, old(db.users), old(db.nextUser));
      && r == Ok(id)
      && db.events == Deactivated(old(db.events), now)[id := NewEvent(name.value, ParseFromEng(startDate.value), ParseFromEng(endDate.value))]
      && db.expenses == old(db.expenses) + NullRows(old(db.nextExpense), id, uids, now)
      && db.nextEvent == id + 1 && db.nextExpense == old(db.nextExpense) + |uids|
      && db.users == old(db.users) && db.nextUser == old(db.nextUser)
  {
    if Falsy(name) || Falsy(startDate) || Falsy(endDate) {
      return Failed(400, "Name and Date Range are required.");
    }
    var id := db.nextEvent;
    var ev := NewEvent(name.value, ParseFromEng(startDate.value), ParseFromEng(endDate.value));
    var uids := Participants(participantIds, db.users, db.nextUser);
    StartWellFormed(db.users, db.events, db.expenses, db.nextUser, id, db.nextExpense, now, ev, uids);
    db.events := Deactivated(db.events, now)[id := ev];
    db.nextEvent := id + 1;

    InsertNullRows(db, id, uids, now);
    r := Ok(id);
  }

  /** The batch of `INSERT`s of `/start`, one per participant. */
  method InsertNullRows(db: Db, id: Id, uids: seq<Id>, now: Time)
    modifies db
    ensures db.expenses == old(db.expenses) + NullRows(old(db.nextExpense), id, uids, now)
    ensures db.nextExpense == old(db.nextExpense) + |uids|
    ensures db.users == old(db.users) && db.events == old(db.events)
    ensures db.nextUser == old(db.nextUser) && db.nextEvent == old(db.nextEvent)
  {
    ghost var first := db.nextExpense;
    ghost var before := db.expenses;
    var i := 0;
    while i < |uids|
      invariant 0 <= i <= |uids|
      invariant db.expenses == before + NullRows(first, id, uids[..i], now)
      invariant db.nextExpense == first + i
      invariant db.users == old(db.users) && db.events == old(db.events)
      invariant db.nextUser == old(db.nextUser) && db.nextEvent == old(db.nextEvent)
    {
      var row := Expense(id, uids[i], None, now);
      assert uids[..i + 1][..i] == uids[..i];
      assert NullRows(first, id, uids[..i + 1], now) == NullRows(first, id, uids[..i], now)[first + i := row];
      UnionUpdate(before, NullRows(first, id, uids[..i], now), first + i, row);
      db.expenses := db.expenses[db.nextExpense := row];
      db.nextExpense := db.nextExpense + 1;
      i := i + 1;
    }
    assert uids[..|uids|] == uids;
  }

  lemma UnionUpdate<K, V>(a: map<K, V>, b: map<K, V>, k: K, v: V)
    ensures (a + b)[k := v] == a + b[k := v]
  {
  }

  /** The event `/archive` acts on: the one named by a truthy id if it
      exists, otherwise the active one. */
  function Target(events: map<Id, Event>, n: nat, id: Option<Id>): (t: Option<Id>)
    ensures t.Some? ==> t.value in events
    ensures id.Some? && id.value != 0 ==> (t.Some? <==> id.value in events) && (t.Some? ==> t.value == id.value)
    ensures (id.None? || id.value == 0) ==> t == ActiveEvent(events, n)
  {
    if id.Some? && id.value != 0 then (if id.value in events then Some(id.value) else None)
    else ActiveEvent(events, n)
  }

  /** The unrounded per-head the archive route settles against. */
  function RawPerHead(total: real, count: nat): real {
    if count > 0 then total / count as real else 0.0
  }

  /** The archived form of `ev` given its (user-joined) rows: inactive,
      stamped, with total, stored per-head, row count and settlements
      frozen. */
  function Snapshot(ev: Event, rows: seq<Expense>, now: Time): Event {
    var total := Total(Amounts(rows));
    var perHead := RawPerHead(total, |rows|);
    ev.(isActive := false, archivedAt := Some(now), totalAmount := total,
        perHead := Round2(perHead), participantsCount := |rows|,
        settlements := Some(Settle(Archive, PaymentsOf(rows), perHead)))
  }

  /** What the snapshot stores: the total with NULL counted as 0, which is
      the sum of the entered amounts; the per-head at 2 dp, 0 without rows;
      the row count; and the archive-rule settlements. Name, dates and the
      Gandu are kept. */
  lemma SnapshotFigures(ev: Event, rows: seq<Expense>, now: Time)
    ensures var s := Snapshot(ev, rows, now);
      && !s.isActive && s.archivedAt == Some(now)
      && s.totalAmount == Sum(Entered(Amounts(rows)))
      && s.perHead == PerHead(s.totalAmount, |rows|)
      && s.participantsCount == |rows|
      && s.settlements == Some(Settle(Archive, PaymentsOf(rows), RawPerHead(s.totalAmount, |rows|)))
      && s.name == ev.name && s.startDate == ev.startDate && s.endDate == ev.endDate && s.ganduId == ev.ganduId
  {
    EnteredSumIsTotal(Amounts(rows));
    var total := Total(Amounts(rows));
    if |rows| == 0 {
      assert (0.0 * 100.0 + 0.5).Floor == 0;
    }
  }

  /** Every frozen transfer runs from a row whose balance is below -0.01
      to one whose balance is above +0.01 against the unrounded per-head,
      and records at least one cent. */
  lemma SnapshotTransfers(ev: Event, rows: seq<Expense>, now: Time, t: Transfer)
    requires t in Snapshot(ev, rows, now).settlements.value
    ensures var perHead := RawPerHead(Total(Amounts(rows)), |rows|);
      && (exists i :: 0 <= i < |rows| && rows[i].userId == t.from && Paid(rows[i].amount) - perHead < -Epsilon)
      && (exists i :: 0 <= i < |rows| && rows[i].userId == t.to && Paid(rows[i].amount) - perHead > Epsilon)
      && t.amount >= Epsilon
  {
    var ps := PaymentsOf(rows);
    var perHead := RawPerHead(Total(Amounts(rows)), |rows|);
    TransferEndpoints(Archive, ps, perHead, t);
    RecordedAmounts(Archive, ps, perHead);
    var i :| 0 <= i < |ps| && ps[i].userId == t.from && Paid(ps[i].amount) - perHead < -Epsilon;
    var j :| 0 <= j < |ps| && ps[j].userId == t.to && Paid(ps[j].amount) - perHead > Epsilon;
    assert rows[i].userId == t.from && rows[j].userId == t.to;
  }

  /** `POST /archive`. */
  method ArchiveEvent(db: Db, id: Option<Id>, now: Time) returns (r: Reply<()>)
    requires db.Valid()
    modifies db
    ensures db.Valid()
    ensures Target(old(db.events), old(db.nextEvent), id).None? ==>
      r == Failed(404, "Event not found") && unchanged(db)
    ensures Target(old(db.events), old(db.nextEvent), id).Some? ==>
      var t := Target(old(db.events), old(db.nextEvent), id).value;
      var rows := Joined(RowsOf(old(db.expenses), t, old(db.nextExpense)), old(db.users));
      && r == Ok(())
      && db.events == old(db.events)[t := Snapshot(old(db.events)[t], rows, now)]
      && db.expenses == old(db.expenses) && db.users == old(db.users)
      && db.nextEvent == old(db.nextEvent) && db.nextExpense == old(db.nextExpense) && db.nextUser == old(db.nextUser)
  {
    var target := Target(db.events, db.nextEvent, id);
    if target.None? {
      return Failed(404, "Event not found");
    }
    var t := target.value;
    var rows := Joined(RowsOf(db.expenses, t, db.nextExpense), db.users);
    var total := Total(Amounts(rows));
    var count := |rows|;
    var perHead := RawPerHead(total, count);
    var settlements := CalculateSettlements(Archive, PaymentsOf(rows), perHead);
    db.events := db.events[t := db.events[t].(isActive := false, archivedAt := Some(now), totalAmount := total,
      perHead := Round2(perHead), participantsCount := count, settlements := Some(settlements))];
    r := Ok(());
  }

  /** The expense table once an event's rows are deleted. */
  function WithoutEvent(expenses: map<Id, Expense>, e: Id): (r: map<Id, Expense>)
    ensures forall k :: k in r <==> k in expenses && expenses[k].eventId != e
    ensures forall k :: k in r ==> r[k] == expenses[k]
  {
    map k | k in expenses && expenses[k].eventId != e :: expenses[k]
  }

  /** After deleting, the event has no rows and every other event keeps
      exactly the rows it had. */
  lemma DeleteRows(expenses: map<Id, Expense>, e: Id, other: Id, n: nat)
    requires other != e
    ensures RowsOf(WithoutEvent(expenses, e), e, n) == []
    ensures RowsOf(WithoutEvent(expenses, e), other, n) == RowsOf(expenses, other, n)
  {
    var after := WithoutEvent(expenses, e);
    KeysFrame(after, map[], OfEvent(e), n);
    KeysBeyond(map[], OfEvent(e), 0, n);
    SelectFrame(after, expenses, OfEvent(other), n);
  }

  /** `DELETE /:id`: the event's rows, then the event; always a success. */
  method DeleteEvent(db: Db, id: Id) returns (r: Reply<()>)
    requires db.Valid()
    modifies db
    ensures db.Valid()
    ensures r == Ok(())
    ensures db.expenses == WithoutEvent(old(db.expenses), id)
    ensures db.events == old(db.events) - {id}
    ensures db.users == old(db.users)
    ensures db.nextEvent == old(db.nextEvent) && db.nextExpense == old(db.nextExpense) && db.nextUser == old(db.nextUser)
  {
    db.expenses := WithoutEvent(db.expenses, id);
    db.events := db.events - {id};
    r := Ok(());
  }

  /** One entry of `GET /history`: the event, its dates as `formatToEng`
      shows them, and its figures. */
  datatype HistoryItem = HistoryItem(
    id: Id, event: Event, startDate: Display, endDate: Display,
    totalAmount: real, perPerson: real, participantsCount: nat, settlements: Option<seq<Transfer>>)

  /** An archived event with a stored snapshot. */
  predicate Frozen(ev: Event) {
    !ev.isActive && ev.settlements.Some?
  }

  /** A history entry: the stored snapshot when frozen, otherwise the live
      figures of all the event's rows. */
  function HistoryItemOf(id: Id, ev: Event, rows: seq<Expense>): HistoryItem {
    var start, end := FormatToEng(ev.startDate), FormatToEng(ev.endDate);
    if Frozen(ev) then HistoryItem(id, ev, start, end, ev.totalAmount, ev.perHead, ev.participantsCount, ev.settlements)
    else
      var live := StatsOf(Amounts(rows));
      HistoryItem(id, ev, start, end, live.total, live.perHead, live.usersCount, None)
  }

  function AnyEvent(): Event -> bool {
    (ev: Event) => true
  }

  /** `GET /history`, one entry per event, in id order: the entry of each
      event as `HistoryItemOf` makes it from the event and all its rows. */
  function HistoryOf(events: map<Id, Event>, expenses: map<Id, Expense>, nEvents: nat, nExpenses: nat)
    : (items: seq<HistoryItem>)
    ensures |items| == |Keys(events, AnyEvent(), nEvents)|
    ensures forall i :: 0 <= i < |items| ==>
      && items[i].id == Keys(events, AnyEvent(), nEvents)[i]
      && items[i].id in events
      && items[i] == HistoryItemOf(items[i].id, events[items[i].id], RowsOf(expenses, items[i].id, nExpenses))
  {
    var ids := Keys(events, AnyEvent(), nEvents);
    KeysSpec(events, AnyEvent(), nEvents);
    seq(|ids|, i requires 0 <= i < |ids| =>
      assert ids[i] in ids;
      HistoryItemOf(ids[i], events[ids[i]], RowsOf(expenses, ids[i], nExpenses)))
  }

  /** Every event below the id counter has exactly one entry, and the
      entries come in increasing id order. */
  lemma HistoryCoversEvents(events: map<Id, Event>, expenses: map<Id, Expense>, nEvents: nat, nExpenses: nat)
    ensures var items := HistoryOf(events, expenses, nEvents, nExpenses);
      && (forall k :: k in events && k < nEvents <==> exists i :: 0 <= i < |items| && items[i].id == k)
      && (forall i, j :: 0 <= i < j < |items| ==> items[i].id < items[j].id)
  {
    var items := HistoryOf(events, expenses, nEvents, nExpenses);
    var ids := Keys(events, AnyEvent(), nEvents);
    KeysSpec(events, AnyEvent(), nEvents);
    forall k | k in events && k < nEvents ensures exists i :: 0 <= i < |items| && items[i].id == k {
      assert k in ids;
      var i :| 0 <= i < |ids| && ids[i] == k;
      assert items[i].id == k;
    }
  }

  /** A history entry shows the stored snapshot of an archived event, and
      otherwise the live figures of all the event's rows: the sum of the
      entered amounts, the row count, the per-head at 2 dp and no
      settlements. Both show the dates through `formatToEng`. */
  lemma HistoryItemFigures(id: Id, ev: Event, rows: seq<Expense>)
    ensures var h := HistoryItemOf(id, ev, rows);
      && h.id == id && h.event == ev
      && h.startDate == FormatToEng(ev.startDate) && h.endDate == FormatToEng(ev.endDate)
      && (Frozen(ev) ==>
            && h.totalAmount == ev.totalAmount && h.perPerson == ev.perHead
            && h.participantsCount == ev.participantsCount && h.settlements == ev.settlements)
      && (!Frozen(ev) ==>
            && h.totalAmount == Sum(Entered(Amounts(rows)))
            && h.participantsCount == |rows|
            && h.perPerson == PerHead(h.totalAmount, |rows|)
            && h.settlements.None?)
  {
  }

  function History(db: Db): seq<HistoryItem>
    reads db
  {
    HistoryOf(db.events, db.expenses, db.nextEvent, db.nextExpense)
  }

  /** Archiving freezes the figures history was showing live (when every
      row's user exists): same total, per-person and count, and from then
      on later changes to the rows no longer show. */
  lemma ArchiveFreezesLiveFigures(id: Id, ev: Event, rows: seq<Expense>, users: map<Id, User>,
                                  now: Time, laterRows: seq<Expense>)
    requires !Frozen(ev)
    requires forall i :: 0 <= i < |rows| ==> rows[i].userId in users
    ensures var frozen := HistoryItemOf(id, Snapshot(ev, Joined(rows, users), now), laterRows);
      var live := HistoryItemOf(id, ev, rows);
      && frozen.totalAmount == live.totalAmount
      && frozen.perPerson == live.perPerson
      && frozen.participantsCount == live.participantsCount
      && frozen.settlements.Some?
  {
    FilterAll(rows, HasUser(users));
    SnapshotFigures(ev, rows, now);
    EnteredSumIsTotal(Amounts(rows));
  }
}
