/** The expense routes of the active event: `/current` (its rows and
    figures) and `/update` (enter one participant's amount, naming the
    "Gandu" once a single participant is left without an amount). */
module Expenses {
  import opened Base
  import opened Seqs
  import opened Money
  import opened Settlements
  import opened Database
  import opened Events

  /** One entry of `/current`'s expense list. */
  datatype Row = Row(userId: Id, userName: string, amount: Option<real>, updatedAt: Time)

  /** The answer of `/current`. */
  datatype Current =
    | NoActive(message: string)
    | Active(eventId: Id, event: Event, rows: seq<Row>, stats: Stats)

  /** The listed form of rows joined with their users. */
  function RowsView(rows: seq<Expense>, users: map<Id, User>): (v: seq<Row>)
    requires forall i :: 0 <= i < |rows| ==> rows[i].userId in users
    ensures |v| == |rows|
    ensures forall i :: 0 <= i < |rows| ==>
      v[i] == Row(rows[i].userId, users[rows[i].userId].name, rows[i].amount, rows[i].updatedAt)
  {
    seq(|rows|, i requires 0 <= i < |rows| => Row(rows[i].userId, users[rows[i].userId].name, rows[i].amount, rows[i].updatedAt))
  }

  /** `/current`: nothing without an active event; otherwise the highest
      active event, its user-joined rows and the figures: the sum of the
      entered amounts, the number of rows (unset ones included) and the
      per-head at 2 dp (0 without rows). */
  function CurrentOf(users: map<Id, User>, events: map<Id, Event>, expenses: map<Id, Expense>,
                     nEvents: nat, nExpenses: nat): (c: Current)
    ensures c.NoActive? <==> ActiveEvent(events, nEvents).None?
    ensures c.NoActive? ==> c.message == "No active event found."
    ensures c.Active? ==> c.eventId == ActiveEvent(events, nEvents).value && c.event == events[c.eventId]
  {
    match ActiveEvent(events, nEvents)
    case None => NoActive("No active event found.")
    case Some(e) =>
      var all := RowsOf(expenses, e, nExpenses);
      var rows := Joined(all, users);
      FilterMembers(all, HasUser(users));
      var total := Sum(Entered(Amounts(rows)));
      Active(e, events[e], RowsView(rows, users), Stats(total, |rows|, PerHead(total, |rows|)))
  }

  function CurrentView(db: Db): Current
    reads db
  {
    CurrentOf(db.users, db.events, db.expenses, db.nextEvent, db.nextExpense)
  }

  /** `/current` lists exactly the active event's rows whose user exists,
      each with its user's name; its figures are the statistics of those
      rows, and they are the figures archiving would freeze: same total,
      per-head and head count. */
  lemma CurrentMatchesArchive(users: map<Id, User>, events: map<Id, Event>, expenses: map<Id, Expense>,
                              nEvents: nat, nExpenses: nat, now: Time)
    requires CurrentOf(users, events, expenses, nEvents, nExpenses).Active?
    ensures var c := CurrentOf(users, events, expenses, nEvents, nExpenses);
      var rows := Joined(RowsOf(expenses, c.eventId, nExpenses), users);
      var s := Snapshot(c.event, rows, now);
      && c.stats == StatsOf(Amounts(rows))
      && (forall i :: 0 <= i < |rows| ==> rows[i].userId in users)
      && c.rows == RowsView(rows, users)
      && s.totalAmount == c.stats.total && s.perHead == c.stats.perHead && s.participantsCount == c.stats.usersCount
  {
    var c := CurrentOf(users, events, expenses, nEvents, nExpenses);
    var rows := Joined(RowsOf(expenses, c.eventId, nExpenses), users);
    FilterMembers(RowsOf(expenses, c.eventId, nExpenses), HasUser(users));
    EnteredSumIsTotal(Amounts(rows));
    SnapshotFigures(c.event, rows, now);
  }

  function IsUnset(): Expense -> bool {
    (x: Expense) => x.amount.None?
  }

  /** The Gandu after an update of an existing row: if exactly one of the
      event's rows is still unset and no Gandu is recorded, that row's
      user; otherwise whatever was recorded. */
  function GanduAfter(gandu: Option<Id>, rows: seq<Expense>): Option<Id> {
    var remaining := Filter(rows, IsUnset());
    if |remaining| == 1 && gandu.None? then Some(remaining[0].userId) else gandu
  }

  /** A recorded Gandu is never overwritten; one is named exactly when none
      was recorded and a single row is unset, and it is that row's user. */
  lemma GanduRule(gandu: Option<Id>, rows: seq<Expense>)
    ensures gandu.Some? ==> GanduAfter(gandu, rows) == gandu
    ensures GanduAfter(gandu, rows) != gandu <==> gandu.None? && Count(rows, IsUnset()) == 1
    ensures GanduAfter(gandu, rows) != gandu ==>
      exists i :: 0 <= i < |rows| && rows[i].amount.None? && GanduAfter(gandu, rows) == Some(rows[i].userId)
        && forall j :: 0 <= j < |rows| && j != i ==> rows[j].amount.Some?
  {
    var remaining := Filter(rows, IsUnset());
    CountIsFilterLength(rows, IsUnset());
    if |remaining| == 1 && gandu.None? {
      FilterMembers(rows, IsUnset());
      assert remaining[0] in rows;
      var i :| 0 <= i < |rows| && rows[i] == remaining[0];
      forall j | 0 <= j < |rows| && j != i ensures rows[j].amount.Some? {
        if rows[j].amount.None? {
          if i < j { CountTwo(rows, IsUnset(), i, j); } else { CountTwo(rows, IsUnset(), j, i); }
        }
      }
    }
  }

  /** Changing or adding a row of one event leaves every other event's rows
      as they were, also when the id bound grows past rows of that event. */
  lemma RowsOfOtherEvent(expenses: map<Id, Expense>, k: Id, x: Expense, other: Id, n: nat, n': nat)
    requires n <= n' && x.eventId != other
    requires k in expenses ==> expenses[k].eventId != other
    requires forall j :: n <= j < n' && j in expenses ==> expenses[j].eventId != other
    ensures RowsOf(expenses[k := x], other, n') == RowsOf(expenses, other, n)
  {
    var after := expenses[k := x];
    SelectFrame(after, expenses, OfEvent(other), n');
    KeysBeyond(expenses, OfEvent(other), n, n');
  }

  /** `/update`. */
  method Update(db: Db, userId: Id, amount: Option<real>, now: Time) returns (r: Reply<()>)
    requires db.Valid()
    modifies db
    ensures db.Valid()
    ensures ActiveEvent(old(db.events), old(db.nextEvent)).None? ==>
      r == Failed(400, "No active event") && unchanged(db)
    ensures ActiveEvent(old(db.events), old(db.nextEvent)).Some? ==>
      var e := ActiveEvent(old(db.events), old(db.nextEvent)).value;
      && r == Ok(())
      && db.users == old(db.users) && db.nextUser == old(db.nextUser) && db.nextEvent == old(db.nextEvent)
      && match FindRow(old(db.expenses), e, userId, old(db.nextExpense))
         case Some(k) =>
           && db.expenses == old(db.expenses)[k := old(db.expenses)[k].(amount := amount, updatedAt := now)]
           && db.nextExpense == old(db.nextExpense)
           && db.events == old(db.events)[e := old(db.events)[e].(
                ganduId := GanduAfter(old(db.events)[e].ganduId, RowsOf(db.expenses, e, db.nextExpense)))]
         case None =>
           && db.expenses == old(db.expenses)[old(db.nextExpense) := Expense(e, userId, amount, now)]
           && db.nextExpense == old(db.nextExpense) + 1
           && db.events == old(db.events)
  {
    var active := ActiveEvent(db.events, db.nextEvent);
    if active.None? {
      return Failed(400, "No active event");
    }
    var e := active.value;
    var existing := FindRow(db.expenses, e, userId, db.nextExpense);
    if existing.Some? {
      var k := existing.value;
      db.expenses := db.expenses[k := db.expenses[k].(amount := amount, updatedAt := now)];
      var all := RowsOf(db.expenses, e, db.nextExpense);
      var remaining := Filter(all, IsUnset());
      var gandu := db.events[e].ganduId;
      if |remaining| == 1 && gandu.None? {
        db.events := db.events[e := db.events[e].(ganduId := Some(remaining[0].userId))];
      } else {
        assert db.events == db.events[e := db.events[e].(ganduId := gandu)];
      }
    } else {
      db.expenses := db.expenses[db.nextExpense := Expense(e, userId, amount, now)];
      db.nextExpense := db.nextExpense + 1;
    }
    r := Ok(());
  }

  /** An update never changes the rows of an event other than the active
      one, so re-archiving an archived event after any number of updates
      freezes the same figures and settlements. */
  lemma UpdateKeepsArchivedSnapshot(expenses: map<Id, Expense>, users: map<Id, User>, k: Id, x: Expense,
                                    e: Id, other: Id, n: nat, n': nat, ev: Event, now: Time)
    requires e != other && x.eventId == e
    requires k in expenses ==> expenses[k].eventId == e
    requires n <= n' && forall j :: n <= j < n' && j in expenses ==> expenses[j].eventId != other
    ensures Snapshot(ev, Joined(RowsOf(expenses[k := x], other, n'), users), now)
         == Snapshot(ev, Joined(RowsOf(expenses, other, n), users), now)
  {
    RowsOfOtherEvent(expenses, k, x, other, n, n');
  }
}
