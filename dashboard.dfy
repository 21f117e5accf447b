/** The participant's dashboard: the state it loads from `/current`, the
    statistics card, the per-head recalculation and the personal summary
    of who pays whom. */
module Dashboard {
  import opened Base
  import opened Seqs
  import opened Money
  import opened Settlements
  import opened Database
  import opened Expenses

  /** The amount column of the listed rows. */
  function RowAmounts(rows: seq<Row>): (a: seq<Option<real>>)
    ensures |a| == |rows| && forall i :: 0 <= i < |rows| ==> a[i] == rows[i].amount
  {
    seq(|rows|, i requires 0 <= i < |rows| => rows[i].amount)
  }

  /** The rows as the settlement calculation sees them. */
  function RowPayments(rows: seq<Row>): (ps: seq<Payment>)
    ensures |ps| == |rows| && forall i :: 0 <= i < |rows| ==> ps[i] == Payment(rows[i].userId, rows[i].amount)
  {
    seq(|rows|, i requires 0 <= i < |rows| => Payment(rows[i].userId, rows[i].amount))
  }

  function IsNull(): Option<real> -> bool {
    (a: Option<real>) => a.None?
  }

  /** Every amount is either entered or still missing. */
  lemma {:induction false} EnteredPlusMissing(amounts: seq<Option<real>>)
    ensures |Entered(amounts)| + Count(amounts, IsNull()) == |amounts|
  {
    if amounts != [] {
      EnteredPlusMissing(amounts[1..]);
    }
  }

  /** The statistics card: no event, the per-person figure once everyone has
      entered an amount, or how many are still to enter one. */
  datatype Card = NoEventActive | PerPerson(perHead: real, total: real, people: nat) | Collecting(remaining: nat)

  /** The personal summary: the current user's transfers out and in. */
  datatype Summary = Summary(debts: seq<Transfer>, credits: seq<Transfer>)

  function From(u: Id): Transfer -> bool {
    (t: Transfer) => t.from == u
  }

  function To(u: Id): Transfer -> bool {
    (t: Transfer) => t.to == u
  }

  /** `rows.find(u => u.user_id == id)`: the first row of that user. */
  function FindUser(rows: seq<Row>, id: Option<Id>): (r: Option<Row>)
    ensures r.Some? <==> id.Some? && exists i :: 0 <= i < |rows| && rows[i].userId == id.value
    ensures r.Some? ==> exists i :: (0 <= i < |rows| && rows[i] == r.value && r.value.userId == id.value &&
      forall j :: 0 <= j < i ==> rows[j].userId != id.value)
  {
    if id.None? || rows == [] then None
    else if rows[0].userId == id.value then Some(rows[0])
    else
      var r := FindUser(rows[1..], id);
      assert forall i :: 1 <= i < |rows| ==> rows[i] == rows[1..][i - 1];
      if r.Some? then
        ghost var i :| 0 <= i < |rows[1..]| && rows[1..][i] == r.value && r.value.userId == id.value
          && forall j :: 0 <= j < i ==> rows[1..][j].userId != id.value;
        assert rows[i + 1] == r.value;
        r
      else r
  }

  class DashboardState {
    var expenses: seq<Row>
    var stats: Stats
    var active: bool
    var event: Option<Event>
    /** The id kept in local storage, None when nobody has been picked. */
    var currentUserId: Option<Id>

    constructor (currentUserId: Option<Id>)
      ensures expenses == [] && stats == Stats(0.0, 0, 0.0) && active && event.None?
      ensures this.currentUserId == currentUserId
    {
      expenses, stats, active, event := [], Stats(0.0, 0, 0.0), true, None;
      this.currentUserId := currentUserId;
    }

    /** `active && expenses.length > 0 && expenses.every(u => u.amount !== null)`. */
    predicate AllEntered()
      reads this
    {
      active && |expenses| > 0 && forall i :: 0 <= i < |expenses| ==> expenses[i].amount.Some?
    }

    /** `expenses.filter(u => u.amount === null).length`. */
    function Remaining(): (n: nat)
      reads this
    {
      Count(RowAmounts(expenses), IsNull())
    }

    /** Everyone has entered an amount exactly when the event is active,
        has rows and none is missing; the missing and entered ones add up
        to all rows. */
    lemma AllEnteredIffNoneRemaining()
      ensures AllEntered() <==> active && |expenses| > 0 && Remaining() == 0
      ensures Remaining() + |Entered(RowAmounts(expenses))| == |expenses|
    {
      EnteredPlusMissing(RowAmounts(expenses));
    }

    /** `renderStatsCard`. */
    function StatsCard(): (c: Card)
      reads this
      ensures c.NoEventActive? <==> !active
      ensures c.PerPerson? <==> AllEntered()
      ensures c.PerPerson? ==> c == PerPerson(stats.perHead, stats.total, stats.usersCount)
      ensures c.Collecting? ==> c.remaining == Remaining() && (c.remaining > 0 || expenses == [])
    {
      if !active then NoEventActive
      else if AllEntered() then PerPerson(stats.perHead, stats.total, stats.usersCount)
      else Collecting(Remaining())
    }

    /** `loadData` with the answer of `/current`; without an active event
        the answer carries no statistics and the zero defaults are used. */
    method Load(c: Current)
      modifies this
      ensures currentUserId == old(currentUserId)
      ensures c.Active? ==> expenses == c.rows && stats == c.stats && active && event == Some(c.event)
      ensures c.NoActive? ==> expenses == [] && stats == Stats(0.0, 0, 0.0) && !active && event.None?
    {
      match c
      case Active(_, ev, rows, s) =>
        expenses, stats, active, event := rows, s, true, Some(ev);
      case NoActive(_) =>
        expenses, stats, active, event := [], Stats(0.0, 0, 0.0), false, None;
    }

    /** `recalcStats`: the statistics recomputed from the loaded rows, a
        missing amount counting as 0. */
    method RecalcStats()
      modifies this
      ensures stats == StatsOf(RowAmounts(expenses))
      ensures expenses == old(expenses) && active == old(active) && event == old(event)
      ensures currentUserId == old(currentUserId)
    {
      var total := 0.0;
      var i := 0;
      while i < |expenses|
        invariant 0 <= i <= |expenses|
        invariant total + Total(RowAmounts(expenses)[i..]) == Total(RowAmounts(expenses))
      {
        assert RowAmounts(expenses)[i..] == [expenses[i].amount] + RowAmounts(expenses)[i + 1..];
        total := total + Paid(expenses[i].amount);
        i := i + 1;
      }
      var count := |expenses|;
      stats := Stats(total, count, PerHead(total, count));
    }

    function CurrentUser(): Option<Row>
      reads this
    {
      FindUser(expenses, currentUserId)
    }

    /** `renderPersonalSummaryCard`: nothing until everyone has entered an
        amount and the current user is among the rows; then the
        dashboard's own settlement of the rows at the loaded per-head,
        split into the user's payments and receipts. */
    function PersonalSummary(): (r: Option<Summary>)
      reads this
      ensures r.Some? <==> AllEntered() && CurrentUser().Some?
      ensures r.Some? ==> var me := CurrentUser().value.userId;
        var all := Settle(Client, RowPayments(expenses), stats.perHead);
        && (forall t :: t in r.value.debts <==> t in all && t.from == me)
        && (forall t :: t in r.value.credits <==> t in all && t.to == me)
    {
      if !AllEntered() || CurrentUser().None? then None
      else
        var me := CurrentUser().value.userId;
        var all := Settle(Client, RowPayments(expenses), stats.perHead);
        FilterMembers(all, From(me));
        FilterMembers(all, To(me));
        Some(Summary(Filter(all, From(me)), Filter(all, To(me))))
    }

    /** A user with something to pay has a row short of the per-head by
        more than a cent, one with something to receive a row above it by
        more than a cent; so a user whose rows are all within a cent of the
        per-head is all squared away. */
    lemma SummaryOfSettledUser()
      requires PersonalSummary().Some?
      ensures var me := CurrentUser().value.userId;
        var s := PersonalSummary().value;
        && (s.debts != [] ==> exists i :: (0 <= i < |expenses| && expenses[i].userId == me
              && Paid(expenses[i].amount) - stats.perHead < -Epsilon))
        && (s.credits != [] ==> exists i :: (0 <= i < |expenses| && expenses[i].userId == me
              && Paid(expenses[i].amount) - stats.perHead > Epsilon))
    {
      var s := PersonalSummary().value;
      var ps := RowPayments(expenses);
      if s.debts != [] {
        assert s.debts[0] in s.debts;
        TransferEndpoints(Client, ps, stats.perHead, s.debts[0]);
      }
      if s.credits != [] {
        assert s.credits[0] in s.credits;
        TransferEndpoints(Client, ps, stats.perHead, s.credits[0]);
      }
    }
  }

  /** On the server's answer the dashboard's recalculation reproduces the
      server's statistics. */
  lemma RecalcAgreesWithServer(users: map<Id, User>, events: map<Id, Event>, expenses: map<Id, Expense>,
                               nEvents: nat, nExpenses: nat)
    requires CurrentOf(users, events, expenses, nEvents, nExpenses).Active?
    ensures var c := CurrentOf(users, events, expenses, nEvents, nExpenses);
      StatsOf(RowAmounts(c.rows)) == c.stats
  {
    var c := CurrentOf(users, events, expenses, nEvents, nExpenses);
    var rows := Joined(RowsOf(expenses, c.eventId, nExpenses), users);
    CurrentMatchesArchive(users, events, expenses, nEvents, nExpenses, 0);
    assert RowAmounts(c.rows) == Amounts(rows);
  }

  /** The change handler of an amount box: an empty box is null and nothing
      is sent; otherwise `parseFloat` of the text (None when it is NaN) is
      sent unless it is NaN. */
  function AmountToSend(text: string, parsed: Option<real>): (r: Option<real>)
    ensures r.Some? <==> text != "" && parsed.Some?
    ensures r.Some? ==> r == parsed
  {
    if text == "" then None else parsed
  }
}
