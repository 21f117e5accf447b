/** The three tables behind the server routes (`users`, `events`,
    `expenses`), held as maps from row id to record, with the
    AUTOINCREMENT counter of each table. Queries without an ORDER BY see
    rows in id order. */
module Database {
  import opened Base
  import opened Seqs
  import opened Money
  import opened Settlements

  type Id = nat

  /** A timestamp as written by CURRENT_TIMESTAMP; the clock is a parameter. */
  type Time = int

  datatype User = User(name: string, avatar: Option<string>, isActive: bool)

  /** An event row. `settlements` is `settlements_json` (None while it is
      NULL); `ganduId` is the `gandu_id` column the routes read and write. */
  datatype Event = Event(
    name: string, startDate: string, endDate: string, isActive: bool,
    totalAmount: real, perHead: real, participantsCount: nat,
    settlements: Option<seq<Transfer>>, ganduId: Option<Id>, archivedAt: Option<Time>)

  /** An expense row; `amount` None is SQL NULL, "not entered yet". */
  datatype Expense = Expense(eventId: Id, userId: Id, amount: Option<real>, updatedAt: Time)

  /** A route's answer: the JSON body on success, or an HTTP status with
      the error message. */
  datatype Reply<T> = Ok(value: T) | Failed(status: nat, message: string)

  /** A freshly inserted event: active, zero totals, no snapshot. */
  function NewEvent(name: string, startDate: string, endDate: string): (ev: Event)
    ensures ev.isActive && ev.settlements.None? && ev.ganduId.None?
  {
    Event(name, startDate, endDate, true, 0.0, 0.0, 0, None, None, None)
  }

  /** The ids below `n` whose rows satisfy `p`, in increasing order. */
  function Keys<T>(m: map<Id, T>, p: T -> bool, n: nat): seq<Id> {
    if n == 0 then []
    else Keys(m, p, n - 1) + (if n - 1 in m && p(m[n - 1]) then [n - 1] else [])
  }

  lemma {:induction false} KeysSpec<T>(m: map<Id, T>, p: T -> bool, n: nat)
    ensures forall k :: k in Keys(m, p, n) <==> k < n && k in m && p(m[k])
    ensures forall i, j :: 0 <= i < j < |Keys(m, p, n)| ==> Keys(m, p, n)[i] < Keys(m, p, n)[j]
  {
    if n > 0 {
      KeysSpec(m, p, n - 1);
      var ks := Keys(m, p, n - 1);
      forall i | 0 <= i < |ks| ensures ks[i] < n - 1 {
        assert ks[i] in ks;
      }
    }
  }

  /** Keys depends only on which ids below `n` qualify. */
  lemma {:induction false} KeysFrame<T>(m: map<Id, T>, m': map<Id, T>, p: T -> bool, n: nat)
    requires forall k :: k < n ==> (k in m && p(m[k]) <==> k in m' && p(m'[k]))
    ensures Keys(m, p, n) == Keys(m', p, n)
  {
    if n > 0 {
      KeysFrame(m, m', p, n - 1);
    }
  }

  /** Keys does not grow past the last qualifying id. */
  lemma {:induction false} KeysBeyond<T>(m: map<Id, T>, p: T -> bool, n: nat, n': nat)
    requires n <= n'
    requires forall k :: n <= k < n' ==> !(k in m && p(m[k]))
    ensures Keys(m, p, n') == Keys(m, p, n)
    decreases n' - n
  {
    if n < n' {
      KeysBeyond(m, p, n, n' - 1);
    }
  }

  /** The rows of `m` below `n` satisfying `p`, in id order: what a
      `SELECT ... WHERE p` returns. */
  function Select<T>(m: map<Id, T>, p: T -> bool, n: nat): (rows: seq<T>)
    ensures |rows| == |Keys(m, p, n)|
    ensures forall i :: 0 <= i < |rows| ==> Keys(m, p, n)[i] in m && rows[i] == m[Keys(m, p, n)[i]]
  {
    var ks := Keys(m, p, n);
    KeysSpec(m, p, n);
    seq(|ks|, i requires 0 <= i < |ks| => m[ks[i]])
  }

  /** Select depends only on the qualifying rows below `n`. */
  lemma SelectFrame<T>(m: map<Id, T>, m': map<Id, T>, p: T -> bool, n: nat)
    requires forall k :: k < n ==> (k in m && p(m[k]) <==> k in m' && p(m'[k]))
    requires forall k :: k < n && k in m && p(m[k]) ==> m'[k] == m[k]
    ensures Select(m, p, n) == Select(m', p, n)
  {
    KeysFrame(m, m', p, n);
    KeysSpec(m, p, n);
    var ks := Keys(m, p, n);
    forall i | 0 <= i < |ks| ensures Select(m, p, n)[i] == Select(m', p, n)[i] {
      assert ks[i] in ks;
    }
  }

  function OfEvent(e: Id): Expense -> bool {
    (x: Expense) => x.eventId == e
  }

  function OfEventAndUser(e: Id, u: Id): Expense -> bool {
    (x: Expense) => x.eventId == e && x.userId == u
  }

  function IsActiveUser(): User -> bool {
    (u: User) => u.isActive
  }

  /** `SELECT ... FROM expenses WHERE event_id = e`. */
  function RowsOf(expenses: map<Id, Expense>, e: Id, n: nat): seq<Expense> {
    Select(expenses, OfEvent(e), n)
  }

  /** The amount column of some rows. */
  function Amounts(rows: seq<Expense>): (a: seq<Option<real>>)
    ensures |a| == |rows| && forall i :: 0 <= i < |rows| ==> a[i] == rows[i].amount
  {
    seq(|rows|, i requires 0 <= i < |rows| => rows[i].amount)
  }

  /** `{user_id, amount}` pairs, the input of a settlement calculation. */
  function PaymentsOf(rows: seq<Expense>): (ps: seq<Payment>)
    ensures |ps| == |rows|
    ensures forall i :: 0 <= i < |rows| ==> ps[i] == Payment(rows[i].userId, rows[i].amount)
  {
    seq(|rows|, i requires 0 <= i < |rows| => Payment(rows[i].userId, rows[i].amount))
  }

  /** `JOIN users u ON e.user_id = u.id`: the rows whose user exists (users
      are only ever soft-deleted, so an inactive user still joins). */
  function Joined(rows: seq<Expense>, users: map<Id, User>): seq<Expense> {
    Filter(rows, HasUser(users))
  }

  function HasUser(users: map<Id, User>): Expense -> bool {
    (x: Expense) => x.userId in users
  }

  /** `... WHERE is_active = 1 ORDER BY id DESC LIMIT 1` over ids below `n`. */
  function ActiveEvent(events: map<Id, Event>, n: nat): (r: Option<Id>)
    ensures r.Some? ==> r.value < n && r.value in events && events[r.value].isActive
    ensures r.Some? ==> forall k :: r.value < k < n && k in events ==> !events[k].isActive
    ensures r.None? ==> forall k :: k < n && k in events ==> !events[k].isActive
  {
    if n == 0 then None
    else if n - 1 in events && events[n - 1].isActive then Some(n - 1)
    else ActiveEvent(events, n - 1)
  }

  /** `SELECT id FROM expenses WHERE user_id = u AND event_id = e`, first
      row: the lowest such id. */
  function FindRow(expenses: map<Id, Expense>, e: Id, u: Id, n: nat): (r: Option<Id>)
    ensures r.Some? ==>
      r.value < n && r.value in expenses && expenses[r.value].eventId == e && expenses[r.value].userId == u
    ensures r.Some? ==> forall k :: k < r.value && k in expenses ==> !(expenses[k].eventId == e && expenses[k].userId == u)
    ensures r.None? ==> forall k :: k < n && k in expenses ==> !(expenses[k].eventId == e && expenses[k].userId == u)
  {
    var ks := Keys(expenses, OfEventAndUser(e, u), n);
    KeysSpec(expenses, OfEventAndUser(e, u), n);
    if ks == [] then None
    else
      assert ks[0] in ks;
      assert forall k :: k < ks[0] ==> k !in ks;
      Some(ks[0])
  }

  /** At most one event is active at a time. */
  ghost predicate AtMostOneActive(events: map<Id, Event>) {
    forall a, b :: a in events && b in events && events[a].isActive && events[b].isActive ==> a == b
  }

  /** Ids are positive and below the counters, every expense row belongs
      to an existing event (rows are deleted together with their event),
      and at most one event is active. */
  ghost predicate WellFormed(users: map<Id, User>, events: map<Id, Event>, expenses: map<Id, Expense>,
                             nextUser: Id, nextEvent: Id, nextExpense: Id) {
    && 0 < nextUser && 0 < nextEvent && 0 < nextExpense
    && (forall k :: k in users ==> 0 < k < nextUser)
    && (forall k :: k in events ==> 0 < k < nextEvent)
    && (forall k :: k in expenses ==> 0 < k < nextExpense && expenses[k].eventId in events)
    && AtMostOneActive(events)
  }

  /** The database: three tables and the next id each AUTOINCREMENT hands out. */
  class Db {
    var users: map<Id, User>
    var events: map<Id, Event>
    var expenses: map<Id, Expense>
    var nextUser: Id
    var nextEvent: Id
    var nextExpense: Id

    /** The tables are well formed (see `WellFormed`). */
    ghost predicate Valid()
      reads this
    {
      WellFormed(users, events, expenses, nextUser, nextEvent, nextExpense)
    }

    constructor ()
      ensures Valid()
      ensures users == map[] && events == map[] && expenses == map[]
      ensures nextUser == 1 && nextEvent == 1 && nextExpense == 1
    {
      users, events, expenses := map[], map[], map[];
      nextUser, nextEvent, nextExpense := 1, 1, 1;
    }
  }

  /** With at most one active event, the highest active id is the only
      active id, so `LIMIT 1` with or without `ORDER BY id DESC` agrees. */
  lemma ActiveEventUnique(events: map<Id, Event>, n: nat, k: Id)
    requires AtMostOneActive(events)
    requires k < n && k in events && events[k].isActive
    ensures ActiveEvent(events, n) == Some(k)
  {
  }
}
