/** The settlement engine: greedy debt netting between the participants of
    one event.

    Each participant's balance is what they paid minus the per-head figure.
    Debtors (balance below -0.01) are taken most-negative first, creditors
    (balance above +0.01) most-positive first, and a two-pointer sweep moves
    `min(debt, credit)` from the current debtor to the current creditor,
    recording the move when it exceeds 0.01.

    The repository holds three copies of the loop. The one in
    src/utils/settlements.js and the one in src/components/UserDashboard.js
    are the same and are `Rule.Client` here. The copy inside the archive
    route (api/routes/events.js) is `Rule.Archive`: it moves a pointer on
    when the remainder is at most 0.01 (not strictly below) and records the
    amount rounded to cents while subtracting the unrounded amount. */
module Settlements {
  import opened Base
  import opened Seqs
  import opened Money

  type UserId = nat

  /** One expense row as the engine reads it: who, and what they paid
      (None when the amount has not been entered). */
  datatype Payment = Payment(userId: UserId, amount: Option<real>)

  datatype Balance = Balance(userId: UserId, balance: real)

  /** A suggested payment `from` -> `to`. */
  datatype Transfer = Transfer(from: UserId, to: UserId, amount: real)

  /** Which copy of the loop runs. */
  datatype Rule = Client | Archive

  /** The tolerance below which a balance or a move counts as settled. */
  const Epsilon: real := 0.01

  /** `balance: Number(u.amount || 0) - perHead` for every row. */
  function Balances(ps: seq<Payment>, perHead: real): (bs: seq<Balance>)
    ensures |bs| == |ps|
  {
    seq(|ps|, k requires 0 <= k < |ps| => Balance(ps[k].userId, Paid(ps[k].amount) - perHead))
  }

  predicate Owes(b: Balance) {
    b.balance < -Epsilon
  }

  predicate IsOwed(b: Balance) {
    b.balance > Epsilon
  }

  /** Comparator `(a, b) => a.balance - b.balance`. */
  predicate MostNegativeFirst(a: Balance, b: Balance) {
    a.balance <= b.balance
  }

  /** Comparator `(a, b) => b.balance - a.balance`. */
  predicate MostPositiveFirst(a: Balance, b: Balance) {
    a.balance >= b.balance
  }

  function Debtors(bs: seq<Balance>): seq<Balance> {
    SortBy(Filter(bs, Owes), MostNegativeFirst)
  }

  function Creditors(bs: seq<Balance>): seq<Balance> {
    SortBy(Filter(bs, IsOwed), MostPositiveFirst)
  }

  /** `d_list`: the debts as positive numbers (`Math.abs(d.balance)`). */
  function DebtOf(ds: seq<Balance>): (d: seq<real>)
    ensures |d| == |ds|
  {
    seq(|ds|, k requires 0 <= k < |ds| => -ds[k].balance)
  }

  /** `c_list`: the credits. */
  function CreditOf(cs: seq<Balance>): (c: seq<real>)
    ensures |c| == |cs|
  {
    seq(|cs|, k requires 0 <= k < |cs| => cs[k].balance)
  }

  function Min(a: real, b: real): real {
    if a <= b then a else b
  }

  /** Whether a side with `rest` left is done and its pointer moves on. */
  predicate Advance(rule: Rule, rest: real) {
    match rule
    case Client => rest < Epsilon
    case Archive => rest <= Epsilon
  }

  /** A recorded move, by position in the sorted debtor and creditor lists,
      with the unrounded amount. */
  datatype Pay = Pay(debtor: nat, creditor: nat, amount: real)

  /** The two-pointer sweep from pointers `i`, `j` over the remaining debts
      `d` and credits `c`: the moves it records, in order. Each step zeroes
      at least one side, so each step moves at least one pointer. */
  function Sweep(rule: Rule, d: seq<real>, c: seq<real>, i: nat, j: nat): (ps: seq<Pay>)
    requires i <= |d| && j <= |c|
    decreases (|d| - i) + (|c| - j)
  {
    if i == |d| || j == |c| then []
    else
      var amount := Min(d[i], c[j]);
      var d' := d[i := d[i] - amount];
      var c' := c[j := c[j] - amount];
      var i' := if Advance(rule, d'[i]) then i + 1 else i;
      var j' := if Advance(rule, c'[j]) then j + 1 else j;
      (if amount > Epsilon then [Pay(i, j, amount)] else []) + Sweep(rule, d', c', i', j')
  }

  /** What the sweep records: at most one move per step and each step
      moves a pointer, so no more moves than debtors plus creditors; every
      move is between positions the pointers had not yet passed and exceeds
      0.01; and the pointers never move back. */
  lemma {:induction false} SweepShape(rule: Rule, d: seq<real>, c: seq<real>, i: nat, j: nat)
    requires i <= |d| && j <= |c|
    ensures var ps := Sweep(rule, d, c, i, j);
            && |ps| <= (|d| - i) + (|c| - j)
            && (forall k :: 0 <= k < |ps| ==>
                  i <= ps[k].debtor < |d| && j <= ps[k].creditor < |c| && ps[k].amount > Epsilon)
            && (forall k, l :: 0 <= k < l < |ps| ==>
                  ps[k].debtor <= ps[l].debtor && ps[k].creditor <= ps[l].creditor)
    decreases (|d| - i) + (|c| - j)
  {
    if i < |d| && j < |c| {
      var amount := Min(d[i], c[j]);
      var d' := d[i := d[i] - amount];
      var c' := c[j := c[j] - amount];
      var i' := if Advance(rule, d'[i]) then i + 1 else i;
      var j' := if Advance(rule, c'[j]) then j + 1 else j;
      SweepShape(rule, d', c', i', j');
    }
  }

  /** The amount written into a transfer: as is on the client, `toFixed(2)`
      in the archive copy. */
  function Recorded(rule: Rule, amount: real): real {
    match rule
    case Client => amount
    case Archive => Round2(amount)
  }

  predicate PaysWithin(ps: seq<Pay>, nd: nat, nc: nat) {
    forall k :: 0 <= k < |ps| ==> ps[k].debtor < nd && ps[k].creditor < nc
  }

  /** The transfer written for one move. */
  function TransferOf(rule: Rule, ds: seq<Balance>, cs: seq<Balance>, p: Pay): Transfer
    requires p.debtor < |ds| && p.creditor < |cs|
  {
    Transfer(ds[p.debtor].userId, cs[p.creditor].userId, Recorded(rule, p.amount))
  }

  function ToTransfers(rule: Rule, ds: seq<Balance>, cs: seq<Balance>, ps: seq<Pay>): (ts: seq<Transfer>)
    requires PaysWithin(ps, |ds|, |cs|)
    ensures |ts| == |ps|
  {
    if ps == [] then []
    else ToTransfers(rule, ds, cs, ps[..|ps| - 1]) + [TransferOf(rule, ds, cs, ps[|ps| - 1])]
  }

  /** One transfer per move, in the order of the moves. */
  lemma {:induction false} ToTransfersAt(rule: Rule, ds: seq<Balance>, cs: seq<Balance>, ps: seq<Pay>)
    requires PaysWithin(ps, |ds|, |cs|)
    ensures forall k :: 0 <= k < |ps| ==> ToTransfers(rule, ds, cs, ps)[k] == TransferOf(rule, ds, cs, ps[k])
  {
    if ps != [] {
      ToTransfersAt(rule, ds, cs, ps[..|ps| - 1]);
    }
  }

  /** The moves of a whole settlement, by sorted-list position. */
  function Plan(rule: Rule, ps: seq<Payment>, perHead: real): seq<Pay> {
    var bs := Balances(ps, perHead);
    Sweep(rule, DebtOf(Debtors(bs)), CreditOf(Creditors(bs)), 0, 0)
  }

  /** `calculateSettlements(expenses, perHead)`: the transfers, in the order
      the loop records them. */
  function Settle(rule: Rule, ps: seq<Payment>, perHead: real): (ts: seq<Transfer>)
    ensures |ts| == |Plan(rule, ps, perHead)|
  {
    var bs := Balances(ps, perHead);
    SweepShape(rule, DebtOf(Debtors(bs)), CreditOf(Creditors(bs)), 0, 0);
    ToTransfers(rule, Debtors(bs), Creditors(bs), Plan(rule, ps, perHead))
  }

  /** `calculateSettlements(expenses, perHead)`: builds the sorted debtor
      and creditor lists and pairs them off. */
  method CalculateSettlements(rule: Rule, ps: seq<Payment>, perHead: real) returns (ts: seq<Transfer>)
    ensures ts == Settle(rule, ps, perHead)
  {
    var bs := Balances(ps, perHead);
    ts := Pair(rule, Debtors(bs), Creditors(bs));
  }

  /** The two-pointer loop over `d_list` and `c_list`, the copies of the
      balances that the loop decrements entry by entry. */
  method Pair(rule: Rule, debtors: seq<Balance>, creditors: seq<Balance>) returns (ts: seq<Transfer>)
    ensures var plan := Sweep(rule, DebtOf(debtors), CreditOf(creditors), 0, 0);
            PaysWithin(plan, |debtors|, |creditors|) && ts == ToTransfers(rule, debtors, creditors, plan)
  {
    var d := DebtOf(debtors);
    var c := CreditOf(creditors);
    ghost var plan := Sweep(rule, d, c, 0, 0);
    ghost var done: seq<Pay> := [];
    ts := [];
    var i, j := 0, 0;
    while i < |d| && j < |c|
      invariant |d| == |debtors| && |c| == |creditors|
      invariant 0 <= i <= |d| && 0 <= j <= |c|
      invariant plan == done + Sweep(rule, d, c, i, j)
      invariant PaysWithin(done, |debtors|, |creditors|)
      invariant ts == ToTransfers(rule, debtors, creditors, done)
      decreases (|d| - i) + (|c| - j)
    {
      var amount := Min(d[i], c[j]);
      ghost var head := if amount > Epsilon then [Pay(i, j, amount)] else [];
      ToTransfersStep(rule, debtors, creditors, done, head);
      SweepStep(rule, d, c, i, j, amount, done, done + head);
      ts := ts + if amount > Epsilon then [Transfer(debtors[i].userId, creditors[j].userId, Recorded(rule, amount))] else [];
      done := done + head;
      d := d[i := d[i] - amount];
      c := c[j := c[j] - amount];
      i := if Advance(rule, d[i]) then i + 1 else i;
      j := if Advance(rule, c[j]) then j + 1 else j;
    }
    assert done + [] == done;
  }

  lemma ToTransfersStep(rule: Rule, ds: seq<Balance>, cs: seq<Balance>, ps: seq<Pay>, head: seq<Pay>)
    requires PaysWithin(ps, |ds|, |cs|) && PaysWithin(head, |ds|, |cs|) && |head| <= 1
    ensures PaysWithin(ps + head, |ds|, |cs|)
    ensures ToTransfers(rule, ds, cs, ps + head)
            == ToTransfers(rule, ds, cs, ps) + if head == [] then [] else [TransferOf(rule, ds, cs, head[0])]
  {
    if head != [] {
      assert (ps + head)[..|ps + head| - 1] == ps;
    } else {
      assert ps + head == ps;
    }
  }

  /** One step of the sweep: the moves recorded so far plus what the sweep
      will record from here do not change. */
  lemma SweepStep(rule: Rule, d: seq<real>, c: seq<real>, i: nat, j: nat, amount: real,
                  done: seq<Pay>, done': seq<Pay>)
    requires i < |d| && j < |c| && amount == Min(d[i], c[j])
    requires done' == done + if amount > Epsilon then [Pay(i, j, amount)] else []
    ensures var d', c' := d[i := d[i] - amount], c[j := c[j] - amount];
            done + Sweep(rule, d, c, i, j)
            == done' + Sweep(rule, d', c', if Advance(rule, d'[i]) then i + 1 else i,
                                           if Advance(rule, c'[j]) then j + 1 else j)
  {
    var d', c' := d[i := d[i] - amount], c[j := c[j] - amount];
    var i' := if Advance(rule, d'[i]) then i + 1 else i;
    var j' := if Advance(rule, c'[j]) then j + 1 else j;
    var head := if amount > Epsilon then [Pay(i, j, amount)] else [];
    var rest := Sweep(rule, d', c', i', j');
    SweepUnfold(rule, d, c, i, j, amount, i', j');
    assert done + (head + rest) == (done + head) + rest;
  }

  lemma SweepUnfold(rule: Rule, d: seq<real>, c: seq<real>, i: nat, j: nat, amount: real, i': nat, j': nat)
    requires i < |d| && j < |c| && amount == Min(d[i], c[j])
    requires i' == if Advance(rule, d[i] - amount) then i + 1 else i
    requires j' == if Advance(rule, c[j] - amount) then j + 1 else j
    ensures Sweep(rule, d, c, i, j)
            == (if amount > Epsilon then [Pay(i, j, amount)] else [])
               + Sweep(rule, d[i := d[i] - amount], c[j := c[j] - amount], i', j')
  {
  }

  // What the debtor and creditor lists hold

  lemma DebtorsOwe(bs: seq<Balance>)
    ensures forall x :: x in Debtors(bs) ==> x in bs && Owes(x)
    ensures forall x :: x in Creditors(bs) ==> x in bs && IsOwed(x)
  {
    FilterMembers(bs, Owes);
    FilterMembers(bs, IsOwed);
    forall x | x in Debtors(bs) ensures x in bs && Owes(x) {
      SortByMembers(Filter(bs, Owes), MostNegativeFirst, x);
    }
    forall x | x in Creditors(bs) ensures x in bs && IsOwed(x) {
      SortByMembers(Filter(bs, IsOwed), MostPositiveFirst, x);
    }
  }

  lemma ComparatorsArePreorders()
    ensures TotalPreorder(MostNegativeFirst) && TotalPreorder(MostPositiveFirst)
  {
  }

  /** Debtors come most-negative first, creditors most-positive first, and
      each list is a rearrangement of the rows it selects. */
  lemma DebtorsSorted(bs: seq<Balance>)
    ensures SortedBy(Debtors(bs), MostNegativeFirst)
    ensures SortedBy(Creditors(bs), MostPositiveFirst)
    ensures multiset(Debtors(bs)) == multiset(Filter(bs, Owes))
    ensures multiset(Creditors(bs)) == multiset(Filter(bs, IsOwed))
  {
    ComparatorsArePreorders();
    SortBySorted(Filter(bs, Owes), MostNegativeFirst);
    SortBySorted(Filter(bs, IsOwed), MostPositiveFirst);
    SortByPermutes(Filter(bs, Owes), MostNegativeFirst);
    SortByPermutes(Filter(bs, IsOwed), MostPositiveFirst);
  }

  // ---------------------------------------------------------------------
  // Who appears in a transfer

  /** Every transfer goes from a row whose balance is below -0.01 to a row
      whose balance is above +0.01. */
  lemma {:induction false} TransferEndpoints(rule: Rule, ps: seq<Payment>, perHead: real, t: Transfer)
    requires t in Settle(rule, ps, perHead)
    ensures exists k :: 0 <= k < |ps| && ps[k].userId == t.from && Paid(ps[k].amount) - perHead < -Epsilon
    ensures exists k :: 0 <= k < |ps| && ps[k].userId == t.to && Paid(ps[k].amount) - perHead > Epsilon
  {
    var bs := Balances(ps, perHead);
    var ds, cs := Debtors(bs), Creditors(bs);
    var plan := Plan(rule, ps, perHead);
    SweepShape(rule, DebtOf(ds), CreditOf(cs), 0, 0);
    ToTransfersAt(rule, ds, cs, plan);
    var m :| 0 <= m < |plan| && Settle(rule, ps, perHead)[m] == t;
    DebtorsOwe(bs);
    var x := ds[plan[m].debtor];
    var y := cs[plan[m].creditor];
    assert x in ds && y in cs;
    var kx :| 0 <= kx < |bs| && bs[kx] == x;
    var ky :| 0 <= ky < |bs| && bs[ky] == y;
    assert ps[kx].userId == t.from;
    assert ps[ky].userId == t.to;
  }

  /** A participant whose every row is within 0.01 of the per-head figure
      appears in no transfer. */
  lemma SettledNeverAppear(rule: Rule, ps: seq<Payment>, perHead: real, u: UserId)
    requires forall k :: 0 <= k < |ps| && ps[k].userId == u ==>
               -Epsilon <= Paid(ps[k].amount) - perHead <= Epsilon
    ensures forall t :: t in Settle(rule, ps, perHead) ==> t.from != u && t.to != u
  {
    forall t | t in Settle(rule, ps, perHead) ensures t.from != u && t.to != u {
      TransferEndpoints(rule, ps, perHead, t);
    }
  }

  /** With no debtors or no creditors nothing is recorded. */
  lemma NothingToNet(rule: Rule, ps: seq<Payment>, perHead: real)
    requires (forall k :: 0 <= k < |ps| ==> Paid(ps[k].amount) - perHead >= -Epsilon)
          || (forall k :: 0 <= k < |ps| ==> Paid(ps[k].amount) - perHead <= Epsilon)
    ensures Settle(rule, ps, perHead) == []
  {
    var bs := Balances(ps, perHead);
    if forall k :: 0 <= k < |ps| ==> Paid(ps[k].amount) - perHead >= -Epsilon {
      FilterNone(bs, Owes);
    } else {
      FilterNone(bs, IsOwed);
    }
  }

  /** Empty input, a single participant, or everyone paying exactly the
      per-head figure: no transfers. */
  lemma NoTransfersWhenSettled(rule: Rule, ps: seq<Payment>, perHead: real)
    requires |ps| <= 1 || forall k :: 0 <= k < |ps| ==> Paid(ps[k].amount) == perHead
    ensures Settle(rule, ps, perHead) == []
  {
    if |ps| == 1 && Paid(ps[0].amount) - perHead < -Epsilon {
      NothingToNet(rule, ps, perHead);
    } else {
      NothingToNet(rule, ps, perHead);
    }
  }

  // ---------------------------------------------------------------------
  // How much each debtor pays and each creditor receives

  /** The total recorded against debtor position `k`. */
  function PaidBy(ps: seq<Pay>, k: nat): real {
    if ps == [] then 0.0 else (if ps[0].debtor == k then ps[0].amount else 0.0) + PaidBy(ps[1..], k)
  }

  /** The total recorded for creditor position `k`. */
  function ReceivedBy(ps: seq<Pay>, k: nat): real {
    if ps == [] then 0.0 else (if ps[0].creditor == k then ps[0].amount else 0.0) + ReceivedBy(ps[1..], k)
  }

  lemma {:induction false} PaidByAppend(a: seq<Pay>, b: seq<Pay>, k: nat)
    ensures PaidBy(a + b, k) == PaidBy(a, k) + PaidBy(b, k)
    ensures ReceivedBy(a + b, k) == ReceivedBy(a, k) + ReceivedBy(b, k)
  {
    if a == [] {
      assert a + b == b;
    } else {
      PaidByAppend(a[1..], b, k);
      assert (a + b)[1..] == a[1..] + b;
    }
  }

  lemma {:induction false} PaidByOthers(ps: seq<Pay>, kd: nat, kc: nat)
    ensures (forall m :: 0 <= m < |ps| ==> ps[m].debtor != kd) ==> PaidBy(ps, kd) == 0.0
    ensures (forall m :: 0 <= m < |ps| ==> ps[m].creditor != kc) ==> ReceivedBy(ps, kc) == 0.0
  {
    if ps != [] {
      PaidByOthers(ps[1..], kd, kc);
    }
  }

  /** No debtor pays more than it owed when the sweep reached it, and no
      creditor receives more than it was owed. */
  lemma {:induction false} SweepBounded(rule: Rule, d: seq<real>, c: seq<real>, i: nat, j: nat)
    requires i <= |d| && j <= |c|
    requires forall k :: i <= k < |d| ==> d[k] >= 0.0
    requires forall k :: j <= k < |c| ==> c[k] >= 0.0
    ensures forall k :: i <= k < |d| ==> PaidBy(Sweep(rule, d, c, i, j), k) <= d[k]
    ensures forall k :: j <= k < |c| ==> ReceivedBy(Sweep(rule, d, c, i, j), k) <= c[k]
    decreases (|d| - i) + (|c| - j)
  {
    if i < |d| && j < |c| {
      var amount := Min(d[i], c[j]);
      var d' := d[i := d[i] - amount];
      var c' := c[j := c[j] - amount];
      var i' := if Advance(rule, d'[i]) then i + 1 else i;
      var j' := if Advance(rule, c'[j]) then j + 1 else j;
      var head := if amount > Epsilon then [Pay(i, j, amount)] else [];
      var rest := Sweep(rule, d', c', i', j');
      SweepUnfold(rule, d, c, i, j, amount, i', j');
      SweepBounded(rule, d', c', i', j');
      SweepShape(rule, d', c', i', j');
      PaidByOthers(rest, i, j);
      forall k | i <= k < |d| ensures PaidBy(head + rest, k) <= d[k] {
        PaidByAppend(head, rest, k);
        if k == i && i' == i + 1 {
          assert forall m :: 0 <= m < |rest| ==> rest[m].debtor != i;
        }
      }
      forall k | j <= k < |c| ensures ReceivedBy(head + rest, k) <= c[k] {
        PaidByAppend(head, rest, k);
        if k == j && j' == j + 1 {
          assert forall m :: 0 <= m < |rest| ==> rest[m].creditor != j;
        }
      }
    }
  }

  /** For a whole settlement: the total a debtor pays never exceeds what it
      owes, and a creditor never receives more than it is owed. */
  lemma SettleBounded(rule: Rule, ps: seq<Payment>, perHead: real)
    ensures var bs := Balances(ps, perHead);
            forall k :: 0 <= k < |Debtors(bs)| ==> PaidBy(Plan(rule, ps, perHead), k) <= -Debtors(bs)[k].balance
    ensures var bs := Balances(ps, perHead);
            forall k :: 0 <= k < |Creditors(bs)| ==> ReceivedBy(Plan(rule, ps, perHead), k) <= Creditors(bs)[k].balance
  {
    var bs := Balances(ps, perHead);
    DebtorsOwe(bs);
    var ds, cs := Debtors(bs), Creditors(bs);
    assert forall k :: 0 <= k < |ds| ==> ds[k] in ds;
    assert forall k :: 0 <= k < |cs| ==> cs[k] in cs;
    SweepBounded(rule, DebtOf(ds), CreditOf(cs), 0, 0);
  }

  /** Every recorded amount exceeds 0.01 before rounding; the archive copy
      writes it rounded to cents, so at least 0.01 and within half a cent. */
  lemma RecordedAmounts(rule: Rule, ps: seq<Payment>, perHead: real)
    ensures var plan := Plan(rule, ps, perHead);
            forall k :: 0 <= k < |plan| ==>
              var r := Settle(rule, ps, perHead)[k].amount;
              plan[k].amount > Epsilon && r >= Epsilon &&
              plan[k].amount - 0.005 < r <= plan[k].amount + 0.005 &&
              (rule == Client ==> r == plan[k].amount)
  {
    var bs := Balances(ps, perHead);
    var plan := Plan(rule, ps, perHead);
    SweepShape(rule, DebtOf(Debtors(bs)), CreditOf(Creditors(bs)), 0, 0);
    ToTransfersAt(rule, Debtors(bs), Creditors(bs), plan);
    forall k | 0 <= k < |plan|
      ensures Recorded(rule, plan[k].amount) >= Epsilon
    {
      RecordedAtLeastACent(rule, plan[k].amount);
    }
  }

  lemma RecordedAtLeastACent(rule: Rule, amount: real)
    requires amount > Epsilon
    ensures Recorded(rule, amount) >= Epsilon
  {
    Round2Monotone(Epsilon, amount);
    assert (Epsilon * 100.0 + 0.5).Floor == 1;
  }

  // ---------------------------------------------------------------------
  // Worked examples

  /** A paid 30, B paid 0, C paid 90, per head 40: B pays C 40, then A pays
      C 10 (both copies agree here). */
  lemma WorkedExample()
    ensures Settle(Client, [Payment(1, Some(30.0)), Payment(2, Some(0.0)), Payment(3, Some(90.0))], 40.0)
            == [Transfer(2, 3, 40.0), Transfer(1, 3, 10.0)]
    ensures Settle(Archive, [Payment(1, Some(30.0)), Payment(2, Some(0.0)), Payment(3, Some(90.0))], 40.0)
            == [Transfer(2, 3, 40.0), Transfer(1, 3, 10.0)]
  {
    var ps := [Payment(1, Some(30.0)), Payment(2, Some(0.0)), Payment(3, Some(90.0))];
    var bs := Balances(ps, 40.0);
    ExampleLists();
    ExamplePlan(Client);
    ExamplePlan(Archive);
    var plan := [Pay(0, 0, 40.0), Pay(1, 0, 10.0)];
    assert plan[..1] == [Pay(0, 0, 40.0)];
    assert (4000.0 + 0.5).Floor == 4000;
    assert (1000.0 + 0.5).Floor == 1000;
    assert Settle(Client, ps, 40.0) == ToTransfers(Client, Debtors(bs), Creditors(bs), plan);
    assert Settle(Archive, ps, 40.0) == ToTransfers(Archive, Debtors(bs), Creditors(bs), plan);
  }

  lemma ExampleLists()
    ensures var bs := Balances([Payment(1, Some(30.0)), Payment(2, Some(0.0)), Payment(3, Some(90.0))], 40.0);
            Debtors(bs) == [Balance(2, -40.0), Balance(1, -10.0)] && Creditors(bs) == [Balance(3, 50.0)]
  {
    var a, b, c := Balance(1, -10.0), Balance(2, -40.0), Balance(3, 50.0);
    ExampleBalances();
    ExampleFilters(a, b, c);
    assert [a, b][1..] == [b];
    assert SortBy([b], MostNegativeFirst) == [b];
    assert SortBy([a, b], MostNegativeFirst) == Insert(a, [b], MostNegativeFirst);
    assert Insert(a, [], MostNegativeFirst) == [a];
    assert Insert(a, [b], MostNegativeFirst) == [b, a];
    assert SortBy([c], MostPositiveFirst) == [c];
  }

  lemma ExampleBalances()
    ensures Balances([Payment(1, Some(30.0)), Payment(2, Some(0.0)), Payment(3, Some(90.0))], 40.0)
            == [Balance(1, -10.0), Balance(2, -40.0), Balance(3, 50.0)]
  {
  }

  lemma ExampleFilters(a: Balance, b: Balance, c: Balance)
    requires a == Balance(1, -10.0) && b == Balance(2, -40.0) && c == Balance(3, 50.0)
    ensures Filter([a, b, c], Owes) == [a, b] && Filter([a, b, c], IsOwed) == [c]
  {
    assert [a, b, c][1..] == [b, c];
    assert [b, c][1..] == [c];
    assert [c][1..] == [];
    assert Filter([c], Owes) == [];
    assert Filter([c], IsOwed) == [c];
    assert Filter([b, c], Owes) == [b];
    assert Filter([b, c], IsOwed) == [c];
  }

  lemma ExamplePlan(rule: Rule)
    ensures Sweep(rule, DebtOf([Balance(2, -40.0), Balance(1, -10.0)]), CreditOf([Balance(3, 50.0)]), 0, 0)
            == [Pay(0, 0, 40.0), Pay(1, 0, 10.0)]
  {
    assert DebtOf([Balance(2, -40.0), Balance(1, -10.0)]) == [40.0, 10.0];
    assert CreditOf([Balance(3, 50.0)]) == [50.0];
    SweepUnfold(rule, [40.0, 10.0], [50.0], 0, 0, 40.0, 1, 0);
    assert [40.0, 10.0][0 := 40.0 - 40.0] == [0.0, 10.0];
    assert [50.0][0 := 50.0 - 40.0] == [10.0];
    SweepUnfold(rule, [0.0, 10.0], [10.0], 1, 0, 10.0, 2, 1);
    assert [0.0, 10.0][1 := 10.0 - 10.0] == [0.0, 0.0];
    assert [10.0][0 := 10.0 - 10.0] == [0.0];
  }

  /** The two copies drift apart: on the same remaining debts and credits
      the client copy leaves a 0.01 remainder in place, later swallows it
      from the next creditor without recording it, and so plans 0.48 where
      the archive copy, which moves on at exactly 0.01, plans 0.49. */
  lemma RulesDiverge()
    ensures Sweep(Client, [0.52, 0.5], [0.51, 0.49, 0.02], 0, 0)
            == [Pay(0, 0, 0.51), Pay(1, 1, 0.48), Pay(1, 2, 0.02)]
    ensures Sweep(Archive, [0.52, 0.5], [0.51, 0.49, 0.02], 0, 0)
            == [Pay(0, 0, 0.51), Pay(1, 1, 0.49)]
  {
    ClientTrace();
    ArchiveTrace();
  }

  lemma ClientTrace()
    ensures Sweep(Client, [0.52, 0.5], [0.51, 0.49, 0.02], 0, 0)
            == [Pay(0, 0, 0.51), Pay(1, 1, 0.48), Pay(1, 2, 0.02)]
  {
    ClientTail();
    SweepUnfold(Client, [0.52, 0.5], [0.51, 0.49, 0.02], 0, 0, 0.51, 0, 1);
    assert [0.52, 0.5][0 := 0.52 - 0.51] == [0.01, 0.5];
    assert [0.51, 0.49, 0.02][0 := 0.51 - 0.51] == [0.0, 0.49, 0.02];
    SweepUnfold(Client, [0.01, 0.5], [0.0, 0.49, 0.02], 0, 1, 0.01, 1, 1);
    assert [0.01, 0.5][0 := 0.01 - 0.01] == [0.0, 0.5];
    assert [0.0, 0.49, 0.02][1 := 0.49 - 0.01] == [0.0, 0.48, 0.02];
  }

  lemma ClientTail()
    ensures Sweep(Client, [0.0, 0.5], [0.0, 0.48, 0.02], 1, 1) == [Pay(1, 1, 0.48), Pay(1, 2, 0.02)]
  {
    SweepUnfold(Client, [0.0, 0.5], [0.0, 0.48, 0.02], 1, 1, 0.48, 1, 2);
    assert [0.0, 0.5][1 := 0.5 - 0.48] == [0.0, 0.02];
    assert [0.0, 0.48, 0.02][1 := 0.48 - 0.48] == [0.0, 0.0, 0.02];
    SweepUnfold(Client, [0.0, 0.02], [0.0, 0.0, 0.02], 1, 2, 0.02, 2, 3);
    assert [0.0, 0.02][1 := 0.02 - 0.02] == [0.0, 0.0];
    assert [0.0, 0.0, 0.02][2 := 0.02 - 0.02] == [0.0, 0.0, 0.0];
  }

  lemma ArchiveTrace()
    ensures Sweep(Archive, [0.52, 0.5], [0.51, 0.49, 0.02], 0, 0)
            == [Pay(0, 0, 0.51), Pay(1, 1, 0.49)]
  {
    SweepUnfold(Archive, [0.52, 0.5], [0.51, 0.49, 0.02], 0, 0, 0.51, 1, 1);
    assert [0.52, 0.5][0 := 0.52 - 0.51] == [0.01, 0.5];
    assert [0.51, 0.49, 0.02][0 := 0.51 - 0.51] == [0.0, 0.49, 0.02];
    SweepUnfold(Archive, [0.01, 0.5], [0.0, 0.49, 0.02], 1, 1, 0.49, 2, 2);
    assert [0.01, 0.5][1 := 0.5 - 0.49] == [0.01, 0.01];
    assert [0.0, 0.49, 0.02][1 := 0.49 - 0.49] == [0.0, 0.0, 0.02];
  }
}
