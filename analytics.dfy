/** The analytics summary route: the WHERE clause built from the optional
    date range, the highlight (largest and smallest event) picked from the
    timeline, and the zero defaults of the summary. */
module Analytics {
  import opened Base
  import opened Money
  import opened Database

  /** A WHERE condition and the values bound to its `?` placeholders, in order. */
  datatype Filter = Filter(clause: string, args: seq<string>)

  const StartCondition := "date(start_date) >= ?"
  const EndCondition := "date(end_date) <= ?"

  /** The date filter: every event without dates; with a start date only,
      events starting on or after it (the overlap condition appended first
      is overwritten at once, so it never reaches the query); with an end
      date only, events ending on or before it; with both, both conditions,
      start first. */
  function DateFilter(start: Option<string>, end: Option<string>): (f: Filter)
    ensures Falsy(start) && Falsy(end) ==> f == Filter("1=1", [])
    ensures !Falsy(start) && Falsy(end) ==> f == Filter(StartCondition, [start.value])
    ensures Falsy(start) && !Falsy(end) ==> f == Filter(EndCondition, [end.value])
    ensures !Falsy(start) && !Falsy(end) ==>
      f == Filter(StartCondition + " AND " + EndCondition, [start.value, end.value])
  {
    var f := Filter("1=1", []);
    var f := if !Falsy(start) then Filter(StartCondition, f.args + [start.value]) else f;
    if !Falsy(end) then
      Filter(if !Falsy(start) then f.clause + " AND " + EndCondition else EndCondition, f.args + [end.value])
    else f
  }

  /** A timeline entry: an event with at least one expense row and the SQL
      SUM of its amounts (NULL when none is entered). */
  datatype TimelineEntry = TimelineEntry(id: Id, name: string, startDate: string, totalAmount: Option<real>)

  /** JavaScript's relational comparison turns null into 0. */
  function Amount(t: TimelineEntry): real {
    Paid(t.totalAmount)
  }

  datatype Direction = Largest | Smallest

  /** The value `reduce` compares in a direction: the smallest is the
      largest of the negated amounts, with the same tie rule. */
  function Score(t: TimelineEntry, dir: Direction): real {
    if dir == Largest then Amount(t) else -Amount(t)
  }

  /** `timeline.slice(0, n).reduce((prev, cur) => better(prev, cur) ? prev : cur)`,
      as an index: the previous pick is kept only when strictly better, so
      the last of the best entries wins. */
  function PickIndex(timeline: seq<TimelineEntry>, dir: Direction, n: nat): (k: nat)
    requires 0 < n <= |timeline|
    ensures k < n
    ensures forall j :: 0 <= j < n ==> Score(timeline[j], dir) <= Score(timeline[k], dir)
    ensures forall j :: k < j < n ==> Score(timeline[j], dir) < Score(timeline[k], dir)
  {
    if n == 1 then 0
    else
      var prev := PickIndex(timeline, dir, n - 1);
      if Score(timeline[prev], dir) > Score(timeline[n - 1], dir) then prev else n - 1
  }

  /** The highlight in one direction: null for an empty timeline. */
  function Highlight(timeline: seq<TimelineEntry>, dir: Direction): Option<TimelineEntry> {
    if timeline == [] then None else Some(timeline[PickIndex(timeline, dir, |timeline|)])
  }

  /** `maxEvent` is an entry with the greatest amount, and every later entry
      has a smaller one (ties go to the later entry); `minEvent` likewise with
      the least amount; both are null exactly for an empty timeline. */
  lemma HighlightSpec(timeline: seq<TimelineEntry>)
    ensures Highlight(timeline, Largest).None? <==> timeline == []
    ensures Highlight(timeline, Smallest).None? <==> timeline == []
    ensures timeline != [] ==> exists k :: (0 <= k < |timeline| && timeline[k] == Highlight(timeline, Largest).value
      && (forall j :: 0 <= j < |timeline| ==> Amount(timeline[j]) <= Amount(timeline[k]))
      && (forall j :: k < j < |timeline| ==> Amount(timeline[j]) < Amount(timeline[k])))
    ensures timeline != [] ==> exists k :: (0 <= k < |timeline| && timeline[k] == Highlight(timeline, Smallest).value
      && (forall j :: 0 <= j < |timeline| ==> Amount(timeline[k]) <= Amount(timeline[j]))
      && (forall j :: k < j < |timeline| ==> Amount(timeline[k]) < Amount(timeline[j])))
  {
    if timeline != [] {
      var hi := PickIndex(timeline, Largest, |timeline|);
      var lo := PickIndex(timeline, Smallest, |timeline|);
      assert timeline[hi] == Highlight(timeline, Largest).value;
      assert timeline[lo] == Highlight(timeline, Smallest).value;
    }
  }

  /** Two entries with the same amount: the later one is picked both ways. */
  lemma TieGoesToLater()
    ensures var a := TimelineEntry(1, "a", "2024-01-01", Some(10.0));
      var b := TimelineEntry(2, "b", "2024-02-01", Some(10.0));
      Highlight([a, b], Largest) == Some(b) && Highlight([a, b], Smallest) == Some(b)
  {
  }

  /** The aggregate row of the summary query; SQL yields NULL for an empty
      sum or average. */
  datatype Aggregates = Aggregates(totalSpent: Option<real>, totalEvents: Option<nat>, avgCost: Option<real>)

  datatype Summary = Summary(total: real, count: nat, avg: real)

  /** `x || 0` for each aggregate. */
  function SummaryOf(a: Aggregates): (s: Summary)
    ensures a.totalSpent.None? ==> s.total == 0.0
    ensures a.totalSpent.Some? ==> s.total == a.totalSpent.value
    ensures a.totalEvents.None? ==> s.count == 0
    ensures a.totalEvents.Some? ==> s.count == a.totalEvents.value
    ensures a.avgCost.None? ==> s.avg == 0.0
    ensures a.avgCost.Some? ==> s.avg == a.avgCost.value
  {
    Summary(a.totalSpent.GetOr(0.0), a.totalEvents.GetOr(0), a.avgCost.GetOr(0.0))
  }
}
