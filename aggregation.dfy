/** The dashboards' statistics over a normalised table: status and category
    counts, resolution time of closed queries (highest, lowest, mean), the
    per-category mean, the series of closed queries ordered by closing time,
    and the queries pending for more than 24 hours. Resolution times are whole
    seconds and a mean is kept as its total and count. */
module Aggregation {
  import opened Sequences
  import opened Text
  import opened Tickets
  import opened Filters

  /** `df['status'].value_counts()`: each status with the number of rows carrying it. */
  function StatusCounts(rows: seq<Ticket>): (r: seq<(string, nat)>)
    ensures forall i, j :: 0 <= i < j < |r| ==> r[i].0 != r[j].0
    ensures forall t :: t in rows ==> exists i :: 0 <= i < |r| && r[i].0 == t.status
    ensures forall i :: 0 <= i < |r| ==> r[i].1 == multiset(Statuses(rows))[r[i].0] && r[i].1 > 0
    ensures TotalCount(r) == |rows|
  {
    var statuses := Statuses(rows);
    assert forall t :: t in rows ==> t.status in statuses;
    ValueCounts(statuses)
  }

  /** The counts behind the category pie chart: each category with its number of rows. */
  function CategoryCounts(rows: seq<Ticket>): (r: seq<(string, nat)>)
    ensures forall i, j :: 0 <= i < j < |r| ==> r[i].0 != r[j].0
    ensures forall t :: t in rows ==> exists i :: 0 <= i < |r| && r[i].0 == t.category
    ensures forall i :: 0 <= i < |r| ==> r[i].1 == multiset(Categories(rows))[r[i].0] && r[i].1 > 0
    ensures TotalCount(r) == |rows|
  {
    var categories := Categories(rows);
    assert forall t :: t in rows ==> t.category in categories;
    ValueCounts(categories)
  }

  /** `df[df['status'] == 'closed']`. */
  function ClosedRows(rows: seq<Ticket>): (r: seq<Ticket>)
    ensures IsSubsequence(r, rows)
    ensures forall t :: t in r <==> t in rows && t.status == ClosedKey
    ensures forall t :: multiset(r)[t] == if t.status == ClosedKey then multiset(rows)[t] else 0
  {
    Keep(rows, (t: Ticket) => t.status == ClosedKey)
  }

  /** Time taken to resolve a query: closing time minus creation time, in seconds. */
  function ResolutionSeconds(t: Ticket): (s: int)
    requires t.closedTime.Some?
    ensures t.createdTime + s == t.closedTime.value
  {
    t.closedTime.value - t.createdTime
  }

  /** The rows that have a closing time, in order. */
  function Timed(rows: seq<Ticket>): (r: seq<Ticket>)
    ensures IsSubsequence(r, rows)
    ensures forall t :: t in r <==> t in rows && t.closedTime.Some?
    ensures forall t :: multiset(r)[t] == if t.closedTime.Some? then multiset(rows)[t] else 0
  {
    Keep(rows, (t: Ticket) => t.closedTime.Some?)
  }

  /** The `seconds` column of the closed rows: one entry per row that has a
      closing time, in order. A row without one yields NaN there, which `max`,
      `min` and `mean` skip; it is left out. */
  function Durations(rows: seq<Ticket>): (r: seq<int>)
    ensures |r| <= |rows|
  {
    if rows == [] then []
    else
      var rest := Durations(rows[1..]);
      if rows[0].closedTime.Some? then [ResolutionSeconds(rows[0])] + rest else rest
  }

  /** Entry `i` of the durations is the resolution time of the `i`-th row that
      has a closing time, and there is one entry per such row. */
  lemma {:induction false} DurationsPerRow(rows: seq<Ticket>)
    ensures |Durations(rows)| == |Timed(rows)|
    ensures forall i :: 0 <= i < |Durations(rows)| ==> Durations(rows)[i] == ResolutionSeconds(Timed(rows)[i])
  {
    if rows != [] {
      DurationsPerRow(rows[1..]);
      if rows[0].closedTime.Some? {
        assert Timed(rows) == [rows[0]] + Timed(rows[1..]);
      } else {
        assert Timed(rows) == Timed(rows[1..]);
      }
    }
  }

  /** The durations are exactly the resolution times of the rows that have a closing time. */
  lemma DurationsMembers(rows: seq<Ticket>)
    ensures forall d :: d in Durations(rows) <==> exists t :: t in rows && t.closedTime.Some? && d == ResolutionSeconds(t)
  {
    var timed := Timed(rows);
    var r := Durations(rows);
    DurationsPerRow(rows);
    forall d | d in r ensures exists t :: t in rows && t.closedTime.Some? && d == ResolutionSeconds(t) {
      var i :| 0 <= i < |r| && r[i] == d;
      assert timed[i] in timed;
    }
    forall t | t in rows && t.closedTime.Some? ensures ResolutionSeconds(t) in r {
      var i :| 0 <= i < |timed| && timed[i] == t;
      assert r[i] == ResolutionSeconds(t);
    }
  }

  /** Outcome of the resolution-time statistics. */
  datatype Resolution =
    | NoClosedQueries
      // closed rows exist but none has a closing time: every statistic is NaN
    | NoDurations
      // the mean resolution time is total / count
    | Stats(highest: int, lowest: int, total: int, count: nat)

  /** Highest, lowest and mean resolution time over the closed rows; computed
      only when some row is closed, and "no closed queries" otherwise. */
  function ResolutionStats(rows: seq<Ticket>): (r: Resolution)
    ensures r.NoClosedQueries? <==> forall t :: t in rows ==> t.status != ClosedKey
    ensures r.NoDurations? <==>
      (exists t :: t in rows && t.status == ClosedKey)
      && forall t :: t in rows && t.status == ClosedKey ==> t.closedTime.None?
    ensures r.Stats? ==>
      && r.count > 0
      && r.lowest <= r.highest
      && r.lowest * r.count <= r.total <= r.highest * r.count
    ensures r.Stats? ==> forall t :: t in rows && t.status == ClosedKey && t.closedTime.Some? ==>
      r.lowest <= ResolutionSeconds(t) <= r.highest
    ensures r.Stats? ==> exists t :: t in rows && t.status == ClosedKey && t.closedTime.Some? && ResolutionSeconds(t) == r.highest
    ensures r.Stats? ==> exists t :: t in rows && t.status == ClosedKey && t.closedTime.Some? && ResolutionSeconds(t) == r.lowest
    ensures r.Stats? ==> r.count == |Durations(ClosedRows(rows))| && r.total == Sum(Durations(ClosedRows(rows)))
  {
    var closed := ClosedRows(rows);
    if closed == [] then NoClosedQueries
    else
      assert closed[0] in closed;
      var ds := Durations(closed);
      DurationsMembers(closed);
      assert forall t :: t in closed && t.closedTime.Some? ==> ResolutionSeconds(t) in ds;
      if ds == [] then NoDurations
      else
        MeanBetweenMinAndMax(ds);
        Stats(Max(ds), Min(ds), Sum(ds), |ds|)
  }

  lemma TenTwentyThirty()
    ensures Max([10, 20, 30]) == 30 && Min([10, 20, 30]) == 10 && Sum([10, 20, 30]) == 60
  {
    var ds := [10, 20, 30];
    assert ds[1..] == [20, 30] && ds[1..][1..] == [30] && ds[1..][1..][1..] == [];
    assert 30 in ds && 10 in ds;
  }

  /** Closed rows resolved in 10, 20 and 30 seconds. */
  ghost predicate ResolvedIn10To30(a: Ticket, b: Ticket, c: Ticket) {
    && a.status == ClosedKey && a.closedTime == Some(a.createdTime + 10)
    && b.status == ClosedKey && b.closedTime == Some(b.createdTime + 20)
    && c.status == ClosedKey && c.closedTime == Some(c.createdTime + 30)
  }

  lemma ScenarioClosed(a: Ticket, b: Ticket, c: Ticket)
    requires ResolvedIn10To30(a, b, c)
    ensures ClosedRows([a, b, c]) == [a, b, c]
  {
    var rows := [a, b, c];
    SelectionOfAll(ClosedRows(rows), rows, (t: Ticket) => t.status == ClosedKey);
  }

  lemma ScenarioTimed(a: Ticket, b: Ticket, c: Ticket)
    requires ResolvedIn10To30(a, b, c)
    ensures Timed([a, b, c]) == [a, b, c]
  {
    var rows := [a, b, c];
    SelectionOfAll(Timed(rows), rows, (t: Ticket) => t.closedTime.Some?);
  }

  lemma ScenarioDurations(a: Ticket, b: Ticket, c: Ticket)
    requires ResolvedIn10To30(a, b, c)
    ensures Durations([a, b, c]) == [10, 20, 30]
  {
    ScenarioTimed(a, b, c);
    DurationsPerRow([a, b, c]);
    var ds := Durations([a, b, c]);
    assert ds[0] == ResolutionSeconds(a) == 10;
    assert ds[1] == ResolutionSeconds(b) == 20;
    assert ds[2] == ResolutionSeconds(c) == 30;
  }

  /** Three closed queries resolved in 10, 20 and 30 seconds: highest 30,
      lowest 10, mean 60 / 3 = 20. */
  lemma ResolutionScenario(a: Ticket, b: Ticket, c: Ticket)
    requires ResolvedIn10To30(a, b, c)
    ensures ResolutionStats([a, b, c]) == Stats(30, 10, 60, 3)
  {
    ScenarioClosed(a, b, c);
    ScenarioDurations(a, b, c);
    TenTwentyThirty();
  }

  /** Rows of one category. */
  function InCategory(rows: seq<Ticket>, category: string): (r: seq<Ticket>)
    ensures forall t :: t in r <==> t in rows && t.category == category
  {
    Keep(rows, (t: Ticket) => t.category == category)
  }

  /** One group of `df_closed.groupby('category')['seconds'].mean()`: the mean is
      total / count; a group whose rows all lack a closing time has count 0 (NaN). */
  datatype CategoryTime = CategoryTime(category: string, total: int, count: nat)

  /** The group of the closed rows of one category. */
  function GroupTime(closed: seq<Ticket>, category: string): (g: CategoryTime)
    ensures g.category == category
  {
    var ds := Durations(InCategory(closed, category));
    CategoryTime(category, Sum(ds), |ds|)
  }

  /** A group counts the rows of its category that have a closing time, and
      its mean is NaN (count 0) exactly when none of them has one. */
  lemma GroupTimeCounts(closed: seq<Ticket>, category: string)
    ensures GroupTime(closed, category).count == |Timed(InCategory(closed, category))|
    ensures GroupTime(closed, category).count == 0 <==>
      forall t :: t in closed && t.category == category ==> t.closedTime.None?
  {
    var group := InCategory(closed, category);
    DurationsPerRow(group);
    if Timed(group) != [] {
      var t := Timed(group)[0];
      assert t in Timed(group);
      assert t in closed && t.category == category && t.closedTime.Some?;
    }
  }

  function GroupTimes(closed: seq<Ticket>, cats: seq<string>): (r: seq<CategoryTime>)
    ensures |r| == |cats|
    ensures forall i :: 0 <= i < |cats| ==> r[i] == GroupTime(closed, cats[i])
  {
    if cats == [] then []
    else
      var rest := GroupTimes(closed, cats[1..]);
      var r := [GroupTime(closed, cats[0])] + rest;
      assert forall i :: 1 <= i < |r| ==> r[i] == rest[i - 1];
      r
  }

  /** Mean resolution time per category of the closed rows, one group per
      category in ascending order, as `groupby` sorts its keys. */
  function CategoryTimes(closed: seq<Ticket>): (r: seq<CategoryTime>)
    ensures forall i, j :: 0 <= i < j < |r| ==> LexLe(r[i].category, r[j].category) && r[i].category != r[j].category
    ensures forall i :: 0 <= i < |r| ==> r[i] == GroupTime(closed, r[i].category)
  {
    GroupTimes(closed, SortedCategoryOptions(closed))
  }

  /** There is a group for every category of the closed rows and for no other. */
  lemma CategoryTimesCover(closed: seq<Ticket>)
    ensures var r := CategoryTimes(closed);
      forall t :: t in closed ==> exists i :: 0 <= i < |r| && r[i].category == t.category
    ensures var r := CategoryTimes(closed);
      forall i :: 0 <= i < |r| ==> exists t :: t in closed && t.category == r[i].category
  {
    var cats := SortedCategoryOptions(closed);
    var r := CategoryTimes(closed);
    assert forall i :: 0 <= i < |r| ==> r[i].category == cats[i];
    forall t | t in closed ensures exists i :: 0 <= i < |r| && r[i].category == t.category {
      assert t.category in cats;
    }
    forall i | 0 <= i < |r| ensures exists t :: t in closed && t.category == r[i].category {
      assert cats[i] in cats;
    }
  }

  /** Every per-category mean lies between the overall lowest and highest resolution time. */
  lemma CategoryMeanWithinOverall(rows: seq<Ticket>, i: nat)
    requires i < |CategoryTimes(ClosedRows(rows))|
    requires CategoryTimes(ClosedRows(rows))[i].count > 0
    ensures ResolutionStats(rows).Stats?
    ensures var g, s := CategoryTimes(ClosedRows(rows))[i], ResolutionStats(rows);
      s.lowest * g.count <= g.total <= s.highest * g.count
  {
    var closed := ClosedRows(rows);
    var g := CategoryTimes(closed)[i];
    var group := InCategory(closed, g.category);
    var ds := Durations(group);
    assert g == GroupTime(closed, g.category);
    DurationsMembers(group);
    assert ds[0] in ds;
    var t0 :| t0 in group && t0.closedTime.Some? && ds[0] == ResolutionSeconds(t0);
    assert t0 in rows && t0.status == ClosedKey;
    var s := ResolutionStats(rows);
    assert !s.NoClosedQueries? && !s.NoDurations?;
    forall x | x in ds ensures s.lowest <= x <= s.highest {
      var t :| t in group && t.closedTime.Some? && x == ResolutionSeconds(t);
      assert t in rows && t.status == ClosedKey;
    }
    SumBetween(ds, s.lowest, s.highest);
  }

  /** `sort_values("query_closed_time")`: ascending, rows without a closing time last. */
  predicate ClosedTimeLe(a: Ticket, b: Ticket) {
    match (a.closedTime, b.closedTime)
    case (_, None) => true
    case (None, Some(_)) => false
    case (Some(x), Some(y)) => x <= y
  }

  lemma ClosedTimeLeTotalPreorder()
    ensures TotalPreorder(ClosedTimeLe)
  {
  }

  /** The "time taken per closed query" series: the closed rows ordered by closing time. */
  function ResolutionSeries(closed: seq<Ticket>): (r: seq<Ticket>)
    ensures multiset(r) == multiset(closed)
    ensures forall i, j :: 0 <= i < j < |r| ==> ClosedTimeLe(r[i], r[j])
  {
    ClosedTimeLeTotalPreorder();
    SortBy(closed, ClosedTimeLe)
  }

  /** 24 hours, in seconds. */
  const DaySeconds: int := 24 * 60 * 60

  /** Open and waiting strictly longer than 24 hours at time `now`. */
  predicate IsPending(t: Ticket, now: int) {
    t.status == OpenKey && now - t.createdTime > DaySeconds
  }

  /** "Pending Queries Over 24 Hours": the open rows created more than 24 hours before `now`. */
  function Pending(rows: seq<Ticket>, now: int): (r: seq<Ticket>)
    ensures IsSubsequence(r, rows)
    ensures forall t :: t in r <==> t in rows && t.status == OpenKey && now - t.createdTime > DaySeconds
    ensures forall t :: multiset(r)[t] == if IsPending(t, now) then multiset(rows)[t] else 0
  {
    Keep(rows, (t: Ticket) => IsPending(t, now))
  }

  /** An open query created 25 hours ago is pending; one created 23 hours ago,
      or exactly 24 hours ago, is not; a closed one never is. */
  lemma PendingThreshold(t: Ticket, now: int)
    ensures t.status == OpenKey && t.createdTime == now - 25 * 3600 ==> Pending([t], now) == [t]
    ensures t.createdTime == now - 23 * 3600 ==> Pending([t], now) == []
    ensures t.createdTime == now - 24 * 3600 ==> Pending([t], now) == []
    ensures t.status == ClosedKey ==> Pending([t], now) == []
  {
    assert t in [t];
  }
}
