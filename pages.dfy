/** What each page computes from the rows it loads: the support query page's
    filtered table and the two candidate lists, the support dashboard over
    all queries, and the client dashboard over the session user's queries.
    Each page narrows a copy of the loaded table step by step, while the
    candidate lists and statistics come from the unfiltered table. */
module Pages {
  import opened Text
  import opened Sequences
  import opened Tickets
  import opened Filters
  import opened Aggregation
  import opened Lifecycle

  /** Whether the support query page lists a row for the chosen filters. */
  predicate ShownOnQueryPage(t: Ticket, choice: StatusChoice, selected: set<string>) {
    LowerStatusIs(t, choice) && CategoryIn(t, selected)
  }

  /** Whether a dashboard lists a normalised row for the chosen filters. */
  predicate ShownOnDashboard(t: Ticket, choice: StatusChoice, selected: set<string>) {
    StatusIs(t, choice) && CategoryIn(t, selected)
  }

  /** The support query page's table: the status radio button, then the
      category multiselect when something is selected. */
  method FilterQueryTable(df: seq<Ticket>, choice: StatusChoice, selected: set<string>)
    returns (tableContent: seq<Ticket>)
    ensures IsSubsequence(tableContent, df)
    ensures forall t :: multiset(tableContent)[t] == if ShownOnQueryPage(t, choice, selected) then multiset(df)[t] else 0
    ensures forall t :: t in tableContent <==> t in df && ShownOnQueryPage(t, choice, selected)
  {
    tableContent := df;
    tableContent := SelectLowerStatus(tableContent, choice);
    ghost var byStatus := tableContent;
    SubsequenceRefl(byStatus);
    if selected != {} {
      tableContent := SelectCategories(tableContent, selected);
    }
    SelectTwice(df, byStatus, tableContent, (t: Ticket) => LowerStatusIs(t, choice), (t: Ticket) => CategoryIn(t, selected));
  }

  datatype QueryView = QueryView(
    table: seq<Ticket>,
    categoryOptions: seq<string>,
    closeCandidates: seq<int>,
    reopenCandidates: seq<int>)

  /** The "Submitted Queries" page of the support role; `None` when the table is empty. */
  method SupportQueryView(rows: seq<Ticket>, choice: StatusChoice, selected: set<string>)
    returns (view: Option<QueryView>)
    ensures view.None? <==> rows == []
    ensures view.Some? ==>
      && IsSubsequence(view.value.table, rows)
      && forall t :: multiset(view.value.table)[t] ==
           if ShownOnQueryPage(t, choice, selected) then multiset(rows)[t] else 0
    ensures view.Some? ==>
      && Distinct(view.value.categoryOptions)
      && forall c :: c in view.value.categoryOptions <==> exists t :: t in rows && t.category == c
    ensures view.Some? ==>
      && view.value.closeCandidates == OpenIds(rows)
      && view.value.reopenCandidates == ClosedIds(rows)
  {
    if rows == [] {
      return None;
    }
    var df := rows;
    var options := CategoryOptions(df);
    var tableContent := FilterQueryTable(df, choice, selected);
    view := Some(QueryView(tableContent, options, OpenIds(df), ClosedIds(df)));
  }

  /** The support dashboard's table: the two status checkboxes, then the
      category multiselect when something is selected. */
  method FilterSupportDashboardTable(df: seq<Ticket>, showOpen: bool, showClosed: bool, selected: set<string>)
    returns (tableContent: seq<Ticket>)
    ensures IsSubsequence(tableContent, df)
    ensures forall t :: multiset(tableContent)[t] == if ShownOnDashboard(t, CheckboxChoice(showOpen, showClosed), selected) then multiset(df)[t] else 0
    ensures forall t :: t in tableContent <==> t in df && ShownOnDashboard(t, CheckboxChoice(showOpen, showClosed), selected)
  {
    tableContent := df;
    tableContent := SelectByCheckboxes(tableContent, showOpen, showClosed);
    ghost var byStatus := tableContent;
    SubsequenceRefl(byStatus);
    if selected != {} {
      tableContent := SelectCategories(tableContent, selected);
    }
    SelectTwice(df, byStatus, tableContent,
      (t: Ticket) => StatusIs(t, CheckboxChoice(showOpen, showClosed)), (t: Ticket) => CategoryIn(t, selected));
  }

  datatype SupportDashboard = SupportDashboard(
    table: seq<Ticket>,
    categoryOptions: seq<string>,
    statusCounts: seq<(string, nat)>,
    resolution: Resolution,
    series: seq<Ticket>,
    categoryTimes: seq<CategoryTime>,
    pending: seq<Ticket>)

  /** The support dashboard at time `now`; `None` when the table is empty. */
  method SupportDashboardView(rows: seq<Ticket>, showOpen: bool, showClosed: bool, selected: set<string>, now: int)
    returns (view: Option<SupportDashboard>)
    ensures view.None? <==> rows == []
    ensures view.Some? ==>
      var df, choice := Normalise(rows), CheckboxChoice(showOpen, showClosed);
      && IsSubsequence(view.value.table, df)
      && forall t :: multiset(view.value.table)[t] ==
           if ShownOnDashboard(t, choice, selected) then multiset(df)[t] else 0
    ensures view.Some? ==>
      && (forall i, j :: 0 <= i < j < |view.value.categoryOptions| ==>
            LexLe(view.value.categoryOptions[i], view.value.categoryOptions[j])
            && view.value.categoryOptions[i] != view.value.categoryOptions[j])
      && forall c :: c in view.value.categoryOptions <==> exists t :: t in Normalise(rows) && t.category == c
    ensures view.Some? ==> view.value.statusCounts == StatusCounts(Normalise(rows)) && TotalCount(view.value.statusCounts) == |rows|
    ensures view.Some? ==> view.value.resolution == ResolutionStats(Normalise(rows))
    ensures view.Some? ==>
      && multiset(view.value.series) == multiset(ClosedRows(Normalise(rows)))
      && forall i, j :: 0 <= i < j < |view.value.series| ==> ClosedTimeLe(view.value.series[i], view.value.series[j])
    ensures view.Some? ==> view.value.categoryTimes == CategoryTimes(ClosedRows(Normalise(rows)))
    ensures view.Some? ==>
      && IsSubsequence(view.value.pending, Normalise(rows))
      && (forall t :: t in view.value.pending <==> t in Normalise(rows) && t.status == OpenKey && now - t.createdTime > DaySeconds)
      && forall t :: multiset(view.value.pending)[t] == if IsPending(t, now) then multiset(Normalise(rows))[t] else 0
  {
    if rows == [] {
      return None;
    }
    var df := Normalise(rows);
    var options := SortedCategoryOptions(df);
    var tableContent := FilterSupportDashboardTable(df, showOpen, showClosed, selected);
    var statusCounts := StatusCounts(df);
    var closed := ClosedRows(df);
    var resolution := ResolutionStats(df);
    var series, categoryTimes := [], [];
    if closed != [] {
      series := ResolutionSeries(closed);
      categoryTimes := CategoryTimes(closed);
    }
    var pending := Pending(df, now);
    view := Some(SupportDashboard(tableContent, options, statusCounts, resolution, series, categoryTimes, pending));
  }

  /** Normalising the session user's rows keeps them the session user's. */
  lemma NormaliseKeepsOwner(mine: seq<Ticket>, userId: int)
    requires forall t :: t in mine ==> t.userId == userId
    ensures forall t :: t in Normalise(mine) ==> t.userId == userId
  {
    forall t | t in Normalise(mine) ensures t.userId == userId {
      var i :| 0 <= i < |mine| && Normalise(mine)[i] == t;
      assert mine[i] in mine;
    }
  }

  /** The client dashboard's table: the status radio button, then the
      category multiselect when something is selected. */
  method FilterClientDashboardTable(df: seq<Ticket>, choice: StatusChoice, selected: set<string>)
    returns (tableContent: seq<Ticket>)
    ensures IsSubsequence(tableContent, df)
    ensures forall t :: multiset(tableContent)[t] == if ShownOnDashboard(t, choice, selected) then multiset(df)[t] else 0
    ensures forall t :: t in tableContent <==> t in df && ShownOnDashboard(t, choice, selected)
  {
    tableContent := df;
    tableContent := SelectStatus(tableContent, choice);
    ghost var byStatus := tableContent;
    SubsequenceRefl(byStatus);
    if selected != {} {
      tableContent := SelectCategories(tableContent, selected);
    }
    SelectTwice(df, byStatus, tableContent, (t: Ticket) => StatusIs(t, choice), (t: Ticket) => CategoryIn(t, selected));
  }

  datatype ClientDashboard = ClientDashboard(
    table: seq<Ticket>,
    categoryOptions: seq<string>,
    statusCounts: seq<(string, nat)>,
    categoryCounts: seq<(string, nat)>,
    resolution: Resolution)

  /** The client dashboard of user `userId`; `None` when the user has no queries. */
  method ClientDashboardView(rows: seq<Ticket>, userId: int, choice: StatusChoice, selected: set<string>)
    returns (view: Option<ClientDashboard>)
    ensures view.None? <==> forall t :: t in rows ==> t.userId != userId
    ensures view.Some? ==>
      var df := Normalise(OwnedBy(rows, userId));
      && IsSubsequence(view.value.table, df)
      && forall t :: multiset(view.value.table)[t] ==
           if ShownOnDashboard(t, choice, selected) then multiset(df)[t] else 0
    ensures view.Some? ==> forall t :: t in view.value.table ==> t.userId == userId
    ensures view.Some? ==>
      && (forall i, j :: 0 <= i < j < |view.value.categoryOptions| ==>
            LexLe(view.value.categoryOptions[i], view.value.categoryOptions[j])
            && view.value.categoryOptions[i] != view.value.categoryOptions[j])
      && forall c :: c in view.value.categoryOptions <==> exists t :: t in Normalise(OwnedBy(rows, userId)) && t.category == c
    ensures view.Some? ==>
      && view.value.statusCounts == StatusCounts(Normalise(OwnedBy(rows, userId)))
      && view.value.categoryCounts == CategoryCounts(Normalise(OwnedBy(rows, userId)))
      && TotalCount(view.value.statusCounts) == |OwnedBy(rows, userId)|
      && TotalCount(view.value.categoryCounts) == |OwnedBy(rows, userId)|
    ensures view.Some? ==> view.value.resolution == ResolutionStats(Normalise(OwnedBy(rows, userId)))
  {
    var mine := OwnedBy(rows, userId);
    if mine == [] {
      assert forall t :: t in rows ==> t.userId != userId;
      return None;
    }
    assert mine[0] in mine;
    var df := Normalise(mine);
    var options := SortedCategoryOptions(df);
    var tableContent := FilterClientDashboardTable(df, choice, selected);
    NormaliseKeepsOwner(mine, userId);
    var statusCounts := StatusCounts(df);
    var categoryCounts := CategoryCounts(df);
    var resolution := ResolutionStats(df);
    view := Some(ClientDashboard(tableContent, options, statusCounts, categoryCounts, resolution));
  }
}
