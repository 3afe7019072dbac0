/** The display filters of the query and dashboard pages, the per-user scope
    of the client dashboard and the normalisation of the status and category
    columns. Each filter is a boolean mask over the table, so each result is
    an order-preserving selection of the rows. */
module Filters {
  import opened Text
  import opened Sequences
  import opened Tickets

  /** The "All / Open / Closed" radio button. */
  datatype StatusChoice = All | Open | Closed

  /** The status a non-"All" choice keeps, in the lower-case form compared with. */
  function ChoiceKey(choice: StatusChoice): (k: string)
    requires choice != All
    ensures k == OpenKey <==> choice == Open
    ensures k == ClosedKey <==> choice == Closed
  {
    match choice
    case Open => OpenKey
    case Closed => ClosedKey
  }

  /** Whether a row passes the support query page's status filter: the
      status column is only lower-cased (not stripped) before it is compared. */
  predicate LowerStatusIs(t: Ticket, choice: StatusChoice) {
    choice == All || Lower(t.status) == ChoiceKey(choice)
  }

  /** Whether a normalised row passes a dashboard's status filter. */
  predicate StatusIs(t: Ticket, choice: StatusChoice) {
    choice == All || t.status == ChoiceKey(choice)
  }

  /** Whether a row passes the category multiselect. */
  predicate CategoryIn(t: Ticket, selected: set<string>) {
    selected == {} || t.category in selected
  }

  /** Status filter of the support query page. */
  function SelectLowerStatus(rows: seq<Ticket>, choice: StatusChoice): (r: seq<Ticket>)
    ensures choice == All ==> r == rows
    ensures choice != All ==> forall t :: t in r <==> t in rows && Lower(t.status) == ChoiceKey(choice)
    ensures IsSubsequence(r, rows)
    ensures forall t :: multiset(r)[t] == if LowerStatusIs(t, choice) then multiset(rows)[t] else 0
  {
    SubsequenceRefl(rows);
    match choice
    case All => rows
    case _ => Keep(rows, (t: Ticket) => LowerStatusIs(t, choice))
  }

  /** Status filter over rows whose status column is already normalised. */
  function SelectStatus(rows: seq<Ticket>, choice: StatusChoice): (r: seq<Ticket>)
    ensures choice == All ==> r == rows
    ensures choice != All ==> forall t :: t in r <==> t in rows && t.status == ChoiceKey(choice)
    ensures IsSubsequence(r, rows)
    ensures forall t :: multiset(r)[t] == if StatusIs(t, choice) then multiset(rows)[t] else 0
  {
    SubsequenceRefl(rows);
    match choice
    case All => rows
    case _ => Keep(rows, (t: Ticket) => StatusIs(t, choice))
  }

  /** The two checkboxes of the support dashboard as a status choice: exactly
      one ticked box selects its status, both or neither select everything. */
  function CheckboxChoice(showOpen: bool, showClosed: bool): (c: StatusChoice)
    ensures c == Open <==> showOpen && !showClosed
    ensures c == Closed <==> showClosed && !showOpen
    ensures c == All <==> showOpen == showClosed
  {
    if showOpen && !showClosed then Open
    else if showClosed && !showOpen then Closed
    else All
  }

  /** Status filter of the support dashboard, driven by its two checkboxes. */
  function SelectByCheckboxes(rows: seq<Ticket>, showOpen: bool, showClosed: bool): (r: seq<Ticket>)
    ensures showOpen == showClosed ==> r == rows
    ensures IsSubsequence(r, rows)
    ensures showOpen && !showClosed ==> forall t :: t in r <==> t in rows && t.status == OpenKey
    ensures showClosed && !showOpen ==> forall t :: t in r <==> t in rows && t.status == ClosedKey
    ensures forall t :: multiset(r)[t] == if StatusIs(t, CheckboxChoice(showOpen, showClosed)) then multiset(rows)[t] else 0
  {
    SelectStatus(rows, CheckboxChoice(showOpen, showClosed))
  }

  /** Category multiselect: an empty selection restricts nothing, otherwise
      exactly the rows whose category was selected remain. */
  function SelectCategories(rows: seq<Ticket>, selected: set<string>): (r: seq<Ticket>)
    ensures selected == {} ==> r == rows
    ensures selected != {} ==> forall t :: t in r <==> t in rows && t.category in selected
    ensures IsSubsequence(r, rows)
    ensures forall t :: multiset(r)[t] == if CategoryIn(t, selected) then multiset(rows)[t] else 0
  {
    SubsequenceRefl(rows);
    if selected == {} then rows else Keep(rows, (t: Ticket) => CategoryIn(t, selected))
  }

  /** `SELECT * FROM queries WHERE user_id = %s`: the session user's rows. */
  function OwnedBy(rows: seq<Ticket>, userId: int): (r: seq<Ticket>)
    ensures IsSubsequence(r, rows)
    ensures forall t :: t in r <==> t in rows && t.userId == userId
    ensures forall t :: multiset(r)[t] == if t.userId == userId then multiset(rows)[t] else 0
  {
    Keep(rows, (t: Ticket) => t.userId == userId)
  }

  /** One row after the dashboards' normalisation. */
  function NormaliseRow(t: Ticket): (n: Ticket)
    ensures n.status == NormaliseStatus(t.status) && n.category == Strip(t.category)
    ensures n.(status := t.status, category := t.category) == t
  {
    t.(status := NormaliseStatus(t.status), category := Strip(t.category))
  }

  /** `df['status'].str.strip().str.lower()` and `df['category'].str.strip()`
      applied to every row; every other column is kept. */
  function Normalise(rows: seq<Ticket>): (r: seq<Ticket>)
    ensures |r| == |rows|
    ensures forall i :: 0 <= i < |rows| ==> r[i] == NormaliseRow(rows[i])
  {
    if rows == [] then [] else [NormaliseRow(rows[0])] + Normalise(rows[1..])
  }

  lemma NormaliseRowIdempotent(t: Ticket)
    ensures NormaliseRow(NormaliseRow(t)) == NormaliseRow(t)
  {
    NormaliseStatusIdempotent(t.status);
    StripStripped(Strip(t.category));
  }

  /** Normalising a normalised table changes nothing. */
  lemma NormaliseIdempotent(rows: seq<Ticket>)
    ensures Normalise(Normalise(rows)) == Normalise(rows)
  {
    var n := Normalise(rows);
    var nn := Normalise(n);
    forall i | 0 <= i < |rows| ensures nn[i] == n[i] {
      NormaliseRowIdempotent(rows[i]);
    }
    assert nn == n;
  }

  /** Category options of the support query page: `dropna().unique().tolist()`. */
  function CategoryOptions(rows: seq<Ticket>): (r: seq<string>)
    ensures Distinct(r)
    ensures forall c :: c in r <==> exists t :: t in rows && t.category == c
  {
    var cats := Categories(rows);
    assert forall t :: t in rows ==> t.category in cats;
    Unique(cats)
  }

  lemma LexLeTotalPreorder()
    ensures TotalPreorder(LexLe)
  {
    forall a, b ensures LexLe(a, b) || LexLe(b, a) {
      LexLeTotal(a, b);
    }
    forall a, b, c | LexLe(a, b) && LexLe(b, c) ensures LexLe(a, c) {
      LexLeTransitive(a, b, c);
    }
  }

  /** Category options of the dashboards: `sorted(... .unique())`, each
      category present once, in strictly ascending string order. */
  function SortedCategoryOptions(rows: seq<Ticket>): (r: seq<string>)
    ensures forall i, j :: 0 <= i < j < |r| ==> LexLe(r[i], r[j]) && r[i] != r[j]
    ensures forall c :: c in r <==> exists t :: t in rows && t.category == c
  {
    var u := CategoryOptions(rows);
    LexLeTotalPreorder();
    var r := SortBy(u, LexLe);
    DistinctPermutation(u, r);
    r
  }

  /** The options `sorted` gives are the only strictly ascending arrangement
      of the table's categories. */
  lemma SortedCategoryOptionsUnique(rows: seq<Ticket>, opts: seq<string>)
    requires StrictlyAscending(opts)
    requires forall c :: c in opts <==> exists t :: t in rows && t.category == c
    ensures opts == SortedCategoryOptions(rows)
  {
    StrictlyAscendingUnique(opts, SortedCategoryOptions(rows));
  }
}
