/** The ticket lifecycle: a client submits a query (a row appended to the
    `queries` table), support closes an open query and reopens a closed one
    (one row updated in place), choosing among the ids offered in the
    "close" and "reopen" lists. */
module Lifecycle {
  import opened Text
  import opened Sequences
  import opened Tickets
  import Aggregation

  /** The two row updates the support query page issues. */
  datatype Update = CloseAt(now: int) | ReopenAt(now: int)

  /** `Lower` applied to the status texts the updates write. */
  lemma {:induction false} WrittenStatusesLower()
    ensures Lower(ClosedStatus) == ClosedKey
    ensures Lower(OpenStatus) == OpenKey
  {
    assert Lower(ClosedStatus) == [LowerChar('C')] + Lower("losed");
    assert Lower(OpenStatus) == [LowerChar('O')] + Lower("pen");
  }

  /** The new value of a row an update applies to. Closing sets status and
      closing time; reopening sets status and creation time and clears the
      closing time; no other column changes. */
  function Apply(u: Update, t: Ticket): (r: Ticket)
    ensures u.CloseAt? ==> r.status == ClosedStatus && r.closedTime == Some(u.now)
    ensures u.CloseAt? ==> r.(status := t.status, closedTime := t.closedTime) == t
    ensures u.ReopenAt? ==> r.status == OpenStatus && r.createdTime == u.now && r.closedTime == None
    ensures u.ReopenAt? ==> r.(status := t.status, createdTime := t.createdTime, closedTime := t.closedTime) == t
    ensures Lower(r.status) == if u.CloseAt? then ClosedKey else OpenKey
  {
    WrittenStatusesLower();
    match u
    case CloseAt(now) => t.(status := ClosedStatus, closedTime := Some(now))
    case ReopenAt(now) => t.(status := OpenStatus, createdTime := now, closedTime := None)
  }

  /** Closing and then reopening a query leaves it open with no closing time,
      created at the moment of reopening, all else as it was. */
  lemma CloseThenReopen(t: Ticket, closedAt: int, reopenedAt: int)
    ensures var r := Apply(ReopenAt(reopenedAt), Apply(CloseAt(closedAt), t));
      r == t.(status := OpenStatus, createdTime := reopenedAt, closedTime := None)
  {
  }

  /** A query closed at `at` resolves in `at` minus its creation time: the
      `time_taken` the dashboards compute for it. */
  lemma ClosingSetsResolution(t: Ticket, at: int)
    ensures Apply(CloseAt(at), t).closedTime.Some?
    ensures Aggregation.ResolutionSeconds(Apply(CloseAt(at), t)) == at - t.createdTime
  {
  }

  /** `UPDATE queries SET ... WHERE id = %s`: the update applied to every row
      with that id; every other row is left as it was. */
  function UpdateWhere(rows: seq<Ticket>, id: int, u: Update): (r: seq<Ticket>)
    ensures |r| == |rows|
    ensures forall i :: 0 <= i < |rows| ==> r[i] == if rows[i].id == id then Apply(u, rows[i]) else rows[i]
  {
    if rows == [] then [] else [if rows[0].id == id then Apply(u, rows[0]) else rows[0]] + UpdateWhere(rows[1..], id, u)
  }

  /** An update never changes an id, so the ids stay a primary key. */
  lemma UpdateKeepsIds(rows: seq<Ticket>, id: int, u: Update)
    ensures Ids(UpdateWhere(rows, id, u)) == Ids(rows)
    ensures DistinctIds(rows) ==> DistinctIds(UpdateWhere(rows, id, u))
  {
  }

  /** A query carries a closing time exactly when its status reads "closed". */
  ghost predicate ClosedIffTimed(rows: seq<Ticket>) {
    forall i :: 0 <= i < |rows| ==> (Lower(rows[i].status) == ClosedKey <==> rows[i].closedTime.Some?)
  }

  /** Closing and reopening keep status and closing time in step. */
  lemma UpdateKeepsClosedIffTimed(rows: seq<Ticket>, id: int, u: Update)
    requires ClosedIffTimed(rows)
    ensures ClosedIffTimed(UpdateWhere(rows, id, u))
  {
    var r := UpdateWhere(rows, id, u);
    forall i | 0 <= i < |r| ensures Lower(r[i].status) == ClosedKey <==> r[i].closedTime.Some? {
      if rows[i].id == id {
        WrittenStatusesLower();
      }
    }
  }

  /** Ids of the rows whose status, lower-cased, is `key` (in table order). */
  function IdsWithStatus(rows: seq<Ticket>, key: string): (r: seq<int>)
    ensures forall id :: id in r <==> exists t :: t in rows && Lower(t.status) == key && t.id == id
  {
    if rows == [] then []
    else
      var rest := IdsWithStatus(rows[1..], key);
      assert forall t :: t in rows <==> t == rows[0] || t in rows[1..];
      if Lower(rows[0].status) == key then [rows[0].id] + rest else rest
  }

  /** The ids offered in "Select Query to Close". */
  function OpenIds(rows: seq<Ticket>): (r: seq<int>)
    ensures forall id :: id in r <==> exists t :: t in rows && Lower(t.status) == OpenKey && t.id == id
  {
    IdsWithStatus(rows, OpenKey)
  }

  /** The ids offered in "Select Query to Reopen". */
  function ClosedIds(rows: seq<Ticket>): (r: seq<int>)
    ensures forall id :: id in r <==> exists t :: t in rows && Lower(t.status) == ClosedKey && t.id == id
  {
    IdsWithStatus(rows, ClosedKey)
  }

  /** With ids a primary key, a row's id is offered for closing exactly when
      its status is open and for reopening exactly when it is closed; so no id
      is offered in both lists, and every open or closed row is offered in one. */
  lemma CandidateListsPartition(rows: seq<Ticket>)
    requires DistinctIds(rows)
    ensures forall t :: t in rows ==> (t.id in OpenIds(rows) <==> Lower(t.status) == OpenKey)
    ensures forall t :: t in rows ==> (t.id in ClosedIds(rows) <==> Lower(t.status) == ClosedKey)
    ensures forall id :: !(id in OpenIds(rows) && id in ClosedIds(rows))
  {
    forall t, u | t in rows && u in rows && t.id == u.id ensures t == u {
      var i :| 0 <= i < |rows| && rows[i] == t;
      var j :| 0 <= j < |rows| && rows[j] == u;
    }
  }

  /** Rows with an id other than the updated one are the same before and after. */
  lemma UpdateKeepsOtherRows(rows: seq<Ticket>, id: int, u: Update, t: Ticket)
    requires t.id != id
    ensures t in UpdateWhere(rows, id, u) <==> t in rows
  {
    var r := UpdateWhere(rows, id, u);
    if t in r {
      var i :| 0 <= i < |r| && r[i] == t;
      assert rows[i] == t;
    }
    if t in rows {
      var i :| 0 <= i < |rows| && rows[i] == t;
      assert r[i] == t;
    }
  }

  /** The updated id ends up in the list its new status belongs to, and only there. */
  lemma UpdateMovesChosenId(rows: seq<Ticket>, id: int, u: Update)
    requires DistinctIds(rows)
    requires id in Ids(rows)
    ensures var r := UpdateWhere(rows, id, u);
      (u.CloseAt? ==> id in ClosedIds(r) && id !in OpenIds(r))
      && (u.ReopenAt? ==> id in OpenIds(r) && id !in ClosedIds(r))
  {
    var r := UpdateWhere(rows, id, u);
    UpdateKeepsIds(rows, id, u);
    CandidateListsPartition(r);
    var k :| 0 <= k < |rows| && rows[k].id == id;
    assert r[k] in r && r[k].id == id;
  }

  /** Every id other than the updated one stays in the lists it was in. */
  lemma UpdateKeepsOtherIds(rows: seq<Ticket>, id: int, u: Update)
    ensures var r := UpdateWhere(rows, id, u);
      forall other :: other != id ==>
        (other in OpenIds(r) <==> other in OpenIds(rows)) && (other in ClosedIds(r) <==> other in ClosedIds(rows))
  {
    forall t: Ticket | t.id != id {
      UpdateKeepsOtherRows(rows, id, u, t);
    }
  }

  /** The form of "Create a New Query". */
  datatype Submission = Submission(email: string, mobile: string, category: string, heading: string, description: string)

  /** One "... is required!" message of the form. */
  datatype FormError = EmailRequired | MobileRequired | CategoryRequired | HeadingRequired | DescriptionRequired

  /** Position of a message's field on the form. */
  function Rank(e: FormError): nat {
    match e
    case EmailRequired => 0
    case MobileRequired => 1
    case CategoryRequired => 2
    case HeadingRequired => 3
    case DescriptionRequired => 4
  }

  /** Messages in the order of their fields on the form, each at most once. */
  predicate InFieldOrder(errors: seq<FormError>) {
    forall i, j :: 0 <= i < j < |errors| ==> Rank(errors[i]) < Rank(errors[j])
  }

  /** One `if not field: st.error(...)` check: appends `e` when the field is missing. */
  function Check(errors: seq<FormError>, missing: bool, e: FormError): (r: seq<FormError>)
    requires InFieldOrder(errors) && forall x :: x in errors ==> Rank(x) < Rank(e)
    ensures InFieldOrder(r)
    ensures forall x :: x in r <==> x in errors || (missing && x == e)
  {
    if missing then errors + [e] else errors
  }

  /** The messages a submission raises: one per empty field, in field order. */
  function SubmitErrors(f: Submission): (r: seq<FormError>)
    ensures EmailRequired in r <==> f.email == ""
    ensures MobileRequired in r <==> f.mobile == ""
    ensures CategoryRequired in r <==> f.category == ""
    ensures HeadingRequired in r <==> f.heading == ""
    ensures DescriptionRequired in r <==> f.description == ""
    ensures InFieldOrder(r)
  {
    var e1 := Check([], f.email == "", EmailRequired);
    var e2 := Check(e1, f.mobile == "", MobileRequired);
    var e3 := Check(e2, f.category == "", CategoryRequired);
    var e4 := Check(e3, f.heading == "", HeadingRequired);
    Check(e4, f.description == "", DescriptionRequired)
  }

  /** The choices of the "Query Category" select box. */
  const QueryCategories: seq<string> := [
    "Bug Report", "Technical Support", "Billing Problem",
    "Payment Failure", "Account Suspension", "Login Issue",
    "Subscription Cancellation", "Feature Request",
    "UI Feedback", "Data Export"]

  /** Ten distinct, non-empty choices: a category picked from the box never
      raises "Query Category is required!". */
  lemma CategoryChoiceNeverMissing(f: Submission)
    requires f.category in QueryCategories
    ensures |QueryCategories| == 10 && Distinct(QueryCategories)
    ensures CategoryRequired !in SubmitErrors(f)
  {
  }

  /** The row `INSERT INTO queries (...)` adds: the columns it names, the
      status the database defaults to, and no closing time. */
  function NewTicket(id: int, userId: int, f: Submission, status: string, now: int): (t: Ticket)
    ensures t.id == id && t.userId == userId && t.status == status
    ensures t.email == f.email && t.mobile == f.mobile && t.category == f.category
    ensures t.heading == f.heading && t.description == f.description
    ensures t.createdTime == now && t.closedTime == None
  {
    Ticket(id, userId, f.email, f.mobile, f.category, f.heading, f.description, status, now, None)
  }

  /** The `queries` table. */
  class QueryTable {
    var rows: seq<Ticket>
    /** The id the next insert receives (the table's auto-increment counter). */
    var nextId: int
    /** The value the database gives the status column of an inserted row. */
    const defaultStatus: string

    /** Ids are unique and below the counter, and a row is closed exactly
        when it has a closing time; the status the database gives a new row
        does not read "closed". */
    ghost predicate Valid()
      reads this
    {
      && DistinctIds(rows)
      && (forall i :: 0 <= i < |rows| ==> rows[i].id < nextId)
      && ClosedIffTimed(rows)
      && Lower(defaultStatus) != ClosedKey
    }

    constructor (defaultStatus: string)
      requires Lower(defaultStatus) != ClosedKey
      ensures Valid()
      ensures rows == [] && nextId == 1 && this.defaultStatus == defaultStatus
    {
      rows := [];
      nextId := 1;
      this.defaultStatus := defaultStatus;
    }

    /** "Close Selected Query". */
    method Close(id: int, now: int)
      requires Valid()
      modifies this
      ensures Valid()
      ensures rows == UpdateWhere(old(rows), id, CloseAt(now))
      ensures nextId == old(nextId)
    {
      UpdateKeepsIds(rows, id, CloseAt(now));
      UpdateKeepsClosedIffTimed(rows, id, CloseAt(now));
      rows := UpdateWhere(rows, id, CloseAt(now));
    }

    /** "Reopen Selected Query". */
    method Reopen(id: int, now: int)
      requires Valid()
      modifies this
      ensures Valid()
      ensures rows == UpdateWhere(old(rows), id, ReopenAt(now))
      ensures nextId == old(nextId)
    {
      UpdateKeepsIds(rows, id, ReopenAt(now));
      UpdateKeepsClosedIffTimed(rows, id, ReopenAt(now));
      rows := UpdateWhere(rows, id, ReopenAt(now));
    }

    /** "Submit Query" as written: each empty field adds its message, and the
        row is inserted exactly when the description is non-empty, whatever
        the other fields hold (the `else` belongs to the description check). */
    method Submit(userId: int, f: Submission, now: int) returns (errors: seq<FormError>, inserted: Option<int>)
      requires Valid()
      modifies this
      ensures Valid()
      ensures errors == SubmitErrors(f)
      ensures f.description != "" ==>
        && inserted == Some(old(nextId))
        && rows == old(rows) + [NewTicket(old(nextId), userId, f, defaultStatus, now)]
        && nextId == old(nextId) + 1
      ensures f.description == "" ==> inserted == None && rows == old(rows) && nextId == old(nextId)
    {
      errors := [];
      if f.email == "" {
        errors := errors + [EmailRequired];
      }
      if f.mobile == "" {
        errors := errors + [MobileRequired];
      }
      if f.category == "" {
        errors := errors + [CategoryRequired];
      }
      if f.heading == "" {
        errors := errors + [HeadingRequired];
      }
      if f.description == "" {
        errors := errors + [DescriptionRequired];
        inserted := None;
      } else {
        inserted := Some(nextId);
        Insert(userId, f, now);
      }
    }

    /** "Submit Query" as the form's messages intend: the row is inserted
        exactly when every field is filled in. */
    method SubmitChecked(userId: int, f: Submission, now: int) returns (errors: seq<FormError>, inserted: Option<int>)
      requires Valid()
      modifies this
      ensures Valid()
      ensures errors == SubmitErrors(f)
      ensures inserted.Some? <==> errors == []
      ensures errors == [] ==>
        && inserted == Some(old(nextId))
        && rows == old(rows) + [NewTicket(old(nextId), userId, f, defaultStatus, now)]
        && nextId == old(nextId) + 1
      ensures errors != [] ==> rows == old(rows) && nextId == old(nextId)
    {
      errors := SubmitErrors(f);
      if errors == [] {
        inserted := Some(nextId);
        Insert(userId, f, now);
      } else {
        inserted := None;
      }
    }

    /** Appends the submitted row under the next id. */
    method Insert(userId: int, f: Submission, now: int)
      requires Valid()
      modifies this
      ensures Valid()
      ensures rows == old(rows) + [NewTicket(old(nextId), userId, f, defaultStatus, now)]
      ensures nextId == old(nextId) + 1
    {
      rows := rows + [NewTicket(nextId, userId, f, defaultStatus, now)];
      nextId := nextId + 1;
    }
  }

  /** A submission with an empty e-mail address but a description: the form
      reports "Email field is required!" and still inserts the query. */
  method SubmitWithoutEmail(now: int) returns (errors: seq<FormError>, inserted: Option<int>)
    ensures errors == [EmailRequired]
    ensures inserted == Some(1)
  {
    WrittenStatusesLower();
    var table := new QueryTable(OpenStatus);
    errors, inserted := table.Submit(7, Submission("", "5550100", "Bug Report", "X", "Y"), now);
  }
}
