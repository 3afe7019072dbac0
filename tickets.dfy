/** The rows of the `queries` table and the status values the pages write and compare. */
module Tickets {

  datatype Option<+T> = None | Some(value: T)

  /** One row of the `queries` table. Times are whole seconds on one clock. */
  datatype Ticket = Ticket(
    id: int,
    userId: int,
    email: string,
    mobile: string,
    category: string,
    heading: string,
    description: string,
    status: string,
    createdTime: int,
    closedTime: Option<int>)

  /** The status text the support page writes when it closes a query. */
  const ClosedStatus: string := "Closed"
  /** The status text the support page writes when it reopens a query. */
  const OpenStatus: string := "Open"

  /** What a lower-cased or normalised status is compared with. */
  const OpenKey: string := "open"
  const ClosedKey: string := "closed"

  /** The `id` column of the `queries` table is a primary key. */
  ghost predicate DistinctIds(rows: seq<Ticket>) {
    forall i, j :: 0 <= i < |rows| && 0 <= j < |rows| && rows[i].id == rows[j].id ==> i == j
  }

  /** Projection of the `id` column. */
  function Ids(rows: seq<Ticket>): (r: seq<int>)
    ensures |r| == |rows|
    ensures forall i :: 0 <= i < |rows| ==> r[i] == rows[i].id
  {
    if rows == [] then [] else [rows[0].id] + Ids(rows[1..])
  }

  /** Projection of the `category` column. */
  function Categories(rows: seq<Ticket>): (r: seq<string>)
    ensures |r| == |rows|
    ensures forall i :: 0 <= i < |rows| ==> r[i] == rows[i].category
  {
    if rows == [] then [] else [rows[0].category] + Categories(rows[1..])
  }

  /** Projection of the `status` column. */
  function Statuses(rows: seq<Ticket>): (r: seq<string>)
    ensures |r| == |rows|
    ensures forall i :: 0 <= i < |rows| ==> r[i] == rows[i].status
  {
    if rows == [] then [] else [rows[0].status] + Statuses(rows[1..])
  }
}
