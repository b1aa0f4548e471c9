/** The manager's employee-queries screen (`QueriesSection`): a list of
    queries in component state, a response text, and the respond action that
    approves or rejects one query with that text. Toasts are returned as
    their title strings. */
module Queries {
  import opened Wrappers
  import opened Seqs
  import Text

  /** `status: 'Pending' | 'Approved' | 'Rejected'`. */
  datatype QueryStatus = Pending | Approved | Rejected

  function StatusName(s: QueryStatus): string
  {
    match s
    case Pending => "Pending"
    case Approved => "Approved"
    case Rejected => "Rejected"
  }

  datatype Query = Query(id: int, employeeName: string, employeeEmail: string, queryType: string,
                         subject: string, message: string, date: string, status: QueryStatus,
                         response: Option<string>)

  /** `getStatusColor` (the vacation screen has the same switch). */
  function StatusColor(status: string): string
  {
    if status == "Approved" then "bg-green-100 text-green-700 hover:bg-green-100"
    else if status == "Pending" then "bg-yellow-100 text-yellow-700 hover:bg-yellow-100"
    else if status == "Rejected" then "bg-red-100 text-red-700 hover:bg-red-100"
    else ""
  }

  /** The three statuses get three distinct, non-empty classes; any other
      string gets none. */
  lemma StatusColorsDistinct(other: string)
    requires other != "Approved" && other != "Pending" && other != "Rejected"
    ensures StatusColor("Approved") != StatusColor("Pending") && StatusColor("Pending") != StatusColor("Rejected")
    ensures StatusColor("Approved") != StatusColor("Rejected")
    ensures forall s: QueryStatus :: StatusColor(StatusName(s)) != ""
    ensures StatusColor(other) == ""
  {
    assert "Pending" != "Approved" && "Rejected" != "Approved" && "Rejected" != "Pending";
    assert |StatusColor("Approved")| == 46 && |StatusColor("Pending")| == 49 && |StatusColor("Rejected")| == 40;
  }

  /** The `map` of `handleRespond`: the queries with that id get the status
      and the response, all others are kept as they are. */
  function Responded(queries: seq<Query>, queryId: int, status: QueryStatus, response: string): (r: seq<Query>)
    ensures |r| == |queries|
    ensures forall i :: 0 <= i < |queries| && queries[i].id == queryId ==>
      r[i] == queries[i].(status := status, response := Some(response))
    ensures forall i :: 0 <= i < |queries| && queries[i].id != queryId ==> r[i] == queries[i]
  {
    seq(|queries|, i requires 0 <= i < |queries| =>
      if queries[i].id == queryId then queries[i].(status := status, response := Some(response)) else queries[i])
  }

  /** Answering twice with the same status and text is answering once, and
      answering an id no query has changes nothing. */
  lemma RespondedIdempotent(queries: seq<Query>, queryId: int, status: QueryStatus, response: string)
    ensures Responded(Responded(queries, queryId, status, response), queryId, status, response) ==
            Responded(queries, queryId, status, response)
    ensures (forall i :: 0 <= i < |queries| ==> queries[i].id != queryId) ==>
            Responded(queries, queryId, status, response) == queries
  {
    var once := Responded(queries, queryId, status, response);
    assert forall i :: 0 <= i < |queries| ==> Responded(once, queryId, status, response)[i] == once[i];
  }

  function PendingCount(queries: seq<Query>): nat
  {
    |Filter(queries, (q: Query) => q.status == Pending)|
  }

  function ApprovedCount(queries: seq<Query>): nat
  {
    |Filter(queries, (q: Query) => q.status == Approved)|
  }

  function RejectedCount(queries: seq<Query>): nat
  {
    |Filter(queries, (q: Query) => q.status == Rejected)|
  }

  /** The three cards add up to the number of queries, as a status is one of three. */
  lemma CountsPartition(queries: seq<Query>)
    ensures PendingCount(queries) + ApprovedCount(queries) + RejectedCount(queries) == |queries|
  {
    FilterThreeWay(queries, (q: Query) => q.status == Pending, (q: Query) => q.status == Approved,
                   (q: Query) => q.status == Rejected);
  }

  /** After an answer the pending queries are exactly the pending ones with
      another id: the answered query leaves the pending card. */
  lemma {:induction false} RespondSettlesQuery(queries: seq<Query>, queryId: int, status: QueryStatus, response: string)
    requires status != Pending
    ensures Filter(Responded(queries, queryId, status, response), (q: Query) => q.status == Pending) ==
            Filter(queries, (q: Query) => q.status == Pending && q.id != queryId)
  {
    if queries != [] {
      var r := Responded(queries, queryId, status, response);
      RespondSettlesQuery(queries[1..], queryId, status, response);
      assert r[1..] == Responded(queries[1..], queryId, status, response);
    }
  }

  class QueriesSection {
    var queryList: seq<Query>
    var selectedQuery: Option<Query>
    var response: string

    constructor (initial: seq<Query>)
      ensures queryList == initial && selectedQuery == None && response == ""
    {
      queryList, selectedQuery, response := initial, None, "";
    }

    /** The Respond button of a pending query: select it and clear the text. */
    method OpenResponse(query: Query)
      modifies this
      ensures selectedQuery == Some(query) && response == "" && queryList == old(queryList)
    {
      selectedQuery := Some(query);
      response := "";
    }

    /** Typing in the response box. */
    method SetResponse(text: string)
      modifies this
      ensures response == text && queryList == old(queryList) && selectedQuery == old(selectedQuery)
    {
      response := text;
    }

    /** `handleRespond`: a blank response changes nothing; otherwise the
        query with that id gets the status and the text, the text is
        cleared and the dialog closed. The result is the toast title. */
    method HandleRespond(queryId: int, status: QueryStatus) returns (toast: string)
      requires status != Pending
      modifies this
      ensures Text.Trim(old(response)) == [] ==> toast == "Please provide a response message" && unchanged(this)
      ensures Text.Trim(old(response)) != [] ==>
        && queryList == Responded(old(queryList), queryId, status, old(response))
        && response == "" && selectedQuery == None
        && toast == "Query " + Text.ToLower(StatusName(status)) + "!"
    {
      if Text.Trim(response) == [] {
        return "Please provide a response message";
      }
      queryList := Responded(queryList, queryId, status, response);
      toast := "Query " + Text.ToLower(StatusName(status)) + "!";
      response := "";
      selectedQuery := None;
    }
  }
}
