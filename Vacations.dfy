/** The vacation management screen (`VacationSection`): the requests in
    component state, approve and reject by id, and the three summary cards
    (pending, approved, total days). */
module Vacations {
  import opened Seqs

  datatype VacationRequest = VacationRequest(id: int, employee: string, startDate: string, endDate: string,
                                             days: int, leaveType: string, status: string)

  /** The `map` of `handleApprove` and `handleReject`: the requests with that
      id get the new status and keep every other field; the rest are kept. */
  function WithStatus(requests: seq<VacationRequest>, id: int, status: string): (r: seq<VacationRequest>)
    ensures |r| == |requests|
    ensures forall i :: 0 <= i < |requests| ==> r[i].(status := requests[i].status) == requests[i]
    ensures forall i :: 0 <= i < |requests| ==> r[i].status == if requests[i].id == id then status else requests[i].status
  {
    seq(|requests|, i requires 0 <= i < |requests| =>
      if requests[i].id == id then requests[i].(status := status) else requests[i])
  }

  function PendingCount(requests: seq<VacationRequest>): nat
  {
    |Filter(requests, (r: VacationRequest) => r.status == "Pending")|
  }

  function ApprovedCount(requests: seq<VacationRequest>): nat
  {
    |Filter(requests, (r: VacationRequest) => r.status == "Approved")|
  }

  /** `requests.reduce((sum, req) => sum + req.days, 0)`. */
  function TotalDays(requests: seq<VacationRequest>): int
  {
    SumOf(requests, (r: VacationRequest) => r.days)
  }

  /** Approve and Reject are shown only on a pending request. */
  predicate ActionsOffered(request: VacationRequest)
  {
    request.status == "Pending"
  }

  /** A status change never changes the total of days, and keeps the
      requests in their order with every other field. */
  lemma StatusChangeKeepsDays(requests: seq<VacationRequest>, id: int, status: string)
    ensures TotalDays(WithStatus(requests, id, status)) == TotalDays(requests)
  {
    SumOfPointwise(WithStatus(requests, id, status), requests, (r: VacationRequest) => r.days);
  }

  /** Approving never lowers the approved card nor raises the pending one,
      and the approved request is no longer offered for a decision. Exactly:
      the pending card counts the pending requests with another id, and the
      approved card the approved ones together with those of that id. */
  lemma ApproveMoves(requests: seq<VacationRequest>, id: int)
    ensures ApprovedCount(WithStatus(requests, id, "Approved")) >= ApprovedCount(requests)
    ensures PendingCount(WithStatus(requests, id, "Approved")) <= PendingCount(requests)
    ensures PendingCount(WithStatus(requests, id, "Approved")) ==
      |Filter(requests, (r: VacationRequest) => r.status == "Pending" && r.id != id)|
    ensures ApprovedCount(WithStatus(requests, id, "Approved")) ==
      |Filter(requests, (r: VacationRequest) => r.status == "Approved" || r.id == id)|
    ensures forall i :: 0 <= i < |requests| && requests[i].id == id ==>
      !ActionsOffered(WithStatus(requests, id, "Approved")[i])
  {
    var after := WithStatus(requests, id, "Approved");
    FilterPointwise(requests, after, (r: VacationRequest) => r.status == "Approved", (r: VacationRequest) => r.status == "Approved");
    FilterPointwise(after, requests, (r: VacationRequest) => r.status == "Pending", (r: VacationRequest) => r.status == "Pending");
    FilterPointwiseEqual(after, requests, (r: VacationRequest) => r.status == "Pending",
                         (r: VacationRequest) => r.status == "Pending" && r.id != id);
    FilterPointwiseEqual(after, requests, (r: VacationRequest) => r.status == "Approved",
                         (r: VacationRequest) => r.status == "Approved" || r.id == id);
  }

  /** Rejecting never raises the pending card nor the approved one. Exactly:
      both cards count their requests with another id. */
  lemma RejectMoves(requests: seq<VacationRequest>, id: int)
    ensures PendingCount(WithStatus(requests, id, "Rejected")) <= PendingCount(requests)
    ensures ApprovedCount(WithStatus(requests, id, "Rejected")) <= ApprovedCount(requests)
    ensures PendingCount(WithStatus(requests, id, "Rejected")) ==
      |Filter(requests, (r: VacationRequest) => r.status == "Pending" && r.id != id)|
    ensures ApprovedCount(WithStatus(requests, id, "Rejected")) ==
      |Filter(requests, (r: VacationRequest) => r.status == "Approved" && r.id != id)|
    ensures forall i :: 0 <= i < |requests| && requests[i].id == id ==>
      !ActionsOffered(WithStatus(requests, id, "Rejected")[i])
  {
    var after := WithStatus(requests, id, "Rejected");
    FilterPointwise(after, requests, (r: VacationRequest) => r.status == "Pending", (r: VacationRequest) => r.status == "Pending");
    FilterPointwise(after, requests, (r: VacationRequest) => r.status == "Approved", (r: VacationRequest) => r.status == "Approved");
    FilterPointwiseEqual(after, requests, (r: VacationRequest) => r.status == "Pending",
                         (r: VacationRequest) => r.status == "Pending" && r.id != id);
    FilterPointwiseEqual(after, requests, (r: VacationRequest) => r.status == "Approved",
                         (r: VacationRequest) => r.status == "Approved" && r.id != id);
  }

  class VacationSection {
    var requests: seq<VacationRequest>

    constructor (initial: seq<VacationRequest>)
      ensures requests == initial
    {
      requests := initial;
    }

    /** `handleApprove`; the result is the toast title. */
    method HandleApprove(id: int) returns (toast: string)
      modifies this
      ensures requests == WithStatus(old(requests), id, "Approved")
      ensures toast == "Vacation request approved!"
    {
      requests := WithStatus(requests, id, "Approved");
      toast := "Vacation request approved!";
    }

    /** `handleReject`; the result is the toast title. */
    method HandleReject(id: int) returns (toast: string)
      modifies this
      ensures requests == WithStatus(old(requests), id, "Rejected")
      ensures toast == "Vacation request rejected"
    {
      requests := WithStatus(requests, id, "Rejected");
      toast := "Vacation request rejected";
    }
  }
}
