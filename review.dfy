/** The review workflow shared by the faculty dashboard and the records page: approving or
    rejecting a record by id, as a map over the record list, and the search filter. */
module Review {
  import opened Seqs
  import opened Text
  import opened SampleData

  /** `{ ...a, status: "approved", approvedDate: today, approvedBy: by }`. */
  function ApproveRecord(a: Achievement, today: string, approver: string): Achievement {
    a.(status := Approved, approvedDate := Some(today), approvedBy := Some(approver))
  }

  /** `{ ...a, status: "rejected" }`: approval details are left as they were. */
  function RejectRecord(a: Achievement): Achievement {
    a.(status := Rejected)
  }

  /** `rs.map(a => a.id === id ? approved(a) : a)`. */
  function Approve(rs: seq<Achievement>, id: string, today: string, approver: string): (r: seq<Achievement>)
    ensures |r| == |rs|
  {
    seq(|rs|, i requires 0 <= i < |rs| => if rs[i].id == id then ApproveRecord(rs[i], today, approver) else rs[i])
  }

  /** `rs.map(a => a.id === id ? rejected(a) : a)`. */
  function Reject(rs: seq<Achievement>, id: string): (r: seq<Achievement>)
    ensures |r| == |rs|
  {
    seq(|rs|, i requires 0 <= i < |rs| => if rs[i].id == id then RejectRecord(rs[i]) else rs[i])
  }

  /** Approving changes exactly the records carrying the id, and of them only the status and
      the approval details; every other record is kept as it was, in place. */
  lemma ApproveOnlyTouchesId(rs: seq<Achievement>, id: string, today: string, approver: string)
    ensures var r := Approve(rs, id, today, approver);
            && |r| == |rs|
            && (forall i :: 0 <= i < |rs| && rs[i].id != id ==> r[i] == rs[i])
            && (forall i :: 0 <= i < |rs| && rs[i].id == id ==>
                  r[i].status == Approved && r[i].approvedDate == Some(today) && r[i].approvedBy == Some(approver)
                  && r[i].(status := rs[i].status, approvedDate := rs[i].approvedDate, approvedBy := rs[i].approvedBy) == rs[i])
  {
  }

  /** Rejecting changes only the status of the records carrying the id. */
  lemma RejectOnlyTouchesId(rs: seq<Achievement>, id: string)
    ensures var r := Reject(rs, id);
            && |r| == |rs|
            && (forall i :: 0 <= i < |rs| && rs[i].id != id ==> r[i] == rs[i])
            && (forall i :: 0 <= i < |rs| && rs[i].id == id ==>
                  r[i].status == Rejected && r[i].(status := rs[i].status) == rs[i])
  {
  }

  /** A record's id is the only one it has: approving or rejecting keeps every id. */
  lemma ReviewKeepsIds(rs: seq<Achievement>, id: string, today: string, approver: string)
    ensures forall i :: 0 <= i < |rs| ==> Approve(rs, id, today, approver)[i].id == rs[i].id && Reject(rs, id)[i].id == rs[i].id
    ensures UniqueIds(rs) ==> UniqueIds(Approve(rs, id, today, approver)) && UniqueIds(Reject(rs, id))
  {
  }

  /** An id no record carries leaves the list unchanged. */
  lemma UnknownIdIsNoOp(rs: seq<Achievement>, id: string, today: string, approver: string)
    requires forall i :: 0 <= i < |rs| ==> rs[i].id != id
    ensures Approve(rs, id, today, approver) == rs
    ensures Reject(rs, id) == rs
  {
  }

  /** Approving the same id twice with the same date gives what approving once gives. */
  lemma ApproveIdempotent(rs: seq<Achievement>, id: string, today: string, approver: string)
    ensures Approve(Approve(rs, id, today, approver), id, today, approver) == Approve(rs, id, today, approver)
  {
  }

  lemma RejectIdempotent(rs: seq<Achievement>, id: string)
    ensures Reject(Reject(rs, id), id) == Reject(rs, id)
  {
  }

  /** Approval keeps the lifecycle invariant: approval details exactly on approved records. */
  lemma ApproveKeepsConsistency(rs: seq<Achievement>, id: string, today: string, approver: string)
    requires forall i :: 0 <= i < |rs| ==> ApprovalFieldsConsistent(rs[i])
    ensures forall i :: 0 <= i < |rs| ==> ApprovalFieldsConsistent(Approve(rs, id, today, approver)[i])
  {
  }

  /** Rejecting a pending record keeps the invariant; rejecting an approved one would not,
      since its approval details stay, but the pages offer rejection on pending records only. */
  lemma RejectPendingKeepsConsistency(rs: seq<Achievement>, id: string)
    requires forall i :: 0 <= i < |rs| ==> ApprovalFieldsConsistent(rs[i])
    requires forall i :: 0 <= i < |rs| && rs[i].id == id ==> rs[i].status == Pending
    ensures forall i :: 0 <= i < |rs| ==> ApprovalFieldsConsistent(Reject(rs, id)[i])
  {
  }

  /** Rejecting an approved record leaves its approval details in place, so a dated approval
      turns into a rejected record that still carries an approval date. */
  lemma RejectApprovedKeepsApprovalDetails(rs: seq<Achievement>, id: string, i: nat)
    requires i < |rs| && rs[i].id == id && rs[i].status == Approved
    ensures Reject(rs, id)[i].status == Rejected
    ensures Reject(rs, id)[i].approvedDate == rs[i].approvedDate && Reject(rs, id)[i].approvedBy == rs[i].approvedBy
    ensures rs[i].approvedDate.Some? ==> !ApprovalFieldsConsistent(Reject(rs, id)[i])
  {
  }

  /** Sample record 1 is such a record. */
  lemma RejectRecord1KeepsApprovalDetails()
    ensures !ApprovalFieldsConsistent(Reject([Record1], "1")[0])
  {
    RejectApprovedKeepsApprovalDetails([Record1], "1", 0);
  }

  // Status counts after a review.

  /** The records carrying `id` with status `st`. */
  function WithIdAndStatus(id: string, st: Status): Achievement -> bool {
    (a: Achievement) => a.id == id && a.status == st
  }

  lemma ApproveSnoc(rs: seq<Achievement>, x: Achievement, id: string, today: string, approver: string)
    ensures Approve(rs + [x], id, today, approver)
         == Approve(rs, id, today, approver) + [if x.id == id then ApproveRecord(x, today, approver) else x]
  {
  }

  /** Approving takes every pending record carrying the id out of the pending list. */
  lemma {:induction false} ApprovePendingCount(rs: seq<Achievement>, id: string, today: string, approver: string)
    ensures |PendingOf(Approve(rs, id, today, approver))| + |Filter(rs, WithIdAndStatus(id, Pending))| == |PendingOf(rs)|
  {
    if rs != [] {
      var rs' := rs[..|rs| - 1];
      var x := rs[|rs| - 1];
      var x' := if x.id == id then ApproveRecord(x, today, approver) else x;
      assert rs == rs' + [x];
      ApprovePendingCount(rs', id, today, approver);
      ApproveSnoc(rs', x, id, today, approver);
      FilterSnoc(Approve(rs', id, today, approver), x', IsPending);
      FilterSnoc(rs', x, IsPending);
      FilterSnoc(rs', x, WithIdAndStatus(id, Pending));
    }
  }

  /** Approving takes every rejected record carrying the id out of the rejected list. */
  lemma {:induction false} ApproveRejectedCount(rs: seq<Achievement>, id: string, today: string, approver: string)
    ensures |RejectedOf(Approve(rs, id, today, approver))| + |Filter(rs, WithIdAndStatus(id, Rejected))| == |RejectedOf(rs)|
  {
    if rs != [] {
      var rs' := rs[..|rs| - 1];
      var x := rs[|rs| - 1];
      var x' := if x.id == id then ApproveRecord(x, today, approver) else x;
      assert rs == rs' + [x];
      ApproveRejectedCount(rs', id, today, approver);
      ApproveSnoc(rs', x, id, today, approver);
      FilterSnoc(Approve(rs', id, today, approver), x', IsRejected);
      FilterSnoc(rs', x, IsRejected);
      FilterSnoc(rs', x, WithIdAndStatus(id, Rejected));
    }
  }

  /** Approving moves every pending or rejected record carrying the id to approved, and
      nothing else. */
  lemma ApproveCounts(rs: seq<Achievement>, id: string, today: string, approver: string)
    ensures var r := Approve(rs, id, today, approver);
            && |PendingOf(r)| + |Filter(rs, WithIdAndStatus(id, Pending))| == |PendingOf(rs)|
            && |RejectedOf(r)| + |Filter(rs, WithIdAndStatus(id, Rejected))| == |RejectedOf(rs)|
            && |ApprovedOf(r)| == |ApprovedOf(rs)| + |Filter(rs, WithIdAndStatus(id, Pending))| + |Filter(rs, WithIdAndStatus(id, Rejected))|
  {
    ApprovePendingCount(rs, id, today, approver);
    ApproveRejectedCount(rs, id, today, approver);
    StatusPartition(rs);
    StatusPartition(Approve(rs, id, today, approver));
  }

  /** With unique ids, the record carrying `id` is the only one the filter can keep. */
  lemma {:induction false} UniqueIdCount(rs: seq<Achievement>, k: nat, st: Status)
    requires UniqueIds(rs) && k < |rs|
    ensures |Filter(rs, WithIdAndStatus(rs[k].id, st))| == if rs[k].status == st then 1 else 0
  {
    var id := rs[k].id;
    var rs' := rs[..|rs| - 1];
    var x := rs[|rs| - 1];
    assert rs == rs' + [x];
    FilterSnoc(rs', x, WithIdAndStatus(id, st));
    if k == |rs| - 1 {
      forall i | 0 <= i < |rs'| ensures !WithIdAndStatus(id, st)(rs'[i]) {
        assert rs'[i] == rs[i];
      }
      FilterNone(rs', WithIdAndStatus(id, st));
    } else {
      assert rs'[k] == rs[k];
      UniqueIdCount(rs', k, st);
      assert x.id != id;
    }
  }

  /** Approving a pending record, with unique ids: one fewer pending, one more approved, and
      the rejected count unchanged. */
  lemma ApprovePendingCounts(rs: seq<Achievement>, k: nat, today: string, approver: string)
    requires UniqueIds(rs) && k < |rs| && rs[k].status == Pending
    ensures var r := Approve(rs, rs[k].id, today, approver);
            && |PendingOf(r)| == |PendingOf(rs)| - 1
            && |ApprovedOf(r)| == |ApprovedOf(rs)| + 1
            && |RejectedOf(r)| == |RejectedOf(rs)|
  {
    ApproveCounts(rs, rs[k].id, today, approver);
    UniqueIdCount(rs, k, Pending);
    UniqueIdCount(rs, k, Rejected);
  }

  // A review session: the actions the pages offer, applied in turn.

  datatype Action = ApproveAction(id: string, today: string) | RejectAction(id: string)

  /** The buttons are shown only on pending records, so an action is offered only for an id
      some pending record carries. */
  predicate Offered(rs: seq<Achievement>, act: Action) {
    exists i :: 0 <= i < |rs| && rs[i].id == act.id && rs[i].status == Pending
  }

  /** One action on the list, with the approver name the page uses. */
  function Apply(rs: seq<Achievement>, act: Action, approver: string): (r: seq<Achievement>)
    ensures |r| == |rs|
  {
    match act
    case ApproveAction(id, today) => Approve(rs, id, today, approver)
    case RejectAction(id) => Reject(rs, id)
  }

  /** Applies the offered actions in turn; an action that is not offered cannot be clicked. */
  function Session(rs: seq<Achievement>, acts: seq<Action>, approver: string): (r: seq<Achievement>)
    ensures |r| == |rs|
    decreases |acts|
  {
    if acts == [] then rs
    else if Offered(rs, acts[0]) then Session(Apply(rs, acts[0], approver), acts[1..], approver)
    else Session(rs, acts[1..], approver)
  }

  /** With unique ids, an offered action changes only the pending record it was offered on. */
  lemma OfferedTouchesOnlyPending(rs: seq<Achievement>, act: Action, approver: string, i: nat)
    requires UniqueIds(rs) && Offered(rs, act)
    requires i < |rs| && rs[i].status != Pending
    ensures Apply(rs, act, approver)[i] == rs[i]
  {
    var k :| 0 <= k < |rs| && rs[k].id == act.id && rs[k].status == Pending;
    assert rs[i].id != rs[k].id by {
      assert i != k;
    }
  }

  /** A record leaves pending at most once: from the moment it is approved or rejected, no
      later action of a session changes it, and ids stay unique throughout. */
  lemma {:induction false} DecidedIsFinal(rs: seq<Achievement>, acts: seq<Action>, approver: string, i: nat)
    requires UniqueIds(rs)
    requires i < |rs| && rs[i].status != Pending
    ensures Session(rs, acts, approver)[i] == rs[i]
    decreases |acts|
  {
    if acts != [] {
      if Offered(rs, acts[0]) {
        var next := Apply(rs, acts[0], approver);
        OfferedTouchesOnlyPending(rs, acts[0], approver, i);
        if acts[0].ApproveAction? {
          ReviewKeepsIds(rs, acts[0].id, acts[0].today, approver);
        } else {
          ReviewKeepsIds(rs, acts[0].id, "", approver);
        }
        DecidedIsFinal(next, acts[1..], approver, i);
      } else {
        DecidedIsFinal(rs, acts[1..], approver, i);
      }
    }
  }

  // The search box.

  /** The lower-cased query is a substring of the lower-cased student or event name. */
  predicate MatchesSearch(a: Achievement, query: string) {
    Contains(Lower(a.studentName), Lower(query)) || Contains(Lower(a.eventName), Lower(query))
  }

  /** An empty query matches every record. */
  lemma EmptySearchMatches(a: Achievement)
    ensures MatchesSearch(a, "")
  {
    assert Lower("") == "";
    ContainsEmpty(Lower(a.studentName));
  }

  /** Upper or lower case in the query makes no difference. */
  lemma SearchIgnoresCase(a: Achievement, query: string)
    ensures MatchesSearch(a, Lower(query)) == MatchesSearch(a, query)
  {
    LowerIdempotent(query);
  }
}
