/** The notification feed: notifications derived from the records, newest first, and the
    page's mark-as-read, mark-all-as-read, delete and filter operations. */
module Notifications {
  import opened Seqs
  import opened Text
  import opened Sorting
  import opened SampleData

  datatype NotificationType = ApprovalNote | RejectionNote | SubmissionNote | InfoNote

  /** The spelling of a type in the data and in the filter tabs. */
  function TypeName(t: NotificationType): string {
    match t
    case ApprovalNote => "approval"
    case RejectionNote => "rejection"
    case SubmissionNote => "submission"
    case InfoNote => "info"
  }

  datatype Notification = Notification(
    id: string,
    kind: NotificationType,
    title: string,
    message: string,
    timestamp: string,
    read: bool,
    achievementId: Option<string>)

  // Generating the feed. The read flag of each derived notification comes from
  // `Math.random() > 0.5`; here `coin(k)` is the flag of the k-th notification pushed.

  function Submitted(a: Achievement, read: bool): Notification {
    Notification("submission-" + a.id, SubmissionNote, "New Achievement Submitted",
      a.studentName + " submitted \"" + a.eventName + "\" for " + CategoryName(a.category),
      a.submittedDate, read, Some(a.id))
  }

  /** An absent approver prints as "undefined" in the message. */
  function ApprovedNote(a: Achievement, date: string, read: bool): Notification {
    Notification("approval-" + a.id, ApprovalNote, "Achievement Approved",
      "\"" + a.eventName + "\" by " + a.studentName + " has been approved by " + a.approvedBy.GetOr("undefined"),
      date, read, Some(a.id))
  }

  function RejectedNote(a: Achievement, read: bool): Notification {
    Notification("rejection-" + a.id, RejectionNote, "Achievement Rejected",
      "\"" + a.eventName + "\" by " + a.studentName + " was not approved",
      a.submittedDate, read, Some(a.id))
  }

  const SystemUpdate: Notification :=
    Notification("info-1", InfoNote, "System Update",
      "New features have been added to the achievement management system", "2026-01-15", false, None)

  const Reminder: Notification :=
    Notification("info-2", InfoNote, "Reminder",
      "Don't forget to verify your achievements before the end of the semester", "2026-01-10", true, None)

  /** An approved record with a truthy approval date gets an approval notification: an absent
      date and the empty string both fail the test. */
  predicate ApprovedWithDate(a: Achievement) {
    a.status == Approved && a.approvedDate.Some? && a.approvedDate.value != ""
  }

  /** What one record pushes, the first of it being the k-th push. */
  function NotesFor(a: Achievement, coin: nat -> bool, k: nat): seq<Notification> {
    [Submitted(a, coin(k))]
    + (if ApprovedWithDate(a) then [ApprovedNote(a, a.approvedDate.value, coin(k + 1))]
       else if a.status == Rejected then [RejectedNote(a, coin(k + 1))]
       else [])
  }

  /** The notifications the records push, in push order. */
  function RecordNotes(rs: seq<Achievement>, coin: nat -> bool): seq<Notification> {
    if rs == [] then []
    else
      var pre := RecordNotes(rs[..|rs| - 1], coin);
      pre + NotesFor(rs[|rs| - 1], coin, |pre|)
  }

  /** The whole list before sorting: the records' notifications and the two info ones. */
  function Feed(rs: seq<Achievement>, coin: nat -> bool): seq<Notification> {
    RecordNotes(rs, coin) + [SystemUpdate, Reminder]
  }

  /** `(a, b) => b.timestamp.localeCompare(a.timestamp)`, compared ordinally: newest first. */
  function ByTimestamp(a: Notification, b: Notification): bool {
    StrLe(b.timestamp, a.timestamp)
  }

  lemma ByTimestampTotalPreorder()
    ensures TotalPreorder(ByTimestamp)
  {
    forall a, b ensures ByTimestamp(a, b) || ByTimestamp(b, a) {
      StrLeTotal(a.timestamp, b.timestamp);
    }
    forall a, b, c | ByTimestamp(a, b) && ByTimestamp(b, c) ensures ByTimestamp(a, c) {
      StrLeTransitive(c.timestamp, b.timestamp, a.timestamp);
    }
  }

  lemma RecordNotesPrefixSnoc(rs: seq<Achievement>, coin: nat -> bool, i: nat)
    requires i < |rs|
    ensures RecordNotes(rs[..i + 1], coin)
         == RecordNotes(rs[..i], coin) + NotesFor(rs[i], coin, |RecordNotes(rs[..i], coin)|)
  {
    assert rs[..i + 1][..i] == rs[..i];
  }

  /** `generateNotifications`: one push loop over the records, two info notifications, then
      a sort by timestamp. */
  method GenerateNotifications(rs: seq<Achievement>, coin: nat -> bool) returns (ns: seq<Notification>)
    ensures ns == SortBy(Feed(rs, coin), ByTimestamp)
  {
    ns := [];
    var i := 0;
    while i < |rs|
      invariant i <= |rs|
      invariant ns == RecordNotes(rs[..i], coin)
    {
      RecordNotesPrefixSnoc(rs, coin, i);
      ns := PushFor(ns, rs[i], coin);
      i := i + 1;
    }
    assert rs[..i] == rs;
    ghost var pushed := ns;
    ns := ns + [SystemUpdate];
    ns := ns + [Reminder];
    assert ns == pushed + [SystemUpdate, Reminder];
    ns := SortBy(ns, ByTimestamp);
  }

  /** The loop body for one record: the submission notification and then, as the status
      says, an approval or a rejection one. */
  method PushFor(ns0: seq<Notification>, a: Achievement, coin: nat -> bool) returns (ns: seq<Notification>)
    ensures ns == ns0 + NotesFor(a, coin, |ns0|)
  {
    ns := ns0 + [Submitted(a, coin(|ns0|))];
    if ApprovedWithDate(a) {
      ns := ns + [ApprovedNote(a, a.approvedDate.value, coin(|ns|))];
    } else if a.status == Rejected {
      ns := ns + [RejectedNote(a, coin(|ns|))];
    }
  }

  /** One submission notification per record, one approval notification per approved record
      with a non-empty date, one rejection notification per rejected record, and two info ones. */
  lemma {:induction false} RecordNotesLength(rs: seq<Achievement>, coin: nat -> bool)
    ensures |RecordNotes(rs, coin)| == |rs| + |Filter(rs, ApprovedWithDate)| + |RejectedOf(rs)|
  {
    if rs != [] {
      var rs' := rs[..|rs| - 1];
      var x := rs[|rs| - 1];
      assert rs == rs' + [x];
      RecordNotesLength(rs', coin);
      FilterSnoc(rs', x, ApprovedWithDate);
      FilterSnoc(rs', x, IsRejected);
    }
  }

  lemma FeedLength(rs: seq<Achievement>, coin: nat -> bool)
    ensures |SortBy(Feed(rs, coin), ByTimestamp)| == |rs| + |Filter(rs, ApprovedWithDate)| + |RejectedOf(rs)| + 2
  {
    RecordNotesLength(rs, coin);
  }

  /** The feed is newest first. */
  lemma FeedSorted(rs: seq<Achievement>, coin: nat -> bool)
    ensures SortedBy(SortBy(Feed(rs, coin), ByTimestamp), ByTimestamp)
  {
    ByTimestampTotalPreorder();
    SortBySorted(Feed(rs, coin), ByTimestamp);
  }

  /** The notification facts about one record: its submission, then an approval or a
      rejection notification as its status says. */
  predicate NotesDescribe(ns: seq<Notification>, a: Achievement) {
    && |ns| >= 1
    && ns[0].id == "submission-" + a.id && ns[0].kind == SubmissionNote
    && ns[0].timestamp == a.submittedDate && ns[0].achievementId == Some(a.id)
    && (ApprovedWithDate(a) ==>
          |ns| == 2 && ns[1].id == "approval-" + a.id && ns[1].kind == ApprovalNote
          && ns[1].timestamp == a.approvedDate.value && ns[1].achievementId == Some(a.id))
    && (a.status == Rejected ==>
          |ns| == 2 && ns[1].id == "rejection-" + a.id && ns[1].kind == RejectionNote
          && ns[1].timestamp == a.submittedDate && ns[1].achievementId == Some(a.id))
    && (a.status == Pending || (a.status == Approved && (a.approvedDate.None? || a.approvedDate == Some(""))) ==> |ns| == 1)
  }

  lemma NotesForDescribe(a: Achievement, coin: nat -> bool, k: nat)
    ensures NotesDescribe(NotesFor(a, coin, k), a)
  {
  }

  /** The push loop's notifications are the records' notifications laid end to end: the ones
      for record `j` sit at `start`, after everything the earlier records pushed. */
  lemma {:induction false} RecordNotesAt(rs: seq<Achievement>, coin: nat -> bool, j: nat)
    requires j < |rs|
    ensures var start := |RecordNotes(rs[..j], coin)|;
            var own := NotesFor(rs[j], coin, start);
            start + |own| <= |RecordNotes(rs, coin)|
            && RecordNotes(rs, coin)[start..start + |own|] == own
  {
    if j < |rs| - 1 {
      RecordNotesAt(rs[..|rs| - 1], coin, j);
      RecordNotesExtend(rs, coin, j);
    } else {
      RecordNotesLast(rs, coin);
    }
  }

  /** An earlier record's notifications stay where they were once the last record pushes. */
  lemma RecordNotesExtend(rs: seq<Achievement>, coin: nat -> bool, j: nat)
    requires j < |rs| - 1
    requires var start := |RecordNotes(rs[..|rs| - 1][..j], coin)|;
             var own := NotesFor(rs[..|rs| - 1][j], coin, start);
             start + |own| <= |RecordNotes(rs[..|rs| - 1], coin)|
             && RecordNotes(rs[..|rs| - 1], coin)[start..start + |own|] == own
    ensures var start := |RecordNotes(rs[..j], coin)|;
            var own := NotesFor(rs[j], coin, start);
            start + |own| <= |RecordNotes(rs, coin)|
            && RecordNotes(rs, coin)[start..start + |own|] == own
  {
    var rs' := rs[..|rs| - 1];
    var pre := RecordNotes(rs', coin);
    assert rs'[..j] == rs[..j];
    assert rs'[j] == rs[j];
    var start := |RecordNotes(rs[..j], coin)|;
    var own := NotesFor(rs[j], coin, start);
    var last := NotesFor(rs[|rs| - 1], coin, |pre|);
    assert RecordNotes(rs, coin) == pre + last;
    SliceAppendLeft(pre, last, start, |own|);
  }

  /** The last record's notifications close the list. */
  lemma RecordNotesLast(rs: seq<Achievement>, coin: nat -> bool)
    requires rs != []
    ensures var start := |RecordNotes(rs[..|rs| - 1], coin)|;
            var own := NotesFor(rs[|rs| - 1], coin, start);
            start + |own| == |RecordNotes(rs, coin)|
            && RecordNotes(rs, coin)[start..] == own
  {
    var pre := RecordNotes(rs[..|rs| - 1], coin);
    var last := NotesFor(rs[|rs| - 1], coin, |pre|);
    assert RecordNotes(rs, coin) == pre + last;
    SliceAppendRight(pre, last);
  }

  /** Every record's notifications, as its status says, are in the sorted feed. */
  lemma FeedDescribesRecord(rs: seq<Achievement>, coin: nat -> bool, j: nat)
    requires j < |rs|
    ensures var own := NotesFor(rs[j], coin, |RecordNotes(rs[..j], coin)|);
            NotesDescribe(own, rs[j]) && forall n :: n in own ==> n in SortBy(Feed(rs, coin), ByTimestamp)
  {
    var own := NotesFor(rs[j], coin, |RecordNotes(rs[..j], coin)|);
    NotesForDescribe(rs[j], coin, |RecordNotes(rs[..j], coin)|);
    OwnNotesPushed(rs, coin, j);
    forall n | n in own ensures n in SortBy(Feed(rs, coin), ByTimestamp) {
      InSortedFeed(rs, coin, n);
    }
  }

  /** A record's own notifications are among those the loop pushes. */
  lemma OwnNotesPushed(rs: seq<Achievement>, coin: nat -> bool, j: nat)
    requires j < |rs|
    ensures forall n :: n in NotesFor(rs[j], coin, |RecordNotes(rs[..j], coin)|) ==> n in RecordNotes(rs, coin)
  {
    var start := |RecordNotes(rs[..j], coin)|;
    var own := NotesFor(rs[j], coin, start);
    var all := RecordNotes(rs, coin);
    assert start + |own| <= |all| && all[start..start + |own|] == own by {
      RecordNotesAt(rs, coin, j);
    }
    SliceMembers(all, start, start + |own|);
  }

  /** A record notification survives the sort. */
  lemma InSortedFeed(rs: seq<Achievement>, coin: nat -> bool, n: Notification)
    requires n in RecordNotes(rs, coin)
    ensures n in SortBy(Feed(rs, coin), ByTimestamp)
  {
    var feed := Feed(rs, coin);
    assert n in feed;
    assert n in multiset(feed);
  }

  /** Every notification a record pushes refers to that record. */
  lemma NotesForRefer(a: Achievement, coin: nat -> bool, k: nat)
    ensures forall n :: n in NotesFor(a, coin, k) ==> n.achievementId == Some(a.id)
  {
  }

  /** A notification the push loop made belongs to some record. */
  lemma {:induction false} RecordNotesFromRecords(rs: seq<Achievement>, coin: nat -> bool, n: Notification)
    requires n in RecordNotes(rs, coin)
    ensures exists j :: 0 <= j < |rs| && n.achievementId == Some(rs[j].id) && n in NotesFor(rs[j], coin, |RecordNotes(rs[..j], coin)|)
  {
    var rs' := rs[..|rs| - 1];
    var x := rs[|rs| - 1];
    var pre := RecordNotes(rs', coin);
    var own := NotesFor(x, coin, |pre|);
    assert RecordNotes(rs, coin) == pre + own;
    if n in own {
      NotesForRefer(x, coin, |pre|);
      assert rs[..|rs| - 1] == rs';
    } else {
      assert n in pre;
      RecordNotesFromRecords(rs', coin, n);
      var j :| 0 <= j < |rs'| && n.achievementId == Some(rs'[j].id) && n in NotesFor(rs'[j], coin, |RecordNotes(rs'[..j], coin)|);
      assert rs'[..j] == rs[..j];
      assert rs'[j] == rs[j];
    }
  }

  /** A notification of the sorted feed that refers to a record was pushed by the loop. */
  lemma FeedNoteFromRecords(rs: seq<Achievement>, coin: nat -> bool, n: Notification)
    requires n in SortBy(Feed(rs, coin), ByTimestamp) && n.achievementId.Some?
    ensures n in RecordNotes(rs, coin)
  {
    var feed := Feed(rs, coin);
    assert n in multiset(SortBy(feed, ByTimestamp));
    assert n in feed;
  }

  /** With unique ids, a pending record has its submission notification and no other. */
  lemma PendingHasOnlySubmission(rs: seq<Achievement>, coin: nat -> bool, j: nat, n: Notification)
    requires UniqueIds(rs) && j < |rs| && rs[j].status == Pending
    requires n in SortBy(Feed(rs, coin), ByTimestamp) && n.achievementId == Some(rs[j].id)
    ensures n.kind == SubmissionNote && n.id == "submission-" + rs[j].id
  {
    FeedNoteFromRecords(rs, coin, n);
    RecordNotesFromRecords(rs, coin, n);
    var k :| 0 <= k < |rs| && n.achievementId == Some(rs[k].id) && n in NotesFor(rs[k], coin, |RecordNotes(rs[..k], coin)|);
    assert k == j;
    PendingNotes(rs[j], coin, |RecordNotes(rs[..j], coin)|);
  }

  /** A pending record pushes its submission notification only. */
  lemma PendingNotes(a: Achievement, coin: nat -> bool, k: nat)
    requires a.status == Pending
    ensures forall n :: n in NotesFor(a, coin, k) ==> n.kind == SubmissionNote && n.id == "submission-" + a.id
  {
    assert NotesFor(a, coin, k) == [Submitted(a, coin(k))];
  }

  /** An approved record whose approval date is absent or empty pushes its submission
      notification only: the date test is on truthiness. */
  lemma UndatedApprovalNotes(a: Achievement, coin: nat -> bool, k: nat)
    requires a.status == Approved && (a.approvedDate.None? || a.approvedDate == Some(""))
    ensures |NotesFor(a, coin, k)| == 1
    ensures forall n :: n in NotesFor(a, coin, k) ==> n.kind == SubmissionNote && n.id == "submission-" + a.id
  {
    assert NotesFor(a, coin, k) == [Submitted(a, coin(k))];
  }

  // The page's operations.

  function IsUnread(n: Notification): bool {
    !n.read
  }

  function UnreadCount(ns: seq<Notification>): nat {
    |Filter(ns, IsUnread)|
  }

  /** `ns.map(n => n.id === id ? { ...n, read: true } : n)`. */
  function MarkRead(ns: seq<Notification>, id: string): (r: seq<Notification>)
    ensures |r| == |ns|
  {
    seq(|ns|, i requires 0 <= i < |ns| => if ns[i].id == id then ns[i].(read := true) else ns[i])
  }

  /** `ns.map(n => ({ ...n, read: true }))`. */
  function MarkAllRead(ns: seq<Notification>): (r: seq<Notification>)
    ensures |r| == |ns|
  {
    seq(|ns|, i requires 0 <= i < |ns| => ns[i].(read := true))
  }

  function NotId(id: string): Notification -> bool {
    (n: Notification) => n.id != id
  }

  /** `ns.filter(n => n.id !== id)`. */
  function DeleteById(ns: seq<Notification>, id: string): seq<Notification> {
    Filter(ns, NotId(id))
  }

  function OfType(filter: string): Notification -> bool {
    (n: Notification) => TypeName(n.kind) == filter
  }

  /** The filter tabs: "all", "unread", or one notification type. */
  function FilterNotifications(ns: seq<Notification>, filter: string): seq<Notification> {
    if filter == "all" then ns
    else if filter == "unread" then Filter(ns, IsUnread)
    else Filter(ns, OfType(filter))
  }

  /** Marking one id read keeps the order and changes only the read flag of the
      notifications with that id; it never adds unread ones and doing it twice is doing it
      once. */
  lemma MarkReadSpec(ns: seq<Notification>, id: string)
    ensures forall i :: 0 <= i < |ns| ==>
              MarkRead(ns, id)[i] == (if ns[i].id == id then ns[i].(read := true) else ns[i])
    ensures MarkRead(MarkRead(ns, id), id) == MarkRead(ns, id)
    ensures forall i :: 0 <= i < |ns| && ns[i].id == id ==> MarkRead(ns, id)[i].read
    ensures UnreadCount(MarkRead(ns, id)) <= UnreadCount(ns)
  {
    MarkReadUnread(ns, id);
  }

  lemma {:induction false} MarkReadUnread(ns: seq<Notification>, id: string)
    ensures UnreadCount(MarkRead(ns, id)) <= UnreadCount(ns)
  {
    if ns != [] {
      var ns' := ns[..|ns| - 1];
      var x := ns[|ns| - 1];
      MarkReadUnread(ns', id);
      assert MarkRead(ns, id) == MarkRead(ns', id) + [if x.id == id then x.(read := true) else x];
      assert ns == ns' + [x];
      FilterSnoc(MarkRead(ns', id), if x.id == id then x.(read := true) else x, IsUnread);
      FilterSnoc(ns', x, IsUnread);
    }
  }

  /** Marking all read keeps every notification in place with only its flag set, and leaves
      nothing unread. */
  lemma MarkAllReadSpec(ns: seq<Notification>)
    ensures forall i :: 0 <= i < |ns| ==> MarkAllRead(ns)[i] == ns[i].(read := true)
    ensures UnreadCount(MarkAllRead(ns)) == 0
  {
    FilterNone(MarkAllRead(ns), IsUnread);
  }

  /** Deleting removes exactly the notifications with that id and keeps the others in order. */
  lemma DeleteSpec(ns: seq<Notification>, id: string)
    ensures IsSubsequence(DeleteById(ns, id), ns)
    ensures forall n :: n in DeleteById(ns, id) <==> n in ns && n.id != id
    ensures |DeleteById(ns, id)| + |Filter(ns, (n: Notification) => n.id == id)| == |ns|
  {
    FilterIsSubsequence(ns, NotId(id));
    FilterElements(ns, NotId(id));
    assert forall n :: n in DeleteById(ns, id) ==> n in multiset(ns);
    DeleteCount(ns, id);
  }

  lemma {:induction false} DeleteCount(ns: seq<Notification>, id: string)
    ensures |Filter(ns, NotId(id))| + |Filter(ns, (n: Notification) => n.id == id)| == |ns|
  {
    if ns != [] {
      var ns' := ns[..|ns| - 1];
      var x := ns[|ns| - 1];
      assert ns == ns' + [x];
      DeleteCount(ns', id);
      FilterSnoc(ns', x, NotId(id));
      FilterSnoc(ns', x, (n: Notification) => n.id == id);
    }
  }

  /** "all" lists everything. */
  lemma FilterAllTab(ns: seq<Notification>)
    ensures FilterNotifications(ns, "all") == ns
  {
  }

  /** "unread" lists the unread notifications, in order. */
  lemma FilterUnreadTab(ns: seq<Notification>)
    ensures IsSubsequence(FilterNotifications(ns, "unread"), ns)
    ensures forall n :: n in FilterNotifications(ns, "unread") <==> n in ns && !n.read
    ensures forall n :: multiset(FilterNotifications(ns, "unread"))[n] == if !n.read then multiset(ns)[n] else 0
  {
    FilterMultiplicity(ns, IsUnread);
    FilterIsSubsequence(ns, IsUnread);
    FilterElements(ns, IsUnread);
    assert forall n :: n in Filter(ns, IsUnread) ==> n in multiset(ns);
  }

  /** Any other value lists the notifications of the type spelled that way, in order. */
  lemma FilterTypeTab(ns: seq<Notification>, filter: string)
    requires filter != "all" && filter != "unread"
    ensures IsSubsequence(FilterNotifications(ns, filter), ns)
    ensures forall n :: n in FilterNotifications(ns, filter) <==> n in ns && TypeName(n.kind) == filter
    ensures forall n :: multiset(FilterNotifications(ns, filter))[n] == if TypeName(n.kind) == filter then multiset(ns)[n] else 0
  {
    FilterMultiplicity(ns, OfType(filter));
    FilterIsSubsequence(ns, OfType(filter));
    FilterElements(ns, OfType(filter));
    assert forall n :: n in Filter(ns, OfType(filter)) ==> n in multiset(ns);
  }

  /** The notifications page state. */
  class NotificationCenter {
    var notifications: seq<Notification>

    /** The page starts from the generated feed. */
    constructor(rs: seq<Achievement>, coin: nat -> bool)
      ensures notifications == SortBy(Feed(rs, coin), ByTimestamp)
    {
      var generated := GenerateNotifications(rs, coin);
      notifications := generated;
    }

    function Unread(): nat
      reads this
    {
      UnreadCount(notifications)
    }

    function Filtered(filter: string): seq<Notification>
      reads this
    {
      FilterNotifications(notifications, filter)
    }

    method MarkAsRead(id: string)
      modifies this
      ensures notifications == MarkRead(old(notifications), id)
      ensures Unread() <= old(Unread())
    {
      MarkReadUnread(notifications, id);
      notifications := MarkRead(notifications, id);
    }

    method MarkAllAsRead()
      modifies this
      ensures notifications == MarkAllRead(old(notifications))
      ensures Unread() == 0
    {
      MarkAllReadSpec(notifications);
      notifications := MarkAllRead(notifications);
    }

    method DeleteNotification(id: string)
      modifies this
      ensures notifications == DeleteById(old(notifications), id)
      ensures forall n :: n in notifications <==> n in old(notifications) && n.id != id
    {
      DeleteSpec(notifications, id);
      notifications := DeleteById(notifications, id);
    }
  }
}
