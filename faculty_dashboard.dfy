/** The faculty review page: the submissions list as page state, its status tabs, the
    filtered table, and the approve and reject handlers. */
module FacultyDashboard {
  import opened Seqs
  import opened Text
  import opened SampleData
  import opened Review

  /** The approver name this page writes. */
  const Approver: string := "Admin"

  /** The status filter, the category filter (each "all" or a value) and the search box. */
  predicate MatchesFilters(a: Achievement, statusFilter: string, categoryFilter: string, query: string) {
    && (statusFilter == "all" || StatusName(a.status) == statusFilter)
    && (categoryFilter == "all" || CategoryName(a.category) == categoryFilter)
    && MatchesSearch(a, query)
  }

  function FilterPredicate(statusFilter: string, categoryFilter: string, query: string): Achievement -> bool {
    (a: Achievement) => MatchesFilters(a, statusFilter, categoryFilter, query)
  }

  /** The table rows: the submissions passing all three filters, in their order. */
  function FilterSubmissions(rs: seq<Achievement>, statusFilter: string, categoryFilter: string, query: string): (r: seq<Achievement>)
    ensures IsSubsequence(r, rs)
    ensures forall a :: a in r <==> a in rs && MatchesFilters(a, statusFilter, categoryFilter, query)
    ensures forall a :: multiset(r)[a] == if MatchesFilters(a, statusFilter, categoryFilter, query) then multiset(rs)[a] else 0
  {
    var p := FilterPredicate(statusFilter, categoryFilter, query);
    FilterIsSubsequence(rs, p);
    FilterElements(rs, p);
    FilterMultiplicity(rs, p);
    var r := Filter(rs, p);
    assert forall a :: a in r ==> a in multiset(rs);
    r
  }

  /** With both filters at "all" and an empty search, every submission is listed. */
  lemma FilterSubmissionsDefault(rs: seq<Achievement>)
    ensures FilterSubmissions(rs, "all", "all", "") == rs
  {
    forall i | 0 <= i < |rs| ensures FilterPredicate("all", "all", "")(rs[i]) {
      EmptySearchMatches(rs[i]);
    }
    FilterAll(rs, FilterPredicate("all", "all", ""));
  }

  /** The status filter alone gives the matching status tab. */
  lemma StatusFilterIsTab(rs: seq<Achievement>)
    ensures FilterSubmissions(rs, "pending", "all", "") == PendingOf(rs)
    ensures FilterSubmissions(rs, "approved", "all", "") == ApprovedOf(rs)
    ensures FilterSubmissions(rs, "rejected", "all", "") == RejectedOf(rs)
  {
    forall a: Achievement ensures MatchesSearch(a, "") {
      EmptySearchMatches(a);
    }
    FilterSame(rs, FilterPredicate("pending", "all", ""), IsPending);
    FilterSame(rs, FilterPredicate("approved", "all", ""), IsApproved);
    FilterSame(rs, FilterPredicate("rejected", "all", ""), IsRejected);
  }

  class FacultyDashboardPage {
    var submissions: seq<Achievement>

    /** The page starts from the sample records. */
    constructor(initial: seq<Achievement>)
      ensures submissions == initial
    {
      submissions := initial;
    }

    function PendingTab(): seq<Achievement>
      reads this
    {
      PendingOf(submissions)
    }

    function ApprovedTab(): seq<Achievement>
      reads this
    {
      ApprovedOf(submissions)
    }

    function RejectedTab(): seq<Achievement>
      reads this
    {
      RejectedOf(submissions)
    }

    /** The pending, approved and rejected counts add up to the number of submissions. */
    lemma TabsPartition()
      ensures |PendingTab()| + |ApprovedTab()| + |RejectedTab()| == |submissions|
    {
      StatusPartition(submissions);
    }

    function FilteredSubmissions(statusFilter: string, categoryFilter: string, query: string): seq<Achievement>
      reads this
    {
      FilterSubmissions(submissions, statusFilter, categoryFilter, query)
    }

    /** `handleApprove(id)`, with today's date passed in. */
    method HandleApprove(id: string, today: string)
      modifies this
      ensures submissions == Approve(old(submissions), id, today, Approver)
      ensures |submissions| == |old(submissions)|
    {
      submissions := Approve(submissions, id, today, Approver);
    }

    /** `handleReject(id)`. */
    method HandleReject(id: string)
      modifies this
      ensures submissions == Reject(old(submissions), id)
      ensures |submissions| == |old(submissions)|
    {
      submissions := Reject(submissions, id);
    }
  }
}
