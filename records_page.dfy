/** The records page: the record list as page state, the search and the category and level
    filters, and the approve and reject handlers. */
module RecordsPage {
  import opened Seqs
  import opened Text
  import opened SampleData
  import opened Review

  /** The approver name this page writes. */
  const Approver: string := "Admin User"

  /** The search box and the category and level filters (each "All" or a value); the level
      is compared by name. */
  predicate MatchesRecordFilters(a: Achievement, search: string, catFilter: string, levelFilter: string) {
    && MatchesSearch(a, search)
    && (catFilter == "All" || CategoryName(a.category) == catFilter)
    && (levelFilter == "All" || LevelName(a.level) == levelFilter)
  }

  function RecordPredicate(search: string, catFilter: string, levelFilter: string): Achievement -> bool {
    (a: Achievement) => MatchesRecordFilters(a, search, catFilter, levelFilter)
  }

  /** The table rows: the records passing the search and both filters, in their order. */
  function FilterRecords(rs: seq<Achievement>, search: string, catFilter: string, levelFilter: string): (r: seq<Achievement>)
    ensures IsSubsequence(r, rs)
    ensures forall a :: a in r <==> a in rs && MatchesRecordFilters(a, search, catFilter, levelFilter)
    ensures forall a :: multiset(r)[a] == if MatchesRecordFilters(a, search, catFilter, levelFilter) then multiset(rs)[a] else 0
  {
    var p := RecordPredicate(search, catFilter, levelFilter);
    FilterIsSubsequence(rs, p);
    FilterElements(rs, p);
    FilterMultiplicity(rs, p);
    var r := Filter(rs, p);
    assert forall a :: a in r ==> a in multiset(rs);
    r
  }

  /** An empty search with both filters at "All" lists every record. */
  lemma FilterRecordsDefault(rs: seq<Achievement>)
    ensures FilterRecords(rs, "", "All", "All") == rs
  {
    forall i | 0 <= i < |rs| ensures RecordPredicate("", "All", "All")(rs[i]) {
      EmptySearchMatches(rs[i]);
    }
    FilterAll(rs, RecordPredicate("", "All", "All"));
  }

  /** The filter values are spelled as the enumerations are: "all" in lower case is not the
      catch-all here, so it matches no category. */
  lemma LowerCaseAllMatchesNothing(rs: seq<Achievement>)
    ensures FilterRecords(rs, "", "all", "All") == []
  {
    FilterNone(rs, RecordPredicate("", "all", "All"));
  }

  class RecordsView {
    var records: seq<Achievement>

    constructor(initial: seq<Achievement>)
      ensures records == initial
    {
      records := initial;
    }

    function Filtered(search: string, catFilter: string, levelFilter: string): seq<Achievement>
      reads this
    {
      FilterRecords(records, search, catFilter, levelFilter)
    }

    /** `handleApprove(id)`, with today's date passed in. */
    method HandleApprove(id: string, today: string)
      modifies this
      ensures records == Approve(old(records), id, today, Approver)
      ensures |records| == |old(records)|
    {
      records := Approve(records, id, today, Approver);
    }

    /** `handleReject(id)`. */
    method HandleReject(id: string)
      modifies this
      ensures records == Reject(old(records), id)
      ensures |records| == |old(records)|
    {
      records := Reject(records, id);
    }
  }
}
