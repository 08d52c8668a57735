/** The dashboard page: overview cards over all records, category and level charts over
    every status, and the five most recent submissions and approvals. */
module Dashboard {
  import opened Seqs
  import opened Text
  import opened Sorting
  import opened Grouping
  import opened SampleData

  datatype Overview = Overview(total: nat, awards: nat, participations: nat, pending: nat)

  /** The four overview cards: total, awards among approved records, approved records
      ("Participations") and pending records. */
  function Cards(records: seq<Achievement>): (o: Overview)
    ensures o.total == |records|
    ensures o.participations == |ApprovedOf(records)| && o.pending == |PendingOf(records)|
    ensures o.awards <= o.participations
    ensures o.participations + o.pending <= o.total
  {
    var approved := ApprovedOf(records);
    StatusPartition(records);
    Overview(|records|, |Filter(approved, IsExactAwardRecord)|, |approved|, |PendingOf(records)|)
  }

  /** The awards card counts exactly the approved records whose position is one of the three
      award spellings. */
  lemma AwardsAreApprovedAwards(records: seq<Achievement>)
    ensures forall a :: a in Filter(ApprovedOf(records), IsExactAwardRecord) <==>
              a in records && a.status == Approved && IsExactAward(a.position)
    ensures forall a :: multiset(Filter(ApprovedOf(records), IsExactAwardRecord))[a] ==
              if a.status == Approved && IsExactAward(a.position) then multiset(records)[a] else 0
  {
    var approved := ApprovedOf(records);
    var awards := Filter(approved, IsExactAwardRecord);
    FilterMultiplicity(records, IsApproved);
    FilterMultiplicity(approved, IsExactAwardRecord);
    forall a ensures a in awards <==> a in records && a.status == Approved && IsExactAward(a.position) {
      assert a in awards <==> a in multiset(awards);
      assert a in records <==> a in multiset(records);
    }
  }

  // Charts over every status.

  function InCategory(c: Category): Achievement -> bool {
    (a: Achievement) => a.category == c
  }

  /** `a => a.level === lv`: the level is compared by name. */
  function AtLevel(l: Level): Achievement -> bool {
    (a: Achievement) => LevelName(a.level) == LevelName(l)
  }

  /** A record whose level is none of the five chart levels. */
  predicate Uncharted(a: Achievement) {
    LevelName(a.level) !in {"College", "District", "State", "National", "International"}
  }

  /** One slice per category, in list order, counting records of every status. */
  function CategoryData(records: seq<Achievement>): (r: seq<KeyCount>)
    ensures |r| == |Categories|
    ensures forall i :: 0 <= i < |r| ==> r[i].name == CategoryName(Categories[i])
  {
    seq(|Categories|, i requires 0 <= i < |Categories| =>
      KeyCount(CategoryName(Categories[i]), |Filter(records, InCategory(Categories[i]))|))
  }

  /** One bar per level, in list order, counting records of every status. */
  function LevelData(records: seq<Achievement>): (r: seq<KeyCount>)
    ensures |r| == |Levels|
    ensures forall i :: 0 <= i < |r| ==> r[i].name == LevelName(Levels[i])
  {
    seq(|Levels|, i requires 0 <= i < |Levels| =>
      KeyCount(LevelName(Levels[i]), |Filter(records, AtLevel(Levels[i]))|))
  }

  lemma {:induction false} CategoryPartition(records: seq<Achievement>)
    ensures |Filter(records, InCategory(Sports))| + |Filter(records, InCategory(Cultural))|
          + |Filter(records, InCategory(Technical))| + |Filter(records, InCategory(Academic))|
         == |records|
  {
    if records != [] {
      var rs := records[..|records| - 1];
      var x := records[|records| - 1];
      assert records == rs + [x];
      CategoryPartition(rs);
      FilterSnoc(rs, x, InCategory(Sports));
      FilterSnoc(rs, x, InCategory(Cultural));
      FilterSnoc(rs, x, InCategory(Technical));
      FilterSnoc(rs, x, InCategory(Academic));
    }
  }

  /** Every record, whatever its status, is in exactly one category slice. */
  lemma CategoryDataSum(records: seq<Achievement>)
    ensures SumInt(CategoryData(records), CountField) == |records|
  {
    var d := CategoryData(records);
    assert d[..0] == [];
    SumIntPrefixSnoc(d, 0, CountField);
    SumIntPrefixSnoc(d, 1, CountField);
    SumIntPrefixSnoc(d, 2, CountField);
    SumIntPrefixSnoc(d, 3, CountField);
    assert d[..4] == d;
    CategoryPartition(records);
  }

  lemma {:induction false} LevelPartition(records: seq<Achievement>)
    ensures |Filter(records, AtLevel(College))| + |Filter(records, AtLevel(District))|
          + |Filter(records, AtLevel(State))| + |Filter(records, AtLevel(National))|
          + |Filter(records, AtLevel(International))| + |Filter(records, Uncharted)|
         == |records|
  {
    if records != [] {
      var rs := records[..|records| - 1];
      var x := records[|records| - 1];
      assert records == rs + [x];
      LevelPartition(rs);
      FilterSnoc(rs, x, AtLevel(College));
      FilterSnoc(rs, x, AtLevel(District));
      FilterSnoc(rs, x, AtLevel(State));
      FilterSnoc(rs, x, AtLevel(National));
      FilterSnoc(rs, x, AtLevel(International));
      FilterSnoc(rs, x, Uncharted);
    }
  }

  /** Every record with one of the five levels is in exactly one level bar; records with any
      other level string are the only ones missing. */
  lemma LevelDataSum(records: seq<Achievement>)
    ensures SumInt(LevelData(records), CountField) + |Filter(records, Uncharted)| == |records|
  {
    var d := LevelData(records);
    assert d[..0] == [];
    SumIntPrefixSnoc(d, 0, CountField);
    SumIntPrefixSnoc(d, 1, CountField);
    SumIntPrefixSnoc(d, 2, CountField);
    SumIntPrefixSnoc(d, 3, CountField);
    SumIntPrefixSnoc(d, 4, CountField);
    assert d[..5] == d;
    LevelPartition(records);
  }

  /** With only the five listed levels in the data, the level bars add up to the total. */
  lemma ListedLevelDataSum(records: seq<Achievement>)
    requires forall i :: 0 <= i < |records| ==> IsListedLevel(records[i].level)
    ensures SumInt(LevelData(records), CountField) == |records|
  {
    LevelDataSum(records);
    FilterNone(records, Uncharted);
  }

  // The recent lists.

  /** `(a, b) => b.submittedDate.localeCompare(a.submittedDate)`, compared ordinally: later
      submissions first. */
  function BySubmitted(a: Achievement, b: Achievement): bool {
    StrLe(b.submittedDate, a.submittedDate)
  }

  /** A missing approval date compares as the empty string. */
  function ApprovalKey(a: Achievement): string {
    a.approvedDate.GetOr("")
  }

  /** `(a, b) => (b.approvedDate || "").localeCompare(a.approvedDate || "")`. */
  function ByApproved(a: Achievement, b: Achievement): bool {
    StrLe(ApprovalKey(b), ApprovalKey(a))
  }

  lemma BySubmittedTotalPreorder()
    ensures TotalPreorder(BySubmitted)
  {
    forall a, b ensures BySubmitted(a, b) || BySubmitted(b, a) {
      StrLeTotal(a.submittedDate, b.submittedDate);
    }
    forall a, b, c | BySubmitted(a, b) && BySubmitted(b, c) ensures BySubmitted(a, c) {
      StrLeTransitive(c.submittedDate, b.submittedDate, a.submittedDate);
    }
  }

  lemma ByApprovedTotalPreorder()
    ensures TotalPreorder(ByApproved)
  {
    forall a, b ensures ByApproved(a, b) || ByApproved(b, a) {
      StrLeTotal(ApprovalKey(a), ApprovalKey(b));
    }
    forall a, b, c | ByApproved(a, b) && ByApproved(b, c) ensures ByApproved(a, c) {
      StrLeTransitive(ApprovalKey(c), ApprovalKey(b), ApprovalKey(a));
    }
  }

  /** The five latest submissions: a sorted copy of all records, cut to five. */
  function RecentSubmissions(records: seq<Achievement>): seq<Achievement> {
    Take(SortBy(records, BySubmitted), 5)
  }

  /** The five latest approvals among the approved records. */
  function RecentApprovals(records: seq<Achievement>): seq<Achievement> {
    Take(SortBy(ApprovedOf(records), ByApproved), 5)
  }

  /** The recent-submissions list holds min(5, n) of the records, latest first, and every
      record it leaves out was submitted no later than each one shown. */
  lemma RecentSubmissionsSpec(records: seq<Achievement>)
    ensures var r := RecentSubmissions(records);
            var left := Drop(SortBy(records, BySubmitted), 5);
            && |r| == (if |records| < 5 then |records| else 5)
            && SortedBy(r, BySubmitted)
            && multiset(r) + multiset(left) == multiset(records)
            && (forall i, j :: 0 <= i < |r| && 0 <= j < |left| ==> StrLe(left[j].submittedDate, r[i].submittedDate))
  {
    var sorted := SortBy(records, BySubmitted);
    BySubmittedTotalPreorder();
    SortBySorted(records, BySubmitted);
    TakeDominatesDrop(sorted, 5, BySubmitted);
    if 5 < |sorted| {
      assert sorted[..5] + sorted[5..] == sorted;
    } else {
      assert sorted + [] == sorted;
    }
  }

  /** Submissions with equal dates keep their order in the data. */
  lemma RecentSubmissionsStable(records: seq<Achievement>, v: Achievement)
    ensures Filter(SortBy(records, BySubmitted), Tie(BySubmitted, v)) == Filter(records, Tie(BySubmitted, v))
  {
    BySubmittedTotalPreorder();
    SortByStable(records, BySubmitted, v);
  }

  /** The recent-approvals list holds at most five approved records, latest approval first,
      and leaves out none dated later than one it shows. */
  lemma RecentApprovalsSpec(records: seq<Achievement>)
    ensures var r := RecentApprovals(records);
            var left := Drop(SortBy(ApprovedOf(records), ByApproved), 5);
            && |r| <= 5
            && (forall i :: 0 <= i < |r| ==> r[i] in records && r[i].status == Approved)
            && SortedBy(r, ByApproved)
            && multiset(r) + multiset(left) == multiset(ApprovedOf(records))
            && (forall i, j :: 0 <= i < |r| && 0 <= j < |left| ==> StrLe(ApprovalKey(left[j]), ApprovalKey(r[i])))
  {
    var approved := ApprovedOf(records);
    var sorted := SortBy(approved, ByApproved);
    var r := RecentApprovals(records);
    assert SortedBy(sorted, ByApproved) by {
      ByApprovedTotalPreorder();
      SortBySorted(approved, ByApproved);
    }
    TakeDominatesDrop(sorted, 5, ByApproved);
    assert r + Drop(sorted, 5) == sorted by {
      if 5 < |sorted| {
        assert sorted[..5] + sorted[5..] == sorted;
      } else {
        assert sorted + [] == sorted;
      }
    }
    assert multiset(r) + multiset(Drop(sorted, 5)) == multiset(approved) by {
      assert multiset(r + Drop(sorted, 5)) == multiset(r) + multiset(Drop(sorted, 5));
    }
    forall i | 0 <= i < |r| ensures r[i] in records && r[i].status == Approved {
      assert r[i] == sorted[i];
      ApprovedMember(records, r[i]);
    }
  }

  /** An element of the sorted approved records is an approved record. */
  lemma ApprovedMember(records: seq<Achievement>, a: Achievement)
    requires a in multiset(SortBy(ApprovedOf(records), ByApproved))
    ensures a in records && a.status == Approved
  {
    var approved := ApprovedOf(records);
    FilterElements(records, IsApproved);
    assert a in multiset(approved);
    var k :| 0 <= k < |approved| && approved[k] == a;
    assert a in multiset(records);
  }

  /** A record without an approval date sorts behind every dated one: whatever follows it has
      no date either, or an empty one. */
  lemma MissingApprovalDateSortsLast(records: seq<Achievement>, i: nat, j: nat)
    requires i < j < |RecentApprovals(records)|
    requires RecentApprovals(records)[i].approvedDate.None?
    ensures ApprovalKey(RecentApprovals(records)[j]) == ""
  {
    RecentApprovalsSpec(records);
    var r := RecentApprovals(records);
    assert StrLe(ApprovalKey(r[j]), "");
    EmptyIsLeast(ApprovalKey(r[j]));
    StrLeAntisymmetric(ApprovalKey(r[j]), "");
  }
}
