/** The achievement record type, its closed vocabularies, and the sample data set every
    page reads. */
module SampleData {
  import opened Seqs
  import opened Text

  datatype Option<T> = None | Some(value: T) {
    /** `x || default` for an optional string field. */
    function GetOr(default: T): T {
      match this
      case Some(v) => v
      case None => default
    }
  }

  datatype Status = Pending | Approved | Rejected

  datatype Category = Sports | Cultural | Technical | Academic

  /** The five competition levels. A level string outside them can still reach the pages at
      run time (the record type is not checked then), and the leaderboard gives it weight 1. */
  datatype Level = College | District | State | National | International | UnlistedLevel(name: string)

  datatype Achievement = Achievement(
    id: string,
    eventName: string,
    category: Category,
    level: Level,
    position: string,
    date: string,
    studentName: string,
    department: string,
    certificate: Option<string>,
    status: Status,
    submittedDate: string,
    approvedDate: Option<string>,
    approvedBy: Option<string>)

  /** The spelling of a status in the data and in the status filter. */
  function StatusName(s: Status): string {
    match s
    case Pending => "pending"
    case Approved => "approved"
    case Rejected => "rejected"
  }

  function CategoryName(c: Category): string {
    match c
    case Sports => "Sports"
    case Cultural => "Cultural"
    case Technical => "Technical"
    case Academic => "Academic"
  }

  function LevelName(l: Level): string {
    match l
    case College => "College"
    case District => "District"
    case State => "State"
    case National => "National"
    case International => "International"
    case UnlistedLevel(n) => n
  }

  /** The category list the charts iterate over, in this order. */
  const Categories: seq<Category> := [Sports, Cultural, Technical, Academic]

  /** The level list the charts iterate over, from least to most weighty. */
  const Levels: seq<Level> := [College, District, State, National, International]

  predicate IsListedLevel(l: Level) {
    !l.UnlistedLevel?
  }

  lemma StatusNamesDistinct(s: Status, t: Status)
    ensures StatusName(s) == StatusName(t) <==> s == t
  {
  }

  lemma CategoryNamesDistinct(c: Category, d: Category)
    ensures CategoryName(c) == CategoryName(d) <==> c == d
  {
  }

  /** Every category is in the chart list, and so is every listed level. */
  lemma VocabulariesComplete(c: Category, l: Level)
    ensures c in Categories
    ensures IsListedLevel(l) <==> l in Levels
  {
  }

  function IsApproved(a: Achievement): bool {
    a.status == Approved
  }

  function IsPending(a: Achievement): bool {
    a.status == Pending
  }

  function IsRejected(a: Achievement): bool {
    a.status == Rejected
  }

  function Id(a: Achievement): string {
    a.id
  }

  function StudentName(a: Achievement): string {
    a.studentName
  }

  function Department(a: Achievement): string {
    a.department
  }

  /** The approved records, in order: `achievements.filter(a => a.status === "approved")`. */
  function ApprovedOf(rs: seq<Achievement>): seq<Achievement> {
    Filter(rs, IsApproved)
  }

  function PendingOf(rs: seq<Achievement>): seq<Achievement> {
    Filter(rs, IsPending)
  }

  function RejectedOf(rs: seq<Achievement>): seq<Achievement> {
    Filter(rs, IsRejected)
  }

  /** The awards test of the dashboard and portfolio cards: exact and case-sensitive. */
  predicate IsExactAward(pos: string) {
    pos == "Winner" || pos == "1st Place" || pos == "Gold Medal"
  }

  predicate IsExactAwardRecord(a: Achievement) {
    IsExactAward(a.position)
  }

  /** `a => a.category === c && a.status === "approved"`. */
  function ApprovedIn(c: Category): Achievement -> bool {
    (a: Achievement) => a.status == Approved && a.category == c
  }

  /** The three status filters partition any record list. */
  lemma {:induction false} StatusPartition(rs: seq<Achievement>)
    ensures |PendingOf(rs)| + |ApprovedOf(rs)| + |RejectedOf(rs)| == |rs|
  {
    if rs != [] {
      var rs' := rs[..|rs| - 1];
      var x := rs[|rs| - 1];
      assert rs == rs' + [x];
      StatusPartition(rs');
      FilterSnoc(rs', x, IsPending);
      FilterSnoc(rs', x, IsApproved);
      FilterSnoc(rs', x, IsRejected);
    }
  }

  /** Record ids are pairwise distinct. */
  predicate UniqueIds(rs: seq<Achievement>) {
    DistinctBy(rs, Id)
  }

  /** The lifecycle invariant: approval details are present exactly on approved records. */
  predicate ApprovalFieldsConsistent(a: Achievement) {
    && (a.approvedDate.Some? <==> a.status == Approved)
    && (a.approvedBy.Some? <==> a.status == Approved)
  }

  /** Dates are `YYYY-MM-DD`, and event, submission and approval come in that order. */
  predicate DatesWellFormed(a: Achievement) {
    && IsIsoDate(a.date) && IsIsoDate(a.submittedDate)
    && StrLt(a.date, a.submittedDate)
    && (a.approvedDate.Some? ==> IsIsoDate(a.approvedDate.value) && StrLt(a.submittedDate, a.approvedDate.value))
  }

  const Record1: Achievement :=
    Achievement("1", "Cricket Tournament", Sports, State, "Winner", "2025-11-15",
      "Rahul Sharma", "Computer Science", None, Approved, "2025-11-16", Some("2025-11-18"), Some("Dr. Mehta"))

  const Record2: Achievement :=
    Achievement("2", "Coding Hackathon", Technical, National, "Runner-up", "2025-10-22",
      "Rahul Sharma", "Computer Science", None, Approved, "2025-10-23", Some("2025-10-25"), Some("Prof. Singh"))

  const Record3: Achievement :=
    Achievement("3", "Cultural Fest Dance", Cultural, District, "1st Place", "2025-09-10",
      "Rahul Sharma", "Computer Science", None, Approved, "2025-09-11", Some("2025-09-13"), Some("Dr. Mehta"))

  const Record4: Achievement :=
    Achievement("4", "Basketball Championship", Sports, College, "Winner", "2025-08-05",
      "Priya Patel", "Electronics", None, Approved, "2025-08-06", Some("2025-08-08"), Some("Prof. Singh"))

  const Record5: Achievement :=
    Achievement("5", "Web Development Contest", Technical, State, "2nd Place", "2025-07-18",
      "Priya Patel", "Electronics", None, Pending, "2025-07-19", None, None)

  const Record6: Achievement :=
    Achievement("6", "Singing Competition", Cultural, National, "Finalist", "2025-12-01",
      "Ankit Verma", "Mechanical", None, Pending, "2025-12-02", None, None)

  const Record7: Achievement :=
    Achievement("7", "Robotics Challenge", Technical, National, "Winner", "2026-01-20",
      "Rahul Sharma", "Computer Science", None, Approved, "2026-01-21", Some("2026-01-23"), Some("Dr. Mehta"))

  const Record8: Achievement :=
    Achievement("8", "Debate Competition", Cultural, State, "Runner-up", "2026-02-10",
      "Priya Patel", "Electronics", None, Rejected, "2026-02-11", None, None)

  const Record9: Achievement :=
    Achievement("9", "Science Olympiad", Academic, International, "Gold Medal", "2026-01-05",
      "Ankit Verma", "Mechanical", None, Approved, "2026-01-06", Some("2026-01-08"), Some("Prof. Singh"))

  const Record10: Achievement :=
    Achievement("10", "Chess Tournament", Sports, District, "Winner", "2026-02-15",
      "Rahul Sharma", "Computer Science", None, Pending, "2026-02-16", None, None)

  /** The sample data set, in this order. */
  const Fixture: seq<Achievement> :=
    [Record1, Record2, Record3, Record4, Record5, Record6, Record7, Record8, Record9, Record10]

  datatype StudentProfile = StudentProfile(name: string, department: string, rollNo: string, email: string, year: string)

  /** The signed-in student whose portfolio and profile pages are shown. */
  const Profile: StudentProfile :=
    StudentProfile("Rahul Sharma", "Computer Science", "CS2023042", "rahul.sharma@university.edu", "3rd Year")

  /** The fixture's ids "1".."10" are pairwise distinct. */
  lemma FixtureIdsDistinct()
    ensures UniqueIds(Fixture)
  {
  }

  /** In the fixture, approval date and approver are present exactly on approved records. */
  lemma FixtureApprovalFields()
    ensures forall i :: 0 <= i < |Fixture| ==> ApprovalFieldsConsistent(Fixture[i])
  {
  }

  lemma FixtureDates1To3()
    ensures forall i :: 0 <= i < 3 ==> DatesWellFormed(Fixture[i])
  {
  }

  lemma FixtureDates4To6()
    ensures forall i :: 3 <= i < 6 ==> DatesWellFormed(Fixture[i])
  {
  }

  lemma FixtureDates7To8()
    ensures forall i :: 6 <= i < 8 ==> DatesWellFormed(Fixture[i])
  {
  }

  lemma FixtureDates9To10()
    ensures forall i :: 8 <= i < 10 ==> DatesWellFormed(Fixture[i])
  {
  }

  /** Every fixture date is `YYYY-MM-DD`, and date < submitted < approved per record. */
  lemma FixtureDates()
    ensures forall i :: 0 <= i < |Fixture| ==> DatesWellFormed(Fixture[i])
  {
    FixtureDates1To3();
    FixtureDates4To6();
    FixtureDates7To8();
    FixtureDates9To10();
  }

  /** Filters the fixture one record at a time. */
  lemma FilterFixtureFirstHalf(p: Achievement -> bool)
    ensures Filter(Fixture[..5], p) ==
      Filter([], p)
      + (if p(Record1) then [Record1] else []) + (if p(Record2) then [Record2] else [])
      + (if p(Record3) then [Record3] else []) + (if p(Record4) then [Record4] else [])
      + (if p(Record5) then [Record5] else [])
  {
    var f := Fixture;
    assert f[..0] == [];
    FilterPrefixSnoc(f, 0, p);
    FilterPrefixSnoc(f, 1, p);
    FilterPrefixSnoc(f, 2, p);
    FilterPrefixSnoc(f, 3, p);
    FilterPrefixSnoc(f, 4, p);
  }

  lemma FilterFixture(p: Achievement -> bool)
    ensures Filter(Fixture, p) ==
      Filter([], p)
      + (if p(Record1) then [Record1] else []) + (if p(Record2) then [Record2] else [])
      + (if p(Record3) then [Record3] else []) + (if p(Record4) then [Record4] else [])
      + (if p(Record5) then [Record5] else []) + (if p(Record6) then [Record6] else [])
      + (if p(Record7) then [Record7] else []) + (if p(Record8) then [Record8] else [])
      + (if p(Record9) then [Record9] else []) + (if p(Record10) then [Record10] else [])
  {
    var f := Fixture;
    FilterFixtureFirstHalf(p);
    FilterPrefixSnoc(f, 5, p);
    FilterPrefixSnoc(f, 6, p);
    FilterPrefixSnoc(f, 7, p);
    FilterPrefixSnoc(f, 8, p);
    FilterPrefixSnoc(f, 9, p);
    assert f == f[..10];
  }

  /** The approved fixture records are 1, 2, 3, 4, 7 and 9, in that order. */
  lemma FixtureApproved()
    ensures ApprovedOf(Fixture) == [Record1, Record2, Record3, Record4, Record7, Record9]
  {
    FilterFixture(IsApproved);
  }

  /** The fixture holds ten records: six approved, three pending and one rejected. */
  lemma FixtureStatusCounts()
    ensures |Fixture| == 10
    ensures |ApprovedOf(Fixture)| == 6 && |PendingOf(Fixture)| == 3 && |RejectedOf(Fixture)| == 1
  {
    FixtureApproved();
    FilterFixture(IsPending);
    FilterFixture(IsRejected);
  }
}
