/** The leaderboard: points per approved record, one entry per student, ranked by points. */
module Leaderboard {
  import opened Seqs
  import opened Text
  import opened Sorting
  import opened Grouping
  import opened SampleData

  /** Base points of a lower-cased position: the first keyword group that matches wins. */
  function BasePoints(pos: string): real {
    if Contains(pos, "winner") || Contains(pos, "1st") || Contains(pos, "gold") then 10.0
    else if Contains(pos, "2nd") || Contains(pos, "silver") then 7.0
    else if Contains(pos, "3rd") || Contains(pos, "bronze") then 5.0
    else if Contains(pos, "finalist") || Contains(pos, "runner") then 3.0
    else 1.0
  }

  /** The level weight table, looked up by the level's string; a string outside it weighs 1. */
  function LevelMultiplier(l: Level): real {
    var n := LevelName(l);
    if n == "College" then 1.0
    else if n == "District" then 1.5
    else if n == "State" then 2.0
    else if n == "National" then 3.0
    else if n == "International" then 5.0
    else 1.0
  }

  /** A lower-cased position that counts as an award: first or second place. */
  predicate IsAward(pos: string) {
    Contains(pos, "winner") || Contains(pos, "1st") || Contains(pos, "gold")
    || Contains(pos, "2nd") || Contains(pos, "silver")
  }

  /** Base points weighted by the level. */
  function Weighted(positionPoints: real, l: Level): real {
    positionPoints * LevelMultiplier(l)
  }

  /** What one approved record adds to its student's points. */
  function Score(a: Achievement): real {
    Weighted(BasePoints(Lower(a.position)), a.level)
  }

  predicate IsAwardRecord(a: Achievement) {
    IsAward(Lower(a.position))
  }

  /** A keyword group of the point table and the points it gives. */
  datatype Tier = Tier(keywords: seq<string>, points: real)

  /** The point table in matching order. */
  const PointTiers: seq<Tier> := [
    Tier(["winner", "1st", "gold"], 10.0),
    Tier(["2nd", "silver"], 7.0),
    Tier(["3rd", "bronze"], 5.0),
    Tier(["finalist", "runner"], 3.0)
  ]

  /** Some keyword of the group occurs in `pos`. */
  predicate MatchesAny(pos: string, keywords: seq<string>) {
    keywords != [] && (Contains(pos, keywords[0]) || MatchesAny(pos, keywords[1..]))
  }

  /** Reference reading of the point table: the points of the first matching group, else 1. */
  function FirstMatch(pos: string, tiers: seq<Tier>): real {
    if tiers == [] then 1.0
    else if MatchesAny(pos, tiers[0].keywords) then tiers[0].points
    else FirstMatch(pos, tiers[1..])
  }

  /** The chain of tests is the point table read top to bottom. */
  lemma BasePointsIsFirstMatch(pos: string)
    ensures BasePoints(pos) == FirstMatch(pos, PointTiers)
  {
    var t0 := PointTiers;
    var t1, t2, t3 := t0[1..], t0[2..], t0[3..];
    assert t0[0] == Tier(["winner", "1st", "gold"], 10.0);
    assert t1[0] == Tier(["2nd", "silver"], 7.0);
    assert t2[0] == Tier(["3rd", "bronze"], 5.0);
    assert t3[0] == Tier(["finalist", "runner"], 3.0);
    assert t0[1..] == t1 && t1[1..] == t2 && t2[1..] == t3 && t3[1..] == [];
    MatchesAnyPair(pos, "1st", "gold");
    assert ["winner", "1st", "gold"][1..] == ["1st", "gold"];
    assert MatchesAny(pos, t0[0].keywords) <==> Contains(pos, "winner") || Contains(pos, "1st") || Contains(pos, "gold");
    MatchesAnyPair(pos, "2nd", "silver");
    MatchesAnyPair(pos, "3rd", "bronze");
    MatchesAnyPair(pos, "finalist", "runner");
    assert FirstMatch(pos, t3) == if MatchesAny(pos, t3[0].keywords) then 3.0 else FirstMatch(pos, []);
    assert FirstMatch(pos, t2) == if MatchesAny(pos, t2[0].keywords) then 5.0 else FirstMatch(pos, t3);
    assert FirstMatch(pos, t1) == if MatchesAny(pos, t1[0].keywords) then 7.0 else FirstMatch(pos, t2);
    assert FirstMatch(pos, t0) == if MatchesAny(pos, t0[0].keywords) then 10.0 else FirstMatch(pos, t1);
  }

  lemma MatchesAnyPair(pos: string, a: string, b: string)
    ensures MatchesAny(pos, [a, b]) <==> Contains(pos, a) || Contains(pos, b)
  {
    assert [a, b][1..] == [b] && [b][1..] == [];
    assert !MatchesAny(pos, []);
    assert MatchesAny(pos, [b]) <==> Contains(pos, b);
  }

  /** A position is an award exactly when it is worth 7 base points or more. */
  lemma AwardIffHighPoints(pos: string)
    ensures IsAward(pos) <==> BasePoints(pos) >= 7.0
  {
  }

  /** Every record adds between 1 and 50 points. The weight depends on the level's string
      only, and a string outside the table weighs 1. */
  lemma ScoreBounds(a: Achievement)
    ensures 1.0 <= Score(a) <= 50.0
    ensures forall b: Achievement :: b.position == a.position && LevelName(b.level) == LevelName(a.level) ==> Score(b) == Score(a)
    ensures LevelName(a.level) !in {"College", "District", "State", "National", "International"} ==>
              Score(a) == BasePoints(Lower(a.position))
  {
    var b := BasePoints(Lower(a.position));
    assert 1.0 <= b <= 10.0;
    assert Score(a) == b * LevelMultiplier(a.level);
  }

  /** A level string that names a listed level weighs as that level, whichever way it came in. */
  lemma LevelMultiplierByName(n: string)
    requires n in {"College", "District", "State", "National", "International"}
    ensures exists l :: l in Levels && LevelName(l) == n && LevelMultiplier(UnlistedLevel(n)) == LevelMultiplier(l)
  {
    if n == "College" { assert LevelName(Levels[0]) == n; }
    else if n == "District" { assert LevelName(Levels[1]) == n; }
    else if n == "State" { assert LevelName(Levels[2]) == n; }
    else if n == "National" { assert LevelName(Levels[3]) == n; }
    else { assert LevelName(Levels[4]) == n; }
  }

  /** "Runner-up" gives 3 points and is not an award. */
  lemma RunnerUpIsNoAward()
    ensures BasePoints(Lower("Runner-up")) == 3.0 && !IsAward(Lower("Runner-up"))
  {
    assert Lower("Runner-up") == "runner-up";
  }

  /** "Gold Medal" gives 10 points and is an award. */
  lemma GoldMedalIsAward()
    ensures BasePoints(Lower("Gold Medal")) == 10.0 && IsAward(Lower("Gold Medal"))
  {
    assert Lower("Gold Medal") == "gold medal";
  }

  /** Total points of a list of records. */
  function TotalPoints(rs: seq<Achievement>): real {
    if rs == [] then 0.0 else TotalPoints(rs[..|rs| - 1]) + Score(rs[|rs| - 1])
  }

  lemma TotalPointsSnoc(rs: seq<Achievement>, x: Achievement)
    ensures TotalPoints(rs + [x]) == TotalPoints(rs) + Score(x)
  {
    assert (rs + [x])[..|rs|] == rs;
  }

  /** Every record is worth at least one point. */
  lemma {:induction false} TotalPointsAtLeastCount(rs: seq<Achievement>)
    ensures TotalPoints(rs) >= |rs| as real
  {
    if rs != [] {
      TotalPointsAtLeastCount(rs[..|rs| - 1]);
      ScoreBounds(rs[|rs| - 1]);
    }
  }

  /** One row of the leaderboard. */
  datatype StudentStat = StudentStat(name: string, department: string, points: real, achievements: nat, awards: nat)

  function StatName(e: StudentStat): string {
    e.name
  }

  function Achievements(e: StudentStat): int {
    e.achievements
  }

  /** The comparator `(a, b) => b.points - a.points`: `a` may stay before `b`. */
  function ByPoints(a: StudentStat, b: StudentStat): bool {
    a.points >= b.points
  }

  lemma ByPointsTotalPreorder()
    ensures TotalPreorder(ByPoints)
  {
  }

  /** The row of student `k` over the records `s`: department of the first record, and the
      points, record count and award count of all the student's records. */
  function EntryFor(s: seq<Achievement>, k: string): StudentStat
    requires k in Keys(s, StudentName)
  {
    var g := Group(s, StudentName, k);
    StudentStat(k, s[FirstIndex(s, StudentName, k)].department, TotalPoints(g), |g|, |Filter(g, IsAwardRecord)|)
  }

  /** The map's values: one row per student, in order of the student's first record. */
  function Stats(s: seq<Achievement>): (r: seq<StudentStat>)
    ensures |r| == |Keys(s, StudentName)|
  {
    var ks := Keys(s, StudentName);
    seq(|ks|, j requires 0 <= j < |ks| => EntryFor(s, ks[j]))
  }

  /** The leaderboard of a record list. */
  function Ranking(records: seq<Achievement>): seq<StudentStat> {
    SortBy(Stats(ApprovedOf(records)), ByPoints)
  }

  /** The map entry a student's first record creates. */
  function Fresh(a: Achievement): StudentStat {
    StudentStat(a.studentName, a.department, 0.0, 0, 0)
  }

  /** One record added to its student's entry. */
  function Credit(e: StudentStat, a: Achievement): StudentStat {
    StudentStat(e.name, e.department, e.points + Score(a), e.achievements + 1,
      e.awards + if IsAwardRecord(a) then 1 else 0)
  }

  /** One pass of the `forEach` body on the map's entries: the record's student is credited,
      or a fresh entry is credited and appended. */
  function AddRecord(t: seq<StudentStat>, a: Achievement): seq<StudentStat> {
    var i := Lookup(t, StatName, a.studentName);
    if i < |t| then t[i := Credit(t[i], a)] else t + [Credit(Fresh(a), a)]
  }

  lemma StatsAt(s: seq<Achievement>, j: nat)
    requires j < |Keys(s, StudentName)|
    ensures Stats(s)[j] == EntryFor(s, Keys(s, StudentName)[j])
  {
  }

  lemma EntryForSnocSame(s: seq<Achievement>, x: Achievement)
    requires x.studentName in Keys(s, StudentName)
    ensures x.studentName in Keys(s + [x], StudentName)
    ensures EntryFor(s + [x], x.studentName) == Credit(EntryFor(s, x.studentName), x)
  {
    var k := x.studentName;
    var g := Group(s, StudentName, k);
    var i := FirstIndex(s, StudentName, k);
    assert k in Keys(s + [x], StudentName) && FirstIndex(s + [x], StudentName, k) == i by {
      FirstIndexSnoc(s, x, StudentName, k);
    }
    assert Group(s + [x], StudentName, k) == g + [x] by {
      GroupSnoc(s, x, StudentName, k);
    }
    assert TotalPoints(g + [x]) == TotalPoints(g) + Score(x) by {
      TotalPointsSnoc(g, x);
    }
    assert Filter(g + [x], IsAwardRecord) == Filter(g, IsAwardRecord) + (if IsAwardRecord(x) then [x] else []) by {
      FilterSnoc(g, x, IsAwardRecord);
    }
    assert (s + [x])[i] == s[i];
  }

  lemma EntryForSnocOther(s: seq<Achievement>, x: Achievement, k: string)
    requires k in Keys(s, StudentName) && k != x.studentName
    ensures k in Keys(s + [x], StudentName)
    ensures EntryFor(s + [x], k) == EntryFor(s, k)
  {
    FirstIndexSnoc(s, x, StudentName, k);
    GroupSnoc(s, x, StudentName, k);
    assert Group(s + [x], StudentName, k) == Group(s, StudentName, k);
    var i := FirstIndex(s, StudentName, k);
    assert (s + [x])[i] == s[i];
  }

  lemma EntryForSnocNew(s: seq<Achievement>, x: Achievement)
    requires x.studentName !in Keys(s, StudentName)
    ensures x.studentName in Keys(s + [x], StudentName)
    ensures EntryFor(s + [x], x.studentName) == Credit(Fresh(x), x)
  {
    var k := x.studentName;
    KeysSnoc(s, x, StudentName);
    GroupSnoc(s, x, StudentName, k);
    GroupAbsent(s, StudentName, k);
    assert Group(s + [x], StudentName, k) == [x];
    TotalPointsSnoc([], x);
    FilterSnoc([], x, IsAwardRecord);
    assert [] + [x] == [x];
    var i := FirstIndex(s + [x], StudentName, k);
    assert forall j :: 0 <= j < |s| ==> s[j].studentName in Keys(s, StudentName);
    assert forall j :: 0 <= j < |s| ==> (s + [x])[j] == s[j];
    assert i == |s|;
  }

  lemma StatsSnocOld(s: seq<Achievement>, x: Achievement, i: nat)
    requires i < |Keys(s, StudentName)| && Keys(s, StudentName)[i] == x.studentName
    ensures Stats(s + [x]) == Stats(s)[i := Credit(Stats(s)[i], x)]
  {
    var ks := Keys(s, StudentName);
    KeysSnoc(s, x, StudentName);
    var t := Stats(s);
    var u := t[i := Credit(t[i], x)];
    var t' := Stats(s + [x]);
    assert |t'| == |u|;
    forall j | 0 <= j < |t| ensures t'[j] == u[j] {
      StatsAt(s, j);
      StatsAt(s + [x], j);
      if j == i {
        EntryForSnocSame(s, x);
      } else {
        assert ks[j] != ks[i];
        EntryForSnocOther(s, x, ks[j]);
      }
    }
  }

  lemma StatsSnocNew(s: seq<Achievement>, x: Achievement)
    requires x.studentName !in Keys(s, StudentName)
    ensures Stats(s + [x]) == Stats(s) + [Credit(Fresh(x), x)]
  {
    var ks := Keys(s, StudentName);
    KeysSnoc(s, x, StudentName);
    assert Keys(s + [x], StudentName) == ks + [x.studentName];
    var t := Stats(s);
    var u := t + [Credit(Fresh(x), x)];
    var t' := Stats(s + [x]);
    assert |t'| == |u|;
    forall j | 0 <= j < |t| ensures t'[j] == u[j] {
      StatsAt(s, j);
      StatsAt(s + [x], j);
      EntryForSnocOther(s, x, ks[j]);
    }
    StatsAt(s + [x], |t|);
    EntryForSnocNew(s, x);
  }

  /** The rows of one more record are the rows before, with the record added. */
  lemma StatsSnoc(s: seq<Achievement>, x: Achievement)
    ensures Stats(s + [x]) == AddRecord(Stats(s), x)
  {
    var t := Stats(s);
    var ks := Keys(s, StudentName);
    var i := Lookup(t, StatName, x.studentName);
    assert forall j :: 0 <= j < |t| ==> t[j].name == ks[j];
    if i < |t| {
      StatsSnocOld(s, x, i);
    } else {
      assert x.studentName !in ks;
      StatsSnocNew(s, x);
    }
  }

  /** The map after the `forEach` over `s`, record by record. */
  function Tally(s: seq<Achievement>): seq<StudentStat> {
    if s == [] then [] else AddRecord(Tally(s[..|s| - 1]), s[|s| - 1])
  }

  lemma TallyPrefixSnoc(s: seq<Achievement>, k: nat)
    requires k < |s|
    ensures Tally(s[..k + 1]) == AddRecord(Tally(s[..k]), s[k])
  {
    assert s[..k + 1][..k] == s[..k];
  }

  /** Walking the records one at a time builds exactly the per-student rows. */
  lemma {:induction false} TallyIsStats(s: seq<Achievement>)
    ensures Tally(s) == Stats(s)
  {
    if s != [] {
      var s' := s[..|s| - 1];
      TallyIsStats(s');
      assert s == s' + [s[|s| - 1]];
      StatsSnoc(s', s[|s| - 1]);
    }
  }

  /** The `forEach` body's updates of one map entry for one approved record. */
  method CountRecord(e: StudentStat, a: Achievement) returns (existing: StudentStat)
    ensures existing == Credit(e, a)
  {
    existing := e;
    existing := existing.(achievements := existing.achievements + 1);
    var pos := Lower(a.position);
    var positionPoints := BasePoints(pos);
    existing := existing.(points := existing.points + Weighted(positionPoints, a.level));
    if IsAward(pos) {
      existing := existing.(awards := existing.awards + 1);
    }
  }

  /** `getStudentStats`: walks the approved records updating one map entry per student, then
      sorts the entries by points. */
  method GetStudentStats(records: seq<Achievement>) returns (ranked: seq<StudentStat>)
    ensures ranked == Ranking(records)
  {
    var approved := ApprovedOf(records);
    var entries: seq<StudentStat> := [];
    var i := 0;
    while i < |approved|
      invariant i <= |approved|
      invariant entries == Tally(approved[..i])
    {
      var a := approved[i];
      var j := Lookup(entries, StatName, a.studentName);
      var existing := if j < |entries| then entries[j] else Fresh(a);
      existing := CountRecord(existing, a);
      ghost var next := AddRecord(entries, a);
      if j < |entries| {
        entries := entries[j := existing];
      } else {
        entries := entries + [existing];
      }
      assert entries == next;
      TallyPrefixSnoc(approved, i);
      i := i + 1;
    }
    assert approved[..i] == approved;
    TallyIsStats(approved);
    ranked := SortBy(entries, ByPoints);
  }

  /** Each row of `Stats` is its student's aggregate, and the rows' names are the students. */
  lemma StatsEntries(s: seq<Achievement>)
    ensures DistinctBy(Stats(s), StatName)
    ensures forall j :: 0 <= j < |Stats(s)| ==>
              Stats(s)[j].name in Keys(s, StudentName) && Stats(s)[j] == EntryFor(s, Stats(s)[j].name)
  {
  }

  /** Rows of `Stats` come in the order of each student's first record. */
  lemma StatsInFirstAppearanceOrder(s: seq<Achievement>, i: nat, j: nat)
    requires i < j < |Stats(s)|
    ensures FirstIndex(s, StudentName, Stats(s)[i].name) < FirstIndex(s, StudentName, Stats(s)[j].name)
  {
    KeysInFirstAppearanceOrder(s, StudentName, i, j);
  }

  /** Every leaderboard row is the aggregate of that student's approved records: its department
      comes from the student's first approved record, and its points, achievements and awards
      sum over all of them. */
  lemma RankingEntries(records: seq<Achievement>)
    ensures var ap := ApprovedOf(records);
            forall i :: 0 <= i < |Ranking(records)| ==>
              Ranking(records)[i].name in Keys(ap, StudentName)
              && Ranking(records)[i] == EntryFor(ap, Ranking(records)[i].name)
  {
    var ap := ApprovedOf(records);
    var t := Stats(ap);
    var r := Ranking(records);
    StatsEntries(ap);
    forall i | 0 <= i < |r| ensures r[i].name in Keys(ap, StudentName) && r[i] == EntryFor(ap, r[i].name) {
      assert r[i] in multiset(t);
      var j :| 0 <= j < |t| && t[j] == r[i];
    }
  }

  /** Exactly one row per distinct student with an approved record. */
  lemma RankingOnePerStudent(records: seq<Achievement>, k: string)
    ensures DistinctBy(Ranking(records), StatName)
    ensures (exists i :: 0 <= i < |Ranking(records)| && Ranking(records)[i].name == k)
        <==> HasKey(ApprovedOf(records), StudentName, k)
  {
    var ap := ApprovedOf(records);
    var t := Stats(ap);
    var r := Ranking(records);
    var ks := Keys(ap, StudentName);
    StatsEntries(ap);
    SortByDistinct(t, ByPoints, StatName);
    RankingEntries(records);
    KeysIff(ap, StudentName, k);
    if k in ks {
      var j :| 0 <= j < |ks| && ks[j] == k;
      StatsAt(ap, j);
      assert t[j] in multiset(r);
      var i :| 0 <= i < |r| && r[i] == t[j];
      assert r[i].name == k;
    }
  }

  /** The leaderboard is ordered by points, highest first. */
  lemma RankingSorted(records: seq<Achievement>)
    ensures forall i, j :: 0 <= i < j < |Ranking(records)| ==> Ranking(records)[i].points >= Ranking(records)[j].points
  {
    ByPointsTotalPreorder();
    SortBySorted(Stats(ApprovedOf(records)), ByPoints);
  }

  /** Students with equal points keep the map's (first-appearance) order. */
  lemma RankingStable(records: seq<Achievement>, v: StudentStat)
    ensures Filter(Ranking(records), Tie(ByPoints, v)) == Filter(Stats(ApprovedOf(records)), Tie(ByPoints, v))
  {
    ByPointsTotalPreorder();
    SortByStable(Stats(ApprovedOf(records)), ByPoints, v);
  }

  lemma {:induction false} StatsAchievementsSum(s: seq<Achievement>)
    ensures SumInt(Stats(s), Achievements) == |s|
  {
    if s != [] {
      var s' := s[..|s| - 1];
      var x := s[|s| - 1];
      var t := Stats(s');
      assert Stats(s) == AddRecord(t, x) by {
        assert s == s' + [x];
        StatsSnoc(s', x);
      }
      assert SumInt(t, Achievements) == |s'| by {
        StatsAchievementsSum(s');
      }
      var i := Lookup(t, StatName, x.studentName);
      if i < |t| {
        SumIntUpdate(t, i, Credit(t[i], x), Achievements);
      } else {
        SumIntSnoc(t, Credit(Fresh(x), x), Achievements);
      }
    }
  }

  /** The rows' achievement counts add up to the number of approved records. */
  lemma RankingAchievementsSum(records: seq<Achievement>)
    ensures SumInt(Ranking(records), Achievements) == |ApprovedOf(records)|
  {
    StatsAchievementsSum(ApprovedOf(records));
    SumIntSort(Stats(ApprovedOf(records)), ByPoints, Achievements);
  }

  /** Each row has at least one achievement, at most as many awards as achievements, and at
      least as many points as achievements. */
  lemma RankingBounds(records: seq<Achievement>)
    ensures forall i :: 0 <= i < |Ranking(records)| ==>
              var e := Ranking(records)[i];
              e.awards <= e.achievements && 1 <= e.achievements && e.points >= e.achievements as real
  {
    var ap := ApprovedOf(records);
    var r := Ranking(records);
    RankingEntries(records);
    forall i | 0 <= i < |r|
      ensures r[i].awards <= r[i].achievements && 1 <= r[i].achievements && r[i].points >= r[i].achievements as real
    {
      var k := r[i].name;
      var g := Group(ap, StudentName, k);
      TotalPointsAtLeastCount(g);
      var f := FirstIndex(ap, StudentName, k);
      FilterElements(ap, KeyIs(StudentName, k));
      assert ap[f] in g;
    }
  }

  /** Only approved records count: the leaderboard of the approved records alone is the same. */
  lemma RankingOnlyApproved(records: seq<Achievement>)
    ensures Ranking(ApprovedOf(records)) == Ranking(records)
  {
    FilterElements(records, IsApproved);
    FilterAll(ApprovedOf(records), IsApproved);
  }

  /** A record that is not approved does not change the leaderboard. */
  lemma RankingIgnoresUnapproved(records: seq<Achievement>, x: Achievement)
    requires x.status != Approved
    ensures Ranking(records + [x]) == Ranking(records)
  {
    FilterSnoc(records, x, IsApproved);
    assert ApprovedOf(records + [x]) == ApprovedOf(records);
  }

  /** The podium and the table below it. */
  function TopThree(ranked: seq<StudentStat>): seq<StudentStat> {
    Take(ranked, 3)
  }

  function Rest(ranked: seq<StudentStat>): seq<StudentStat> {
    Drop(ranked, 3)
  }

  /** The podium and the table together are the whole leaderboard, the podium holds at most
      three rows, and no row of the table has more points than a podium row. */
  lemma PodiumSplit(records: seq<Achievement>)
    ensures TopThree(Ranking(records)) + Rest(Ranking(records)) == Ranking(records)
    ensures |TopThree(Ranking(records))| <= 3
    ensures forall i, j :: 0 <= i < |TopThree(Ranking(records))| && 0 <= j < |Rest(Ranking(records))| ==>
              TopThree(Ranking(records))[i].points >= Rest(Ranking(records))[j].points
  {
    var r := Ranking(records);
    ByPointsTotalPreorder();
    SortBySorted(Stats(ApprovedOf(records)), ByPoints);
    TakeDominatesDrop(r, 3, ByPoints);
    if 3 < |r| {
      assert r[..3] + r[3..] == r;
    }
  }

  /** The approved records of category `c`. */
  function CategoryRecords(records: seq<Achievement>, c: Category): seq<Achievement> {
    Filter(records, ApprovedIn(c))
  }

  /** `categoryAchievements.some(a => a.studentName === name)`. */
  predicate HasStudent(rs: seq<Achievement>, name: string) {
    exists j :: 0 <= j < |rs| && rs[j].studentName == name
  }

  /** Position of the first row whose student has a record in `rs`, or `|ranked|`. */
  function FindWithRecord(ranked: seq<StudentStat>, rs: seq<Achievement>): (i: nat)
    ensures i <= |ranked|
    ensures i < |ranked| ==> HasStudent(rs, ranked[i].name)
    ensures forall j :: 0 <= j < i ==> !HasStudent(rs, ranked[j].name)
  {
    if ranked == [] then 0
    else if HasStudent(rs, ranked[0].name) then 0
    else 1 + FindWithRecord(ranked[1..], rs)
  }

  /** The category card's top student: the highest-ranked student with an approved record in
      the category. */
  function CategoryTop(ranked: seq<StudentStat>, records: seq<Achievement>, c: Category): Option<StudentStat> {
    var i := FindWithRecord(ranked, CategoryRecords(records, c));
    if i < |ranked| then Some(ranked[i]) else None
  }

  /** There is a top student exactly when the category has an approved record, and it is the
      earliest-ranked student having one. */
  lemma CategoryTopSpec(records: seq<Achievement>, c: Category)
    ensures var top := CategoryTop(Ranking(records), records, c);
            && (top.None? <==> CategoryRecords(records, c) == [])
            && (top.Some? ==>
                  exists i :: (0 <= i < |Ranking(records)| && Ranking(records)[i] == top.value
                    && HasStudent(CategoryRecords(records, c), top.value.name)
                    && forall j :: 0 <= j < i ==> !HasStudent(CategoryRecords(records, c), Ranking(records)[j].name)))
  {
    var cat := CategoryRecords(records, c);
    if cat != [] {
      CategoryStudentRanked(records, c);
    }
  }

  /** A category with an approved record has a ranked student with a record in it. */
  lemma CategoryStudentRanked(records: seq<Achievement>, c: Category)
    requires CategoryRecords(records, c) != []
    ensures FindWithRecord(Ranking(records), CategoryRecords(records, c)) < |Ranking(records)|
  {
    var r := Ranking(records);
    var cat := CategoryRecords(records, c);
    var a := cat[0];
    CategoryRecordApproved(records, c, 0);
    RankingOnePerStudent(records, a.studentName);
    var e :| 0 <= e < |r| && r[e].name == a.studentName;
    assert HasStudent(cat, r[e].name);
  }

  /** A category record is an approved record. */
  lemma CategoryRecordApproved(records: seq<Achievement>, c: Category, i: nat)
    requires i < |CategoryRecords(records, c)|
    ensures HasKey(ApprovedOf(records), StudentName, CategoryRecords(records, c)[i].studentName)
  {
    var a := CategoryRecords(records, c)[i];
    FilterElements(records, ApprovedIn(c));
    FilterElements(records, IsApproved);
    assert a in multiset(CategoryRecords(records, c));
    assert a in records;
    var m :| 0 <= m < |records| && records[m] == a;
    assert IsApproved(records[m]);
    assert a in ApprovedOf(records);
    var n :| 0 <= n < |ApprovedOf(records)| && ApprovedOf(records)[n] == a;
  }

  // On the sample data.

  const Rahul: StudentStat := StudentStat("Rahul Sharma", "Computer Science", 74.0, 4, 3)
  const Ankit: StudentStat := StudentStat("Ankit Verma", "Mechanical", 50.0, 1, 1)
  const Priya: StudentStat := StudentStat("Priya Patel", "Electronics", 10.0, 1, 1)

  lemma ScoreOf(a: Achievement, pos: string, base: real, award: bool)
    requires a.position == pos && BasePoints(Lower(pos)) == base && IsAward(Lower(pos)) == award
    ensures Score(a) == Weighted(base, a.level) && IsAwardRecord(a) == award
  {
  }

  lemma WinnerIsAward()
    ensures BasePoints(Lower("Winner")) == 10.0 && IsAward(Lower("Winner"))
  {
    assert Lower("Winner") == "winner";
  }

  lemma FirstPlaceIsAward()
    ensures BasePoints(Lower("1st Place")) == 10.0 && IsAward(Lower("1st Place"))
  {
    assert Lower("1st Place") == "1st place";
  }

  lemma FixtureScoresRahul()
    ensures Score(Record1) == 20.0 && IsAwardRecord(Record1)
    ensures Score(Record2) == 9.0 && !IsAwardRecord(Record2)
    ensures Score(Record3) == 15.0 && IsAwardRecord(Record3)
  {
    assert Score(Record1) == 20.0 && IsAwardRecord(Record1) by {
      WinnerIsAward();
      ScoreOf(Record1, "Winner", 10.0, true);
    }
    assert Score(Record2) == 9.0 && !IsAwardRecord(Record2) by {
      RunnerUpIsNoAward();
      ScoreOf(Record2, "Runner-up", 3.0, false);
    }
    assert Score(Record3) == 15.0 && IsAwardRecord(Record3) by {
      FirstPlaceIsAward();
      ScoreOf(Record3, "1st Place", 10.0, true);
    }
  }

  lemma FixtureScoresLater()
    ensures Score(Record4) == 10.0 && IsAwardRecord(Record4)
    ensures Score(Record7) == 30.0 && IsAwardRecord(Record7)
    ensures Score(Record9) == 50.0 && IsAwardRecord(Record9)
  {
    assert Score(Record4) == 10.0 && IsAwardRecord(Record4) by {
      WinnerIsAward();
      ScoreOf(Record4, "Winner", 10.0, true);
    }
    assert Score(Record7) == 30.0 && IsAwardRecord(Record7) by {
      WinnerIsAward();
      ScoreOf(Record7, "Winner", 10.0, true);
    }
    assert Score(Record9) == 50.0 && IsAwardRecord(Record9) by {
      GoldMedalIsAward();
      ScoreOf(Record9, "Gold Medal", 10.0, true);
    }
  }

  const Rahul3: StudentStat := StudentStat("Rahul Sharma", "Computer Science", 44.0, 3, 2)

  /** A record of the only student in the map credits that entry. */
  lemma AddRecordToOwnEntry(e: StudentStat, a: Achievement)
    requires e.name == a.studentName
    ensures AddRecord([e], a) == [Credit(e, a)]
  {
  }

  lemma FixtureStepsRahul()
    ensures AddRecord([], Record1) == [StudentStat("Rahul Sharma", "Computer Science", 20.0, 1, 1)]
    ensures AddRecord([StudentStat("Rahul Sharma", "Computer Science", 20.0, 1, 1)], Record2)
         == [StudentStat("Rahul Sharma", "Computer Science", 29.0, 2, 1)]
    ensures AddRecord([StudentStat("Rahul Sharma", "Computer Science", 29.0, 2, 1)], Record3) == [Rahul3]
  {
    FixtureScoresRahul();
    AddRecordToOwnEntry(StudentStat("Rahul Sharma", "Computer Science", 20.0, 1, 1), Record2);
    AddRecordToOwnEntry(StudentStat("Rahul Sharma", "Computer Science", 29.0, 2, 1), Record3);
  }

  lemma FixtureStepsLater()
    ensures AddRecord([Rahul3], Record4) == [Rahul3, Priya]
    ensures AddRecord([Rahul3, Priya], Record7) == [Rahul, Priya]
    ensures AddRecord([Rahul, Priya], Record9) == [Rahul, Priya, Ankit]
  {
    FixtureScoresLater();
  }

  const FixtureApprovedRecords: seq<Achievement> := [Record1, Record2, Record3, Record4, Record7, Record9]

  lemma FixtureTallyRahul()
    ensures Tally(FixtureApprovedRecords[..3]) == [Rahul3]
  {
    var ap := FixtureApprovedRecords;
    assert ap[..0] == [];
    FixtureStepsRahul();
    TallyPrefixSnoc(ap, 0);
    TallyPrefixSnoc(ap, 1);
    TallyPrefixSnoc(ap, 2);
  }

  /** The map holds the students in order of their first approved record. */
  lemma FixtureTally()
    ensures Stats(ApprovedOf(Fixture)) == [Rahul, Priya, Ankit]
  {
    var ap := FixtureApprovedRecords;
    FixtureTallyRahul();
    FixtureStepsLater();
    TallyPrefixSnoc(ap, 3);
    TallyPrefixSnoc(ap, 4);
    TallyPrefixSnoc(ap, 5);
    assert ap[..6] == ap;
    FixtureApproved();
    TallyIsStats(ap);
  }

  /** On the sample data the leaderboard is Rahul Sharma (74 points, 4 achievements, 3 awards),
      Ankit Verma (50 points) and Priya Patel (10 points). */
  lemma FixtureRanking()
    ensures Ranking(Fixture) == [Rahul, Ankit, Priya]
  {
    FixtureTally();
    FixtureSort();
  }

  lemma FixtureSort()
    ensures SortBy([Rahul, Priya, Ankit], ByPoints) == [Rahul, Ankit, Priya]
  {
    var s := [Rahul, Priya, Ankit];
    assert s[..2] == [Rahul, Priya] && s[..2][..1] == [Rahul] && s[..2][..1][..0] == [];
    assert SortBy([Rahul], ByPoints) == [Rahul];
    assert SortBy([Rahul, Priya], ByPoints) == [Rahul, Priya];
    assert Insert([Rahul, Priya], Ankit, ByPoints) == [Rahul, Ankit, Priya];
  }
}
