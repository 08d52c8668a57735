/** The portfolio page: the signed-in student's approved achievements and their awards. */
module Portfolio {
  import opened Seqs
  import opened SampleData
  import Profile

  function ApprovedFor(name: string): Achievement -> bool {
    (a: Achievement) => a.status == Approved && a.studentName == name
  }

  /** The student's approved records, in their order: nothing pending or rejected, nothing of
      another student. */
  function ApprovedAchievements(records: seq<Achievement>, name: string): (r: seq<Achievement>)
    ensures IsSubsequence(r, records)
    ensures forall a :: a in r <==> a in records && a.status == Approved && a.studentName == name
    ensures forall a :: multiset(r)[a] == if a.status == Approved && a.studentName == name then multiset(records)[a] else 0
  {
    var p := ApprovedFor(name);
    FilterIsSubsequence(records, p);
    FilterElements(records, p);
    FilterMultiplicity(records, p);
    var r := Filter(records, p);
    assert forall a :: a in r ==> a in multiset(records);
    r
  }

  /** The awards card: entries positioned exactly "Winner", "1st Place" or "Gold Medal". */
  function Awards(records: seq<Achievement>, name: string): (n: nat)
    ensures n <= |ApprovedAchievements(records, name)|
  {
    |Filter(ApprovedAchievements(records, name), IsExactAwardRecord)|
  }

  /** The awards card counts exactly the student's approved records with an award position. */
  lemma AwardsAreApprovedAwards(records: seq<Achievement>, name: string)
    ensures forall a :: a in Filter(ApprovedAchievements(records, name), IsExactAwardRecord) <==>
              a in records && a.status == Approved && a.studentName == name && IsExactAward(a.position)
    ensures forall a :: multiset(Filter(ApprovedAchievements(records, name), IsExactAwardRecord))[a] ==
              if a.status == Approved && a.studentName == name && IsExactAward(a.position) then multiset(records)[a] else 0
  {
    var mine := ApprovedAchievements(records, name);
    var r := Filter(mine, IsExactAwardRecord);
    FilterMultiplicity(mine, IsExactAwardRecord);
    forall a ensures a in r <==> a in records && a.status == Approved && a.studentName == name && IsExactAward(a.position) {
      assert a in r <==> a in multiset(r);
      assert a in records <==> a in multiset(records);
    }
  }

  /** The portfolio is the profile's record list cut down to the approved records. */
  lemma PortfolioIsApprovedProfile(records: seq<Achievement>, name: string)
    ensures ApprovedAchievements(records, name) == ApprovedOf(Profile.StudentAchievements(records, name))
  {
    FilterFilter(records, Profile.OfStudent(name), IsApproved, ApprovedFor(name));
  }

  /** Rahul Sharma's portfolio lists records 1, 2, 3 and 7. */
  lemma FixturePortfolio()
    ensures Filter(Fixture, ApprovedFor(SampleData.Profile.name)) == [Record1, Record2, Record3, Record7]
  {
    var p := ApprovedFor(SampleData.Profile.name);
    FilterFixture(p);
    assert Filter([], p) == [];
    assert Filter(Fixture, p) == [Record1, Record2, Record3] + [Record7];
  }

  /** Among those, records 1, 3 and 7 carry an award position. */
  lemma FixturePortfolioAwards()
    ensures Filter([Record1, Record2, Record3, Record7], IsExactAwardRecord) == [Record1, Record3, Record7]
  {
    var r := [Record1, Record2, Record3, Record7];
    assert r[..0] == [];
    FilterPrefixSnoc(r, 0, IsExactAwardRecord);
    FilterPrefixSnoc(r, 1, IsExactAwardRecord);
    FilterPrefixSnoc(r, 2, IsExactAwardRecord);
    FilterPrefixSnoc(r, 3, IsExactAwardRecord);
    assert r[..4] == r;
  }

  /** On the sample data the portfolio shows four approved achievements and three awards. */
  lemma FixturePortfolioCounts()
    ensures |ApprovedAchievements(Fixture, SampleData.Profile.name)| == 4
    ensures Awards(Fixture, SampleData.Profile.name) == 3
  {
    FixturePortfolio();
    FixturePortfolioAwards();
  }
}
