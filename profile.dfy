/** The profile page: every record of the signed-in student and the awards among them. */
module Profile {
  import opened Seqs
  import opened SampleData

  /** The awards test of this page: "Winner" or "1st Place" exactly. */
  predicate IsProfileAward(a: Achievement) {
    a.position == "Winner" || a.position == "1st Place"
  }

  function OfStudent(name: string): Achievement -> bool {
    (a: Achievement) => a.studentName == name
  }

  /** The student's records of every status, in their order. */
  function StudentAchievements(records: seq<Achievement>, name: string): (r: seq<Achievement>)
    ensures IsSubsequence(r, records)
    ensures forall a :: a in r <==> a in records && a.studentName == name
    ensures forall a :: multiset(r)[a] == if a.studentName == name then multiset(records)[a] else 0
  {
    var p := OfStudent(name);
    FilterIsSubsequence(records, p);
    FilterElements(records, p);
    FilterMultiplicity(records, p);
    var r := Filter(records, p);
    assert forall a :: a in r ==> a in multiset(records);
    r
  }

  datatype ProfileCards = ProfileCards(participations: nat, awards: nat, total: nat)

  /** The three cards: "Participations" and "Total" both show the number of the student's
      records, and the awards are among them. */
  function Cards(records: seq<Achievement>, name: string): (c: ProfileCards)
    ensures c.participations == c.total == |StudentAchievements(records, name)|
    ensures c.awards <= c.total
  {
    var mine := StudentAchievements(records, name);
    ProfileCards(|mine|, |Filter(mine, IsProfileAward)|, |mine|)
  }

  /** The awards card counts exactly the student's records, of any status, positioned
      "Winner" or "1st Place". */
  lemma AwardsAreStudentAwards(records: seq<Achievement>, name: string)
    ensures forall a :: a in Filter(StudentAchievements(records, name), IsProfileAward) <==>
              a in records && a.studentName == name && (a.position == "Winner" || a.position == "1st Place")
    ensures forall a :: multiset(Filter(StudentAchievements(records, name), IsProfileAward))[a] ==
              if a.studentName == name && (a.position == "Winner" || a.position == "1st Place") then multiset(records)[a] else 0
  {
    var mine := StudentAchievements(records, name);
    var r := Filter(mine, IsProfileAward);
    FilterMultiplicity(mine, IsProfileAward);
    forall a ensures a in r <==> a in records && a.studentName == name && (a.position == "Winner" || a.position == "1st Place") {
      assert a in r <==> a in multiset(r);
      assert a in records <==> a in multiset(records);
    }
  }

  /** Unlike the dashboard and the portfolio, this page does not count "Gold Medal". */
  lemma GoldMedalIsNoProfileAward(a: Achievement)
    requires a.position == "Gold Medal"
    ensures !IsProfileAward(a) && IsExactAwardRecord(a)
  {
  }

  /** Rahul Sharma has records 1, 2, 3, 7 and 10. */
  lemma FixtureProfile()
    ensures Filter(Fixture, OfStudent(SampleData.Profile.name)) == [Record1, Record2, Record3, Record7, Record10]
  {
    var p := OfStudent(SampleData.Profile.name);
    FilterFixture(p);
    assert Filter([], p) == [];
    assert Filter(Fixture, p) == [Record1, Record2, Record3] + [Record7] + [Record10];
  }

  /** Among those, records 1, 3, 7 and 10 are a "Winner" or a "1st Place". */
  lemma FixtureProfileAwards()
    ensures Filter([Record1, Record2, Record3, Record7, Record10], IsProfileAward) == [Record1, Record3, Record7, Record10]
  {
    var r := [Record1, Record2, Record3, Record7, Record10];
    assert r[..0] == [];
    FilterPrefixSnoc(r, 0, IsProfileAward);
    FilterPrefixSnoc(r, 1, IsProfileAward);
    FilterPrefixSnoc(r, 2, IsProfileAward);
    FilterPrefixSnoc(r, 3, IsProfileAward);
    FilterPrefixSnoc(r, 4, IsProfileAward);
    assert r[..5] == r;
  }

  /** On the sample data the profile shows five records and four awards, the pending chess
      win among them. */
  lemma FixtureProfileCards()
    ensures Cards(Fixture, SampleData.Profile.name) == ProfileCards(5, 4, 5)
  {
    FixtureProfile();
    FixtureProfileAwards();
  }
}
