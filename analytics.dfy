/** The analytics page: status overview, category, level and position charts, and the top
    departments and students by number of approved records. */
module Analytics {
  import opened Seqs
  import opened Text
  import opened Sorting
  import opened Grouping
  import opened SampleData

  // Overview cards and the status chart.

  /** The status chart: approved, pending and rejected counts, in this order. */
  function StatusData(records: seq<Achievement>): seq<KeyCount> {
    [KeyCount("Approved", |ApprovedOf(records)|),
     KeyCount("Pending", |PendingOf(records)|),
     KeyCount("Rejected", |RejectedOf(records)|)]
  }

  /** The status chart accounts for every record exactly once: its bars add up to the total. */
  lemma StatusDataSum(records: seq<Achievement>)
    ensures SumInt(StatusData(records), CountField) == |records|
  {
    var d := StatusData(records);
    assert d[..0] == [];
    SumIntPrefixSnoc(d, 0, CountField);
    SumIntPrefixSnoc(d, 1, CountField);
    SumIntPrefixSnoc(d, 2, CountField);
    assert d[..3] == d;
    StatusPartition(records);
  }

  // The category chart.

  /** One bar per category, in list order, counting its approved records. */
  function CategoryData(records: seq<Achievement>): (r: seq<KeyCount>)
    ensures |r| == |Categories|
    ensures forall i :: 0 <= i < |r| ==> r[i].name == CategoryName(Categories[i])
  {
    seq(|Categories|, i requires 0 <= i < |Categories| =>
      KeyCount(CategoryName(Categories[i]), |Filter(records, ApprovedIn(Categories[i]))|))
  }

  lemma {:induction false} CategoryPartition(records: seq<Achievement>)
    ensures |Filter(records, ApprovedIn(Sports))| + |Filter(records, ApprovedIn(Cultural))|
          + |Filter(records, ApprovedIn(Technical))| + |Filter(records, ApprovedIn(Academic))|
         == |ApprovedOf(records)|
  {
    if records != [] {
      var rs := records[..|records| - 1];
      var x := records[|records| - 1];
      assert records == rs + [x];
      CategoryPartition(rs);
      FilterSnoc(rs, x, ApprovedIn(Sports));
      FilterSnoc(rs, x, ApprovedIn(Cultural));
      FilterSnoc(rs, x, ApprovedIn(Technical));
      FilterSnoc(rs, x, ApprovedIn(Academic));
      FilterSnoc(rs, x, IsApproved);
    }
  }

  /** Every approved record is in exactly one category bar, so the bars add up to the number
      of approved records. */
  lemma CategoryDataSum(records: seq<Achievement>)
    ensures SumInt(CategoryData(records), CountField) == |ApprovedOf(records)|
  {
    var d := CategoryData(records);
    assert d[..0] == [];
    SumIntPrefixSnoc(d, 0, CountField);
    SumIntPrefixSnoc(d, 1, CountField);
    SumIntPrefixSnoc(d, 2, CountField);
    SumIntPrefixSnoc(d, 3, CountField);
    assert d[..4] == d;
    CategoryPartition(records);
  }

  // The level chart.

  /** `a => a.level === level && a.status === "approved"`: the level is compared by name. */
  function ApprovedAtLevel(l: Level): Achievement -> bool {
    (a: Achievement) => a.status == Approved && LevelName(a.level) == LevelName(l)
  }

  /** An approved record whose level is none of the five chart levels. */
  predicate ApprovedUncharted(a: Achievement) {
    a.status == Approved && LevelName(a.level) !in {"College", "District", "State", "National", "International"}
  }

  /** One bar per level, in list order, counting its approved records. */
  function LevelData(records: seq<Achievement>): (r: seq<KeyCount>)
    ensures |r| == |Levels|
    ensures forall i :: 0 <= i < |r| ==> r[i].name == LevelName(Levels[i])
  {
    seq(|Levels|, i requires 0 <= i < |Levels| =>
      KeyCount(LevelName(Levels[i]), |Filter(records, ApprovedAtLevel(Levels[i]))|))
  }

  lemma {:induction false} LevelPartition(records: seq<Achievement>)
    ensures |Filter(records, ApprovedAtLevel(College))| + |Filter(records, ApprovedAtLevel(District))|
          + |Filter(records, ApprovedAtLevel(State))| + |Filter(records, ApprovedAtLevel(National))|
          + |Filter(records, ApprovedAtLevel(International))| + |Filter(records, ApprovedUncharted)|
         == |ApprovedOf(records)|
  {
    if records != [] {
      var rs := records[..|records| - 1];
      var x := records[|records| - 1];
      assert records == rs + [x];
      LevelPartition(rs);
      FilterSnoc(rs, x, ApprovedAtLevel(College));
      FilterSnoc(rs, x, ApprovedAtLevel(District));
      FilterSnoc(rs, x, ApprovedAtLevel(State));
      FilterSnoc(rs, x, ApprovedAtLevel(National));
      FilterSnoc(rs, x, ApprovedAtLevel(International));
      FilterSnoc(rs, x, ApprovedUncharted);
      FilterSnoc(rs, x, IsApproved);
    }
  }

  /** The level bars count every approved record whose level is one of the five, once each;
      the approved records with any other level string are the only ones missing. */
  lemma LevelDataSum(records: seq<Achievement>)
    ensures SumInt(LevelData(records), CountField) + |Filter(records, ApprovedUncharted)| == |ApprovedOf(records)|
  {
    var d := LevelData(records);
    assert d[..0] == [];
    SumIntPrefixSnoc(d, 0, CountField);
    SumIntPrefixSnoc(d, 1, CountField);
    SumIntPrefixSnoc(d, 2, CountField);
    SumIntPrefixSnoc(d, 3, CountField);
    SumIntPrefixSnoc(d, 4, CountField);
    assert d[..5] == d;
    LevelPartition(records);
  }

  /** With only the five listed levels in the data, the level bars add up to the approved
      count. */
  lemma ListedLevelDataSum(records: seq<Achievement>)
    requires forall i :: 0 <= i < |records| ==> IsListedLevel(records[i].level)
    ensures SumInt(LevelData(records), CountField) == |ApprovedOf(records)|
  {
    LevelDataSum(records);
    FilterNone(records, ApprovedUncharted);
  }

  // The position chart.

  datatype PositionType = WinnerType | RunnerUpType | FinalistType | ParticipantType

  function PositionTypeName(t: PositionType): string {
    match t
    case WinnerType => "Winner"
    case RunnerUpType => "Runner-up"
    case FinalistType => "Finalist"
    case ParticipantType => "Participant"
  }

  const PositionTypes: seq<PositionType> := [WinnerType, RunnerUpType, FinalistType, ParticipantType]

  /** The bucket tests as written: "winner", "runner" and "finalist" are looked for in the
      lower-cased position, "1st", "Gold", "2nd" and "Silver" in the position as it is. */
  predicate InBucket(t: PositionType, pos: string) {
    match t
    case WinnerType => Contains(Lower(pos), "winner") || Contains(pos, "1st") || Contains(pos, "Gold")
    case RunnerUpType => Contains(Lower(pos), "runner") || Contains(pos, "2nd") || Contains(pos, "Silver")
    case FinalistType => Contains(Lower(pos), "finalist")
    case ParticipantType =>
      !Contains(Lower(pos), "winner") && !Contains(Lower(pos), "runner") && !Contains(Lower(pos), "finalist")
  }

  function ApprovedInBucket(t: PositionType): Achievement -> bool {
    (a: Achievement) => a.status == Approved && InBucket(t, a.position)
  }

  /** One bar per position type, counting the approved records its test accepts. */
  function PositionData(records: seq<Achievement>): (r: seq<KeyCount>)
    ensures |r| == |PositionTypes|
    ensures forall i :: 0 <= i < |r| ==> r[i].name == PositionTypeName(PositionTypes[i])
  {
    seq(|PositionTypes|, i requires 0 <= i < |PositionTypes| =>
      KeyCount(PositionTypeName(PositionTypes[i]), |Filter(records, ApprovedInBucket(PositionTypes[i]))|))
  }

  /** Every position falls in at least one bucket: "Participant" takes whatever matches none
      of the three lower-cased keywords. */
  lemma BucketsCover(pos: string)
    ensures exists t :: t in PositionTypes && InBucket(t, pos)
  {
    if InBucket(ParticipantType, pos) {
      assert ParticipantType in PositionTypes;
    } else if Contains(Lower(pos), "winner") {
      assert InBucket(WinnerType, pos) && WinnerType in PositionTypes;
    } else if Contains(Lower(pos), "runner") {
      assert InBucket(RunnerUpType, pos) && RunnerUpType in PositionTypes;
    } else {
      assert InBucket(FinalistType, pos) && FinalistType in PositionTypes;
    }
  }

  /** "Finalist" and "Participant" never share a position, and a participant shares the
      "Winner" bar only through a case-sensitive "1st" or "Gold". */
  lemma ParticipantOverlaps(pos: string)
    ensures !(InBucket(ParticipantType, pos) && InBucket(FinalistType, pos))
    ensures InBucket(ParticipantType, pos) && InBucket(WinnerType, pos) ==> Contains(pos, "1st") || Contains(pos, "Gold")
    ensures InBucket(ParticipantType, pos) && InBucket(RunnerUpType, pos) ==> Contains(pos, "2nd") || Contains(pos, "Silver")
  {
  }

  lemma {:induction false} PositionCover(records: seq<Achievement>)
    ensures |Filter(records, ApprovedInBucket(WinnerType))| + |Filter(records, ApprovedInBucket(RunnerUpType))|
          + |Filter(records, ApprovedInBucket(FinalistType))| + |Filter(records, ApprovedInBucket(ParticipantType))|
         >= |ApprovedOf(records)|
  {
    if records != [] {
      var rs := records[..|records| - 1];
      var x := records[|records| - 1];
      assert records == rs + [x];
      PositionCover(rs);
      FilterSnoc(rs, x, ApprovedInBucket(WinnerType));
      FilterSnoc(rs, x, ApprovedInBucket(RunnerUpType));
      FilterSnoc(rs, x, ApprovedInBucket(FinalistType));
      FilterSnoc(rs, x, ApprovedInBucket(ParticipantType));
      FilterSnoc(rs, x, IsApproved);
      BucketsCover(x.position);
    }
  }

  /** Every approved record is counted in some position bar, and no bar counts more than the
      approved records. */
  lemma PositionDataBounds(records: seq<Achievement>)
    ensures SumInt(PositionData(records), CountField) >= |ApprovedOf(records)|
    ensures forall i :: 0 <= i < |PositionData(records)| ==> PositionData(records)[i].count <= |ApprovedOf(records)|
  {
    var d := PositionData(records);
    assert d[..0] == [];
    SumIntPrefixSnoc(d, 0, CountField);
    SumIntPrefixSnoc(d, 1, CountField);
    SumIntPrefixSnoc(d, 2, CountField);
    SumIntPrefixSnoc(d, 3, CountField);
    assert d[..4] == d;
    PositionCover(records);
    forall i | 0 <= i < |d| ensures d[i].count <= |ApprovedOf(records)| {
      FilterMono(records, ApprovedInBucket(PositionTypes[i]), IsApproved);
    }
  }

  /** "Gold Medal" counts as a win and as a participation. */
  lemma GoldMedalBuckets()
    ensures InBucket(WinnerType, "Gold Medal") && InBucket(ParticipantType, "Gold Medal")
    ensures !InBucket(RunnerUpType, "Gold Medal") && !InBucket(FinalistType, "Gold Medal")
  {
    assert Lower("Gold Medal") == "gold medal";
  }

  /** "1st place" counts as a win and as a participation. */
  lemma FirstPlaceBuckets()
    ensures InBucket(WinnerType, "1st place") && InBucket(ParticipantType, "1st place")
  {
    assert Lower("1st place") == "1st place";
  }

  /** The "Gold" and "Silver" tests are case-sensitive, the keyword tests are not. */
  lemma CaseSensitiveBuckets()
    ensures !InBucket(WinnerType, "gold medal") && InBucket(ParticipantType, "gold medal")
    ensures !InBucket(RunnerUpType, "SILVER") && InBucket(ParticipantType, "SILVER")
    ensures InBucket(WinnerType, "WINNER") && !InBucket(ParticipantType, "WINNER")
  {
    LowerGoldBuckets();
    UpperSilverBuckets();
    UpperWinnerBuckets();
  }

  lemma LowerGoldBuckets()
    ensures !InBucket(WinnerType, "gold medal") && InBucket(ParticipantType, "gold medal")
  {
    assert Lower("gold medal") == "gold medal";
  }

  lemma UpperSilverBuckets()
    ensures !InBucket(RunnerUpType, "SILVER") && InBucket(ParticipantType, "SILVER")
  {
    assert Lower("SILVER") == "silver";
  }

  lemma UpperWinnerBuckets()
    ensures InBucket(WinnerType, "WINNER") && !InBucket(ParticipantType, "WINNER")
  {
    assert Lower("WINNER") == "winner";
  }

  /** The position chart on one approved "Gold Medal" record: two bars count it. */
  lemma PositionDataDoubleCounts()
    ensures |ApprovedOf([Record9])| == 1
    ensures SumInt(PositionData([Record9]), CountField) == 2
  {
    FilterSingleton(Record9, IsApproved);
    GoldMedalDoubleCounts(Record9);
  }

  /** Any single approved "Gold Medal" record gives a bar total of two. */
  lemma GoldMedalDoubleCounts(a: Achievement)
    requires a.status == Approved && a.position == "Gold Medal"
    ensures SumInt(PositionData([a]), CountField) == 2
  {
    var d := PositionData([a]);
    assert d[0].count == 1 by {
      GoldMedalBuckets();
      FilterSingleton(a, ApprovedInBucket(WinnerType));
    }
    assert d[1].count == 0 by {
      GoldMedalBuckets();
      FilterSingleton(a, ApprovedInBucket(RunnerUpType));
    }
    assert d[2].count == 0 by {
      GoldMedalBuckets();
      FilterSingleton(a, ApprovedInBucket(FinalistType));
    }
    assert d[3].count == 1 by {
      GoldMedalBuckets();
      FilterSingleton(a, ApprovedInBucket(ParticipantType));
    }
    assert SumInt(d, CountField) == d[0].count + d[1].count + d[2].count + d[3].count by {
      assert d[..0] == [];
      SumIntPrefixSnoc(d, 0, CountField);
      SumIntPrefixSnoc(d, 1, CountField);
      SumIntPrefixSnoc(d, 2, CountField);
      SumIntPrefixSnoc(d, 3, CountField);
      assert d[..4] == d;
    }
  }

  /** The evidently intended position type: the first bucket whose test accepts, so each
      record lands in exactly one bar. */
  function PositionTypeOf(pos: string): (t: PositionType)
    ensures t == ParticipantType || InBucket(t, pos)
  {
    if InBucket(WinnerType, pos) then WinnerType
    else if InBucket(RunnerUpType, pos) then RunnerUpType
    else if InBucket(FinalistType, pos) then FinalistType
    else ParticipantType
  }

  function ApprovedOfType(t: PositionType): Achievement -> bool {
    (a: Achievement) => a.status == Approved && PositionTypeOf(a.position) == t
  }

  /** The position chart with one bucket per record. */
  function ExclusivePositionData(records: seq<Achievement>): (r: seq<KeyCount>)
    ensures |r| == |PositionTypes|
    ensures forall i :: 0 <= i < |r| ==> r[i].name == PositionTypeName(PositionTypes[i])
  {
    seq(|PositionTypes|, i requires 0 <= i < |PositionTypes| =>
      KeyCount(PositionTypeName(PositionTypes[i]), |Filter(records, ApprovedOfType(PositionTypes[i]))|))
  }

  lemma {:induction false} ExclusivePartition(records: seq<Achievement>)
    ensures |Filter(records, ApprovedOfType(WinnerType))| + |Filter(records, ApprovedOfType(RunnerUpType))|
          + |Filter(records, ApprovedOfType(FinalistType))| + |Filter(records, ApprovedOfType(ParticipantType))|
         == |ApprovedOf(records)|
  {
    if records != [] {
      var rs := records[..|records| - 1];
      var x := records[|records| - 1];
      assert records == rs + [x];
      ExclusivePartition(rs);
      FilterSnoc(rs, x, ApprovedOfType(WinnerType));
      FilterSnoc(rs, x, ApprovedOfType(RunnerUpType));
      FilterSnoc(rs, x, ApprovedOfType(FinalistType));
      FilterSnoc(rs, x, ApprovedOfType(ParticipantType));
      FilterSnoc(rs, x, IsApproved);
    }
  }

  /** With one bucket per record, the position bars add up to the approved count. */
  lemma ExclusivePositionDataSum(records: seq<Achievement>)
    ensures SumInt(ExclusivePositionData(records), CountField) == |ApprovedOf(records)|
  {
    var d := ExclusivePositionData(records);
    assert d[..0] == [];
    SumIntPrefixSnoc(d, 0, CountField);
    SumIntPrefixSnoc(d, 1, CountField);
    SumIntPrefixSnoc(d, 2, CountField);
    SumIntPrefixSnoc(d, 3, CountField);
    assert d[..4] == d;
    ExclusivePartition(records);
  }

  // Top departments and top students.

  /** `(a, b) => b.count - a.count`: more records first. */
  function ByCount(a: KeyCount, b: KeyCount): bool {
    a.count >= b.count
  }

  lemma ByCountTotalPreorder()
    ensures TotalPreorder(ByCount)
  {
  }

  /** `.sort(byCount).slice(0, 5)`. */
  function TopFive(entries: seq<KeyCount>): seq<KeyCount> {
    Take(SortBy(entries, ByCount), 5)
  }

  /** Counts approved records per key into a map kept in insertion order: the `forEach` over
      the approved records with `map.set(k, (map.get(k) || 0) + 1)`. */
  method CountBy(rs: seq<Achievement>, key: Achievement -> string) returns (entries: seq<KeyCount>)
    ensures entries == CountTally(rs, key)
  {
    entries := [];
    var i := 0;
    while i < |rs|
      invariant i <= |rs|
      invariant entries == CountFold(rs[..i], key)
    {
      var k := key(rs[i]);
      var j := Lookup(entries, Name, k);
      if j < |entries| {
        entries := entries[j := KeyCount(k, entries[j].count + 1)];
      } else {
        entries := entries + [KeyCount(k, 1)];
      }
      CountFoldPrefixSnoc(rs, key, i);
      i := i + 1;
    }
    assert rs[..i] == rs;
    CountFoldIsTally(rs, key);
  }

  /** The department chart: the five departments with the most approved records. */
  method DeptData(records: seq<Achievement>) returns (r: seq<KeyCount>)
    ensures r == TopFive(CountTally(ApprovedOf(records), Department))
  {
    var counts := CountBy(ApprovedOf(records), Department);
    r := TopFive(counts);
  }

  /** The top-students list: the five students with the most approved records. */
  method TopStudents(records: seq<Achievement>) returns (r: seq<KeyCount>)
    ensures r == TopFive(CountTally(ApprovedOf(records), StudentName))
  {
    var counts := CountBy(ApprovedOf(records), StudentName);
    r := TopFive(counts);
  }

  /** What a top-five list shows: at most five entries, distinct keys, most first, each the
      size of its key's group; and no key left out has more records than a key shown. */
  lemma TopFiveSpec(s: seq<Achievement>, key: Achievement -> string)
    ensures var r := TopFive(CountTally(s, key));
            && |r| == (if |Keys(s, key)| < 5 then |Keys(s, key)| else 5)
            && SortedBy(r, ByCount)
            && DistinctBy(r, Name)
            && (forall i :: 0 <= i < |r| ==> r[i].count == |Group(s, key, r[i].name)| > 0)
  {
    var t := CountTally(s, key);
    var sorted := SortBy(t, ByCount);
    var r := TopFive(t);
    ByCountTotalPreorder();
    SortBySorted(t, ByCount);
    CountTallyEntries(s, key);
    SortByDistinct(t, ByCount, Name);
    forall i | 0 <= i < |r| ensures r[i].count == |Group(s, key, r[i].name)| > 0 {
      assert r[i] == sorted[i];
      assert sorted[i] in multiset(t);
    }
  }

  /** A key with records that the top five leave out has no more records than any key shown. */
  lemma TopFiveOmitted(s: seq<Achievement>, key: Achievement -> string, k: string)
    requires HasKey(s, key, k)
    requires forall i :: 0 <= i < |TopFive(CountTally(s, key))| ==> TopFive(CountTally(s, key))[i].name != k
    ensures forall i :: 0 <= i < |TopFive(CountTally(s, key))| ==> TopFive(CountTally(s, key))[i].count >= |Group(s, key, k)|
  {
    var t := CountTally(s, key);
    var sorted := SortBy(t, ByCount);
    var r := TopFive(t);
    CountTallyNames(s, key, k);
    var e :| 0 <= e < |t| && t[e].name == k;
    CountTallyEntries(s, key);
    assert t[e] in multiset(sorted);
    var m :| 0 <= m < |sorted| && sorted[m] == t[e];
    ByCountTotalPreorder();
    SortBySorted(t, ByCount);
    assert forall i :: 0 <= i < |r| ==> r[i] == sorted[i];
    forall i | 0 <= i < |r| ensures r[i].count >= |Group(s, key, k)| {
      assert r[i] == sorted[i];
    }
  }

  /** Keys with equal counts keep the map's order, which is the order of first appearance. */
  lemma TopFiveTies(s: seq<Achievement>, key: Achievement -> string, v: KeyCount)
    ensures Filter(SortBy(CountTally(s, key), ByCount), Tie(ByCount, v)) == Filter(CountTally(s, key), Tie(ByCount, v))
    ensures forall i, j :: 0 <= i < j < |CountTally(s, key)| ==>
              FirstIndex(s, key, CountTally(s, key)[i].name) < FirstIndex(s, key, CountTally(s, key)[j].name)
  {
    ByCountTotalPreorder();
    SortByStable(CountTally(s, key), ByCount, v);
    forall i, j | 0 <= i < j < |CountTally(s, key)|
      ensures FirstIndex(s, key, CountTally(s, key)[i].name) < FirstIndex(s, key, CountTally(s, key)[j].name)
    {
      KeysInFirstAppearanceOrder(s, key, i, j);
    }
  }

  /** The "Unique Students" card: `studentMap.size`. */
  function UniqueStudents(records: seq<Achievement>): nat {
    |CountTally(ApprovedOf(records), StudentName)|
  }

  /** The card counts the distinct names among the approved records. */
  lemma UniqueStudentsIsDistinctNames(records: seq<Achievement>)
    ensures UniqueStudents(records) == |set j | 0 <= j < |ApprovedOf(records)| :: ApprovedOf(records)[j].studentName|
  {
    var ap := ApprovedOf(records);
    TallySizeIsDistinctKeys(ap, StudentName);
    var byField := set j | 0 <= j < |ap| :: ap[j].studentName;
    forall x | x in KeySet(ap, StudentName) ensures x in byField {
      var j :| 0 <= j < |ap| && x == StudentName(ap[j]);
    }
    forall x | x in byField ensures x in KeySet(ap, StudentName) {
      var j :| 0 <= j < |ap| && x == ap[j].studentName;
      assert x == StudentName(ap[j]);
    }
    assert KeySet(ap, StudentName) == byField;
  }
}
