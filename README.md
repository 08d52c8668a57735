# Student achievement dashboard: a verified model of its record logic

The system is a single-page dashboard where students submit achievements (events, positions,
levels) and faculty approve or reject them. All of its decision logic is written inline in the
page components, over one record type and one sample data set. This project models that logic
in Dafny, one module per page:

- `SampleData`: the `Achievement` record with its closed vocabularies, the ten sample records
  and the student profile.
- `Leaderboard`: scoring, per-student aggregation, ranking, the podium split and each
  category's top student.
- `Analytics`: the status, category, level and position charts, the top departments and top
  students, and the unique-student figure.
- `Dashboard`: the overview cards, the charts over every status, and the recent submissions
  and approvals.
- `FacultyDashboard` and `RecordsPage`: the review pages. Each is a class that holds the
  record list as its state, offers filters, and has approve and reject handlers.
- `Review`: the approve and reject maps that both review pages share, plus the search test.
- `Notifications`: building the notification feed, and a class for the page's mark-read,
  mark-all-read, delete and filter operations.
- `Portfolio` and `Profile`: the student's own counts.

Helper modules model the JavaScript library calls the pages rely on:

- `Text`: `toLowerCase`, `includes`, and ordinal string comparison.
- `Seqs`: `filter`, `slice`, and sums.
- `Sorting`: the stable `Array.prototype.sort` with a comparator.
- `Grouping`: a `Map` used as an insertion-ordered counter.

The two loops that build maps (`getStudentStats`, and the department and student counters) are
methods with loop invariants. Each is proved equal to a reference function that aggregates per
key. The notification builder, which pushes inside a `forEach`, is a method proved against a
fold over the records. The review pages' handlers are methods on classes holding the record
list.

## Model

| member | source | states |
|---|---|---|
| SampleData.StatusNamesDistinct | src/data/sampleData.ts:2 | the three status spellings are distinct: equal names iff equal statuses |
| SampleData.CategoryNamesDistinct | src/data/sampleData.ts:7 | the four category spellings are distinct |
| SampleData.VocabulariesComplete | src/data/sampleData.ts:7-8 | every category is in the chart list; a level is one of the five listed levels iff it is in the level list |
| SampleData.StatusPartition | src/data/sampleData.ts:14 | pending + approved + rejected records = all records |
| SampleData.FixtureIdsDistinct | src/data/sampleData.ts:20-153 | the sample ids are pairwise distinct |
| SampleData.FixtureApprovalFields | src/data/sampleData.ts:20-153 | in the sample data, approval date and approver are present exactly on approved records |
| SampleData.FixtureDates | src/data/sampleData.ts:20-153 | every sample date is YYYY-MM-DD, and event date < submission date < approval date |
| SampleData.FixtureApproved | src/data/sampleData.ts:20-153 | the approved sample records are 1, 2, 3, 4, 7 and 9, in that order |
| SampleData.FixtureStatusCounts | src/data/sampleData.ts:20-153 | ten records: six approved, three pending, one rejected |
| Leaderboard.BasePointsIsFirstMatch | src/pages/Leaderboard.tsx:24-29 | base points are the points of the first keyword group (10/7/5/3) found in the lower-cased position, else 1 |
| Leaderboard.AwardIffHighPoints | src/pages/Leaderboard.tsx:42-44 | a position is an award iff it is worth at least 7 base points |
| Leaderboard.ScoreBounds | src/pages/Leaderboard.tsx:32-40 | every record adds between 1 and 50 points; the weight is looked up by the level string, so two records with the same position and level string score the same, and a string outside the table is weighted 1 |
| Leaderboard.LevelMultiplierByName | src/pages/Leaderboard.tsx:32-40 | a level string naming one of the five listed levels weighs as that level, however the record carries it |
| Leaderboard.RunnerUpIsNoAward | src/pages/Leaderboard.tsx:28 | "Runner-up" scores 3 and is not an award |
| Leaderboard.GoldMedalIsAward | src/pages/Leaderboard.tsx:25 | "Gold Medal" scores 10 and is an award |
| Leaderboard.TallyIsStats | src/pages/Leaderboard.tsx:11-47 | walking the records entry by entry gives exactly the per-student aggregates |
| Leaderboard.CountRecord | src/pages/Leaderboard.tsx:20-44 | one record's updates of its map entry: achievements +1, points + score, awards +1 on an award |
| Leaderboard.GetStudentStats | src/pages/Leaderboard.tsx:8-50 | the loop over approved records followed by the sort yields the ranking function |
| Leaderboard.StatsEntries | src/pages/Leaderboard.tsx:9-46 | one entry per student; each is that student's aggregate |
| Leaderboard.StatsInFirstAppearanceOrder | src/pages/Leaderboard.tsx:46 | map entries come in the order of each student's first approved record |
| Leaderboard.RankingEntries | src/pages/Leaderboard.tsx:12-18 | every row is its student's aggregate; its department comes from the student's first approved record |
| Leaderboard.RankingOnePerStudent | src/pages/Leaderboard.tsx:9-49 | exactly one row per distinct approved student name |
| Leaderboard.RankingSorted | src/pages/Leaderboard.tsx:49 | rows are non-increasing by points |
| Leaderboard.RankingStable | src/pages/Leaderboard.tsx:49 | rows with equal points keep the map's first-appearance order |
| Leaderboard.RankingAchievementsSum | src/pages/Leaderboard.tsx:11-20 | the rows' achievement counts sum to the number of approved records |
| Leaderboard.RankingBounds | src/pages/Leaderboard.tsx:20-44 | each row has awards <= achievements, at least one achievement, and points >= achievements |
| Leaderboard.RankingOnlyApproved | src/pages/Leaderboard.tsx:11 | the ranking of the approved records alone is the same ranking |
| Leaderboard.RankingIgnoresUnapproved | src/pages/Leaderboard.tsx:11 | adding a record that is not approved leaves the ranking unchanged |
| Leaderboard.PodiumSplit | src/pages/Leaderboard.tsx:61-62 | podium + table is the whole ranking, the podium has at most three rows, and no table row outscores a podium row |
| Leaderboard.FindWithRecord | src/pages/Leaderboard.tsx:241-243 | the index found is the first ranked student with a record in the list, or the end |
| Leaderboard.CategoryTopSpec | src/pages/Leaderboard.tsx:237-243 | a category has a top student iff it has an approved record, and that student is the earliest-ranked one with such a record |
| Leaderboard.CategoryStudentRanked | src/pages/Leaderboard.tsx:241-243 | a category with an approved record always finds a ranked student |
| Leaderboard.CategoryRecordApproved | src/pages/Leaderboard.tsx:238-240 | a category record's student has an approved record |
| Leaderboard.FixtureScoresRahul | src/pages/Leaderboard.tsx:24-44 | sample records 1-3 score 20, 9 and 15, and only 1 and 3 are awards |
| Leaderboard.FixtureScoresLater | src/pages/Leaderboard.tsx:24-44 | sample records 4, 7 and 9 score 10, 30 and 50, all awards |
| Leaderboard.FixtureTally | src/pages/Leaderboard.tsx:11-47 | on the sample data the map holds Rahul, Priya and Ankit, in that order |
| Leaderboard.FixtureRanking | src/pages/Leaderboard.tsx:8-49 | on the sample data the ranking is Rahul Sharma (74 points, 4 achievements, 3 awards), Ankit Verma (50), Priya Patel (10) |
| Analytics.StatusDataSum | src/pages/Analytics.tsx:31-34 | approved + pending + rejected bars = total |
| Analytics.CategoryData | src/pages/Analytics.tsx:37-41 | four bars, named Sports, Cultural, Technical, Academic in order |
| Analytics.CategoryDataSum | src/pages/Analytics.tsx:37-41 | the category bars count approved records only and sum to the approved count |
| Analytics.LevelData | src/pages/Analytics.tsx:44-48 | five bars, named College to International in order |
| Analytics.LevelDataSum | src/pages/Analytics.tsx:44-48 | level bars + approved records with another level string = approved count |
| Analytics.ListedLevelDataSum | src/pages/Analytics.tsx:44-48 | with only the five listed levels, the level bars sum to the approved count |
| Analytics.PositionData | src/pages/Analytics.tsx:86-96 | four bars, named Winner, Runner-up, Finalist, Participant in order |
| Analytics.BucketsCover | src/pages/Analytics.tsx:89-94 | every position falls in at least one bucket |
| Analytics.ParticipantOverlaps | src/pages/Analytics.tsx:91-94 | Participant never overlaps Finalist; it overlaps Winner or Runner-up only through the case-sensitive "1st"/"Gold" or "2nd"/"Silver" tests |
| Analytics.PositionDataBounds | src/pages/Analytics.tsx:86-96 | the position bars sum to at least the approved count, and each is at most the approved count |
| Analytics.GoldMedalBuckets | src/pages/Analytics.tsx:91-94 | "Gold Medal" is counted as both Winner and Participant |
| Analytics.FirstPlaceBuckets | src/pages/Analytics.tsx:91-94 | "1st place" is counted as both Winner and Participant |
| Analytics.CaseSensitiveBuckets | src/pages/Analytics.tsx:91-92 | "gold medal" and "SILVER" miss their buckets, but "WINNER" is a Winner |
| Analytics.PositionDataDoubleCounts | src/pages/Analytics.tsx:86-96 | as written: one approved "Gold Medal" record makes the position bars sum to 2 |
| Analytics.PositionTypeOf | src/pages/Analytics.tsx:86-96 | the corrected classification: the first bucket whose test accepts the position, else Participant |
| Analytics.ExclusivePositionData | src/pages/Analytics.tsx:86-96 | the corrected chart has the same four bars in the same order |
| Analytics.ExclusivePositionDataSum | src/pages/Analytics.tsx:86-96 | the corrected position bars sum to exactly the approved count |
| Analytics.ByCountTotalPreorder | src/pages/Analytics.tsx:72 | the comparator `b.count - a.count` is a total preorder |
| Analytics.CountBy | src/pages/Analytics.tsx:66-69 | the `forEach` counter loop builds the insertion-ordered per-key tally |
| Analytics.DeptData | src/pages/Analytics.tsx:66-73 | the department chart is the top five of the tally of approved records by department |
| Analytics.TopStudents | src/pages/Analytics.tsx:76-83 | the top-students list is the top five of the tally of approved records by student |
| Analytics.TopFiveSpec | src/pages/Analytics.tsx:70-73 | min(5, keys) entries, non-increasing by count, one per key, each count = that key's number of records > 0 |
| Analytics.TopFiveOmitted | src/pages/Analytics.tsx:70-73 | a key left out has no more records than any key shown |
| Analytics.TopFiveTies | src/pages/Analytics.tsx:66-73 | equal counts keep the tally's order, which is first-appearance order |
| Analytics.UniqueStudentsIsDistinctNames | src/pages/Analytics.tsx:147 | the unique-students figure is the number of distinct names among approved records |
| Dashboard.Cards | src/pages/Dashboard.tsx:23-28 | total = records, participations = approved, pending = pending records, awards <= participations, participations + pending <= total |
| Dashboard.AwardsAreApprovedAwards | src/pages/Dashboard.tsx:24-27 | the awards are exactly the approved records positioned "Winner", "1st Place" or "Gold Medal", each as many times as it occurs in the records, so the card counts them exactly |
| Dashboard.CategoryData | src/pages/Dashboard.tsx:31-35 | four slices, named in category order |
| Dashboard.CategoryDataSum | src/pages/Dashboard.tsx:31-35 | the category slices count every status and sum to the total |
| Dashboard.LevelData | src/pages/Dashboard.tsx:37-42 | five bars, named in level order |
| Dashboard.LevelDataSum | src/pages/Dashboard.tsx:37-42 | level bars + records with another level string = total |
| Dashboard.ListedLevelDataSum | src/pages/Dashboard.tsx:37-42 | with only listed levels, the level bars sum to the total |
| Dashboard.BySubmittedTotalPreorder | src/pages/Dashboard.tsx:46 | the submission-date comparator is a total preorder |
| Dashboard.ByApprovedTotalPreorder | src/pages/Dashboard.tsx:49 | the approval-date comparator is a total preorder |
| Dashboard.RecentSubmissionsSpec | src/pages/Dashboard.tsx:45-47 | min(5, n) records, latest first; shown + left out = all records; none left out was submitted later than one shown |
| Dashboard.RecentSubmissionsStable | src/pages/Dashboard.tsx:45-47 | submissions on the same date keep their order in the data |
| Dashboard.RecentApprovalsSpec | src/pages/Dashboard.tsx:48-50 | at most five approved records, latest approval first; shown + left out = approved; none left out was approved later than one shown |
| Dashboard.MissingApprovalDateSortsLast | src/pages/Dashboard.tsx:49 | after a record without an approval date, only undated or empty-dated records follow |
| Review.Approve | src/pages/FacultyDashboard.tsx:47-50 | approving keeps the list's length |
| Review.Reject | src/pages/FacultyDashboard.tsx:58-61 | rejecting keeps the list's length |
| Review.ApproveOnlyTouchesId | src/pages/FacultyDashboard.tsx:47-50 | the record with the id becomes approved with the given date and approver; every other record is unchanged |
| Review.RejectOnlyTouchesId | src/pages/FacultyDashboard.tsx:58-61 | the record with the id becomes rejected, with all other fields kept; other records are unchanged |
| Review.ReviewKeepsIds | src/pages/FacultyDashboard.tsx:47-61 | ids are kept, so unique ids stay unique |
| Review.UnknownIdIsNoOp | src/pages/FacultyDashboard.tsx:47-61 | an id no record has leaves the list unchanged, for approve and for reject |
| Review.ApproveIdempotent | src/pages/Records.tsx:46-53 | approving twice with the same date equals approving once |
| Review.RejectIdempotent | src/pages/Records.tsx:57-60 | rejecting twice equals rejecting once |
| Review.ApproveKeepsConsistency | src/pages/FacultyDashboard.tsx:47-50 | approval keeps "approval details present iff approved" |
| Review.RejectPendingKeepsConsistency | src/pages/FacultyDashboard.tsx:58-61 | rejecting a pending record keeps "approval details present iff approved" |
| Review.RejectApprovedKeepsApprovalDetails | src/pages/FacultyDashboard.tsx:58-61 | rejecting any approved record sets it to rejected and leaves its approval date and approver in place; with a date, the record no longer keeps the approval-field invariant |
| Review.RejectRecord1KeepsApprovalDetails | src/pages/FacultyDashboard.tsx:58-61 | rejecting sample record 1 leaves a rejected record with an approval date |
| Review.ApprovePendingCount | src/pages/FacultyDashboard.tsx:34-50 | approving removes from pending exactly the pending records with that id |
| Review.ApproveRejectedCount | src/pages/FacultyDashboard.tsx:36-50 | approving removes from rejected exactly the rejected records with that id |
| Review.ApproveCounts | src/pages/FacultyDashboard.tsx:34-50 | the three tab counts after approving, in terms of the records with that id |
| Review.ApprovePendingCounts | src/pages/FacultyDashboard.tsx:34-50 | with unique ids, approving a pending record moves exactly one record from pending to approved |
| Review.Apply | src/pages/FacultyDashboard.tsx:243-262 | a button press keeps the list's length |
| Review.Session | src/pages/FacultyDashboard.tsx:243-262 | a sequence of presses keeps the list's length |
| Review.OfferedTouchesOnlyPending | src/pages/FacultyDashboard.tsx:243-262 | a press on an offered button changes no decided record |
| Review.DecidedIsFinal | src/pages/FacultyDashboard.tsx:243-262 | with unique ids, a record that is not pending is never changed by any sequence of offered presses, so a record leaves pending at most once |
| Review.EmptySearchMatches | src/pages/FacultyDashboard.tsx:41-43 | the empty search matches every record |
| Review.SearchIgnoresCase | src/pages/FacultyDashboard.tsx:41-43 | the search result does not depend on the query's case |
| FacultyDashboard.FilterSubmissions | src/pages/FacultyDashboard.tsx:38-45 | an order-preserving subsequence holding exactly the records that pass the status, category and search filters, each passing record as many times as it occurs |
| FacultyDashboard.FilterSubmissionsDefault | src/pages/FacultyDashboard.tsx:38-45 | with both filters at "all" and an empty search, every submission is listed |
| FacultyDashboard.StatusFilterIsTab | src/pages/FacultyDashboard.tsx:34-45 | the status filter alone gives the pending, approved or rejected tab |
| FacultyDashboard.FacultyDashboardPage.constructor | src/pages/FacultyDashboard.tsx:27 | the page starts with the given records |
| FacultyDashboard.FacultyDashboardPage.TabsPartition | src/pages/FacultyDashboard.tsx:34-36 | the three tabs' sizes sum to the number of submissions |
| FacultyDashboard.FacultyDashboardPage.HandleApprove | src/pages/FacultyDashboard.tsx:47-50 | the new state is the old list approved at the id by "Admin" on the given date |
| FacultyDashboard.FacultyDashboardPage.HandleReject | src/pages/FacultyDashboard.tsx:58-61 | the new state is the old list rejected at the id |
| RecordsPage.FilterRecords | src/pages/Records.tsx:37-44 | an order-preserving subsequence holding exactly the records that pass the search, category and level filters, each passing record as many times as it occurs |
| RecordsPage.FilterRecordsDefault | src/pages/Records.tsx:37-44 | an empty search with both filters at "All" lists every record |
| RecordsPage.LowerCaseAllMatchesNothing | src/pages/Records.tsx:41 | the catch-all is "All" exactly; "all" matches no category |
| RecordsPage.RecordsView.constructor | src/pages/Records.tsx:32 | the page starts with the given records |
| RecordsPage.RecordsView.HandleApprove | src/pages/Records.tsx:46-53 | the new state is the old list approved at the id by "Admin User" on the given date |
| RecordsPage.RecordsView.HandleReject | src/pages/Records.tsx:57-60 | the new state is the old list rejected at the id |
| Notifications.ByTimestampTotalPreorder | src/pages/Notifications.tsx:78 | the timestamp comparator is a total preorder |
| Notifications.PushFor | src/pages/Notifications.tsx:23-57 | one record's pushes append exactly its notifications; the approval note needs a truthy (present, non-empty) approval date |
| Notifications.GenerateNotifications | src/pages/Notifications.tsx:20-79 | the push loop plus the two info notes and the sort yields the sorted feed, with approval notes only for approved records whose approval date is present and non-empty |
| Notifications.RecordNotesLength | src/pages/Notifications.tsx:23-57 | the per-record notes number records + approved with a non-empty date + rejected |
| Notifications.FeedLength | src/pages/Notifications.tsx:20-78 | the feed has records + approved with a non-empty date + rejected + 2 notifications |
| Notifications.FeedSorted | src/pages/Notifications.tsx:78 | the feed is non-increasing by timestamp |
| Notifications.NotesForDescribe | src/pages/Notifications.tsx:23-57 | one record gets a submission note stamped with its submission date, then an approval note (approved with a non-empty date), a rejection note (rejected), or nothing else (pending, or approved with an absent or empty date) |
| Notifications.RecordNotesAt | src/pages/Notifications.tsx:23-57 | a record's notes sit contiguously at its place in the pushed list |
| Notifications.FeedDescribesRecord | src/pages/Notifications.tsx:20-78 | every record's own notes, as described, are all in the feed |
| Notifications.NotesForRefer | src/pages/Notifications.tsx:32-54 | every note of a record refers to that record's id |
| Notifications.RecordNotesFromRecords | src/pages/Notifications.tsx:23-57 | every pushed note comes from one record and refers to it |
| Notifications.FeedNoteFromRecords | src/pages/Notifications.tsx:59-78 | a feed note with a record id is a record note, not an info note |
| Notifications.PendingNotes | src/pages/Notifications.tsx:36-56 | a pending record gets only its submission note |
| Notifications.UndatedApprovalNotes | src/pages/Notifications.tsx:36 | an approved record with an absent or empty approval date gets only its submission note |
| Notifications.PendingHasOnlySubmission | src/pages/Notifications.tsx:20-78 | with unique ids, every feed note about a pending record is its submission note |
| Notifications.MarkRead | src/pages/Notifications.tsx:87-91 | marking one id keeps the length |
| Notifications.MarkAllRead | src/pages/Notifications.tsx:93-95 | marking all keeps the length |
| Notifications.MarkReadSpec | src/pages/Notifications.tsx:87-91 | order kept, only notes with that id become read, idempotent, the unread count does not grow |
| Notifications.MarkReadUnread | src/pages/Notifications.tsx:85-91 | marking one id does not increase the unread count |
| Notifications.MarkAllReadSpec | src/pages/Notifications.tsx:93-95 | every note is kept with only its read flag set, and the unread count becomes 0 |
| Notifications.DeleteSpec | src/pages/Notifications.tsx:97-99 | order-preserving; exactly the notes with that id are removed |
| Notifications.DeleteCount | src/pages/Notifications.tsx:97-99 | kept + removed = all notes |
| Notifications.FilterAllTab | src/pages/Notifications.tsx:101-102 | "all" shows every note |
| Notifications.FilterUnreadTab | src/pages/Notifications.tsx:103-104 | "unread" shows exactly the unread notes, in order, each as many times as it occurs |
| Notifications.FilterTypeTab | src/pages/Notifications.tsx:105 | any other filter shows exactly the notes of that type, in order, each as many times as it occurs |
| Notifications.NotificationCenter.constructor | src/pages/Notifications.tsx:82 | the page starts with the generated, sorted feed, whose approval notes follow the truthy date test |
| Notifications.NotificationCenter.MarkAsRead | src/pages/Notifications.tsx:87-91 | the new state is the old feed marked at the id; the unread count does not grow |
| Notifications.NotificationCenter.MarkAllAsRead | src/pages/Notifications.tsx:93-95 | the new state is the old feed all read; the unread count is 0 |
| Notifications.NotificationCenter.DeleteNotification | src/pages/Notifications.tsx:97-99 | the new state is the old feed without the notes of that id |
| Portfolio.ApprovedAchievements | src/pages/Portfolio.tsx:24-26 | an order-preserving subsequence holding exactly the student's approved records, each as many times as it occurs, so nothing pending or rejected |
| Portfolio.Awards | src/pages/Portfolio.tsx:28-30 | awards <= portfolio entries |
| Portfolio.AwardsAreApprovedAwards | src/pages/Portfolio.tsx:28-30 | the awards are exactly the student's approved records positioned "Winner", "1st Place" or "Gold Medal", each as many times as it occurs, so the card counts them exactly |
| Portfolio.PortfolioIsApprovedProfile | src/pages/Portfolio.tsx:24-26 | the portfolio is the profile's record list restricted to approved records |
| Portfolio.FixturePortfolio | src/pages/Portfolio.tsx:24-26 | Rahul Sharma's portfolio is records 1, 2, 3 and 7 |
| Portfolio.FixturePortfolioCounts | src/pages/Portfolio.tsx:24-30 | on the sample data: four approved achievements and three awards |
| Profile.StudentAchievements | src/pages/Profile.tsx:7-9 | an order-preserving subsequence holding exactly the student's records, of every status, each as many times as it occurs |
| Profile.Cards | src/pages/Profile.tsx:38-48 | "Participations" = "Total" = the student's records, awards <= total |
| Profile.AwardsAreStudentAwards | src/pages/Profile.tsx:10-12 | the awards are exactly the student's records positioned "Winner" or "1st Place", each as many times as it occurs, so the card counts them exactly |
| Profile.GoldMedalIsNoProfileAward | src/pages/Profile.tsx:10-12 | "Gold Medal" is an award on the portfolio and dashboard but not here |
| Profile.FixtureProfile | src/pages/Profile.tsx:7-9 | Rahul Sharma's records are 1, 2, 3, 7 and 10 |
| Profile.FixtureProfileCards | src/pages/Profile.tsx:7-12 | on the sample data: five records and four awards |
| Grouping.CountTallyEntries | src/pages/Analytics.tsx:66-69 | the counter has one entry per key, each counting that key's records |
| Grouping.CountTallyNames | src/pages/Analytics.tsx:66-69 | a key has an entry iff some record has that key |
| Grouping.CountTallySum | src/pages/Analytics.tsx:66-69 | the counts sum to the number of records |
| Grouping.CountFoldIsTally | src/pages/Analytics.tsx:67-69 | the counter update (missing key as 0, plus one), record by record, builds the per-key tally |
| Grouping.TallySizeIsDistinctKeys | src/pages/Analytics.tsx:147 | the map's size is the number of distinct keys |
| Grouping.KeysInFirstAppearanceOrder | src/pages/Analytics.tsx:66-69 | map keys come in the order of their first record |
| Sorting.SortBySorted | src/pages/Analytics.tsx:72 | `sort` with a total-preorder comparator yields a sorted list |
| Sorting.SortByStable | src/pages/Leaderboard.tsx:49 | `sort` is stable: the elements tied with any value keep their order |
| Sorting.SumIntSort | src/pages/Leaderboard.tsx:49 | sorting does not change a field's sum |
| Sorting.TakeDominatesDrop | src/pages/Analytics.tsx:73 | after sorting, no element past the cut ranks above one before it |
| Seqs.FilterIsSubsequence | src/pages/FacultyDashboard.tsx:38 | `filter` returns an order-preserving subsequence |
| Seqs.FilterMultiplicity | src/pages/FacultyDashboard.tsx:38 | `filter` keeps every copy of a passing element and none of a failing one |
| Text.ContainsIff | src/pages/FacultyDashboard.tsx:41-43 | `includes` holds iff the text occurs at some offset |
| Text.StrLeTotal | src/pages/Dashboard.tsx:46 | ordinal string comparison is total |
| Text.StrLeTransitive | src/pages/Dashboard.tsx:46 | ordinal string comparison is transitive |

## Left out

- Rendering, icons, badges, dialogs and toasts are presentation only. So are `Settings`,
  `AddAchievement`, `Login`, the sidebar, the layout and the routing in `App`. Submitting a new
  achievement appends nothing, so it has no state to model.
- React state mechanics (`useState`, re-rendering): each handler is a method whose state is the
  class field that holds the list.
- `Math.random`:
  - The notification read flags are the parameter `coin`, indexed by the draw's position in the
    list being built.
  - The monthly chart (src/pages/Analytics.tsx:58-63) is random data and is not modelled.
- The wall-clock date of the approve handlers (`new Date().toISOString()`) is the parameter
  `today`.
- `localeCompare` is modelled as ordinal comparison. That is exact for the fixed-width ISO dates
  the pages compare and proved for the sample data (`SampleData.FixtureDates`). It is not
  exact for arbitrary strings.
- `toLowerCase` is modelled for ASCII letters only. There is no Unicode case folding.
- `toLocaleDateString` formatting is not modelled.
- Points are exact `real` values, not IEEE doubles. Every contribution is a multiple of 0.5, so
  doubles are exact at this scale.
- `Array.prototype.sort` is modelled on values, as a stable insertion-sort function with the
  same comparator, not as the in-place algorithm.
  - `Dashboard.RecentApprovals` sorts the derived `approved` list in place. Its order is
    not read again after the sort, so aliasing is not modelled.
  - `Dashboard.RecentSubmissions` sorts a copy, so the records are unchanged. On values
    this holds by construction.
- `Leaderboard.GetStudentStats` keeps the map as an insertion-ordered sequence of entries
  searched linearly, not as a hash map.
- The record type is checked at compile time only, so any level string can reach the pages.
  `Level.UnlistedLevel` carries such a string. Every page compares levels by their string,
  so an unlisted level spelled like a listed one behaves as that level. A string outside the
  five gets the `|| 1` multiplier default and falls in the uncharted-level terms of the chart
  sums.
- Leaderboard.LevelMultiplier: a level string that is an inherited `Object.prototype` key
  (`"constructor"`, `"toString"`, `"__proto__"` and the like) is weighted 1 here. In the
  source, such a key makes `levelMultiplier[level]` a function or an object, so the points
  become `NaN`. The model has no `NaN`, because points are exact `real` values.
- ScoreBounds: its bounds do not hold in the source for those prototype-key level strings,
  whose points are `NaN` there.

## Findings

| source | as written | input that shows it | evidently intended | confidence | as-written member | corrected member |
|---|---|---|---|---|---|---|
| src/pages/Analytics.tsx:86-96 | each position bucket is tested on its own; "Participant" only excludes lower-cased "winner", "runner" and "finalist" | one approved record positioned "Gold Medal" (sample record 9) is counted as Winner and as Participant, so the bars sum to 2 for 1 record | a position distribution: each approved record in exactly one bucket, bars summing to the approved count | not executed | Analytics.PositionDataDoubleCounts | Analytics.ExclusivePositionDataSum |
