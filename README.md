# kidsmart — a Dafny model of the homework helper's core logic

kidsmart is a single-page web application for parents. They upload photos of
a child's homework, which a language model grades; they review and correct
the grading, and the child practises follow-up questions. Progress pages then
summarise scores per child, per subject and over time. Everything is kept in
the browser: each entity type (children, assignments, practice questions,
tutors, the user) is one collection of JSON records.

This project models the deterministic logic behind those screens:

- the entity store: `list` with sort and limit, `filter`, `create`, `update`, `delete`, and the user's `updateMyUserData`;
- the cleanup routine that keeps the ten newest assignments;
- answer checking: exact for choice questions, normalised text for the rest;
- the practice session, the question card and the summary score;
- the review screen for correcting marks and the sanitising of the marking model's answer;
- the auto-generated assignment title;
- file validation and selection;
- the dashboard, progress, history and tutor filters;
- the achievement badges, the subject chart and the skills cloud;
- the page router.

Records are schemaless maps from field names to JSON values (`Json.Value`),
so missing fields, `null`, and strings where numbers were expected are
modelled explicitly. So are the JavaScript operators that read them: `===`,
truthiness, `String(x)`, `x.toString()`, `Number(x)`, `Math.round`, `<` on
dates, and `>=` on scores, which compares two strings as text and reads
anything else by `Number()`. The
`+` of a score sum is the exception: a string there would concatenate, and
the model reads it as NaN (see "Left out"). A
`TypeError` the source would throw becomes `None` (or an `Err` / `Crashed`
result). State that a React component or a store object updates in place is
a Dafny `class` with `modifies` clauses:

- `Entities.Store` and `Entities.UserStore`;
- `Practice.Session`;
- `QuestionCard.Card`;
- `Review.Interface`;
- `Upload.UploadForm`.

Derived values (filters, statistics, badges) are functions. Where the source
loops and updates an accumulator (the streak count, the subject `reduce`, the
skills `forEach`), the model is a method proved equal to a specification
function, and the properties are proved about that function.

Shared helpers:

- `Json` holds JSON values and JavaScript's reading of them.
- `Seqs` holds filter, map, count, sum and subsequence.
- `Sorting` is a stable sort by a key, which is what `Array.prototype.sort` produces with the comparators used here.
- `Text` holds ASCII lower-casing, trim, contains, split and capitalise.
- `Rounding` holds `Math.round(a / b)` on integers.
- `Grouping` holds grouping by key in order of first appearance.
- `Scores` reads score, child and date from an assignment.
- `Search` holds the shared "lower-cased includes" search and the "all" select filters.

## Model

| member | source | states |
|---|---|---|
| Entities.ParseSortBy | src/api/entities.js:27-29 | an empty name means unsorted; a leading `-` means descending on the rest of the name, otherwise ascending on the whole name |
| Entities.DefaultIsNewestFirst | src/api/entities.js:23 | `list()` without a `sortBy` sorts descending by `created_date` |
| Entities.SortedItemsPermutes | src/api/entities.js:27-45 | sorting keeps exactly the stored records, with multiplicity |
| Entities.ListedPermutes | src/api/entities.js:23-53 | `list` without a limit returns a permutation of the collection |
| Entities.ListedLimit | src/api/entities.js:47-50 | a positive limit takes the first `limit` sorted records, or all of them when fewer |
| Entities.ListedSubMultiset | src/api/entities.js:23-53 | `list` never returns a record that is not stored, nor more copies than stored |
| Entities.ListedSorted | src/api/entities.js:31-44 | with a sort field, the result is ordered by that field's key in the requested direction |
| Entities.ListedStable | src/api/entities.js:31-44 | records with equal keys keep their stored order (the sort is stable) |
| Entities.NullCriteriaIgnored | src/api/entities.js:58-59 | a criterion whose value is null or undefined matches every record |
| Entities.FilterNoCriteria | src/api/entities.js:55-63 | no criteria returns the whole collection |
| Entities.NewItem | src/api/entities.js:67-71 | the new record has the data's fields plus `id` and `created_date`, which override any given |
| Entities.FindIndex | src/api/entities.js:80 | -1 exactly when no record has the id; otherwise the first record with it |
| Entities.CreatedIsFound | src/api/entities.js:65-75 | a created record is found by its fresh id, at the end of the collection |
| Entities.FoundAfter | src/api/entities.js:80 | appending a record with an unused id makes it the first match |
| Entities.CreateKeepsUnique | src/api/entities.js:65-75 | creating with a fresh id keeps ids unique |
| Entities.DeleteUndoesCreate | src/api/entities.js:91-101 | deleting the id just created restores the collection |
| Entities.UpdateKeepsUnique | src/api/entities.js:86 | an update whose data has no `id` keeps ids unique |
| Entities.DeleteOneOfUnique | src/api/entities.js:93-95 | with unique ids, deleting an existing id removes exactly one record |
| Entities.Store.constructor | src/api/entities.js:17-21 | the store starts with the given collection |
| Entities.Store.List | src/api/entities.js:23-53 | the result is the sorted, limited collection: a sub-multiset, the whole multiset without a limit, `min(limit, n)` records with one, sorted by the field |
| Entities.Store.Filter | src/api/entities.js:55-63 | the result keeps exactly the matching records, in stored order, with their multiplicity; no criteria gives everything |
| Entities.Store.Create | src/api/entities.js:65-75 | the new record is appended to the collection and returned |
| Entities.Store.Update | src/api/entities.js:78-89 | an unknown id is an error and changes nothing; otherwise the first record with the id is shallow-merged with the data and returned, and the size is unchanged |
| Entities.Store.Delete | src/api/entities.js:91-101 | an unknown id is an error and changes nothing; otherwise every record with the id is removed and the rest are kept |
| Entities.MergedUser | src/api/entities.js:110-112 | the data's fields win; the user's other fields are kept; with no user the data alone |
| Entities.MergedUserIdempotent | src/api/entities.js:110-115 | saving the same data twice is the same as once |
| Entities.UserStore.constructor | src/api/entities.js:105-108 | the store starts with the given user |
| Entities.UserStore.UpdateMyUserData | src/api/entities.js:110-115 | the stored user becomes the merged user, which is returned |
| Json.Merge | src/api/entities.js:86 | object spread: the keys of both, the second's values winning |
| Json.ToStringCall | src/components/practice/QuestionCard.jsx:27-28 | `x.toString()` throws exactly on null and undefined, and is `String(x)` otherwise |
| Json.StringToNumber | src/pages/Upload.jsx:278-280 | `Number(s)` of a blank string is 0 |
| Json.ToNumber | src/pages/Upload.jsx:278-280 | `Number(x)`: a number as itself, null as 0, undefined and objects NaN |
| Json.TrimOfNumeral | src/pages/Upload.jsx:278-280 | a numeral without padding trims to itself |
| Json.NumberOfIntToString | src/pages/Upload.jsx:278-280 | `Number(String(n)) == n` |
| Json.ToNumberOfNumbers | src/pages/Upload.jsx:278-280 | numbers, numerals and booleans convert |
| Json.WordIsNaN | src/pages/Upload.jsx:278-280 | words and digits followed by words are NaN |
| Json.ToPrimitive | src/components/progress/RecentAchievements.jsx:40 | an array or object compares as its string form; other values as themselves |
| Json.ObjectStringIsNaN | src/components/progress/RecentAchievements.jsx:40 | `Number("[object Object]")` is NaN |
| Json.ToNumberOfPrimitive | src/components/progress/RecentAchievements.jsx:40 | the primitive of a value converts by `Number()` as the value does |
| Json.GreaterOrEqualNumber | src/pages/AssignmentsList.jsx:80 | `x >= n` against a number holds exactly when `Number(x)` is not NaN and at least `n` |
| Json.GreaterOrEqualNumbers | src/components/progress/RecentAchievements.jsx:40 | two numbers compare numerically |
| Json.GreaterOrEqualStrings | src/components/progress/RecentAchievements.jsx:40 | two strings compare as text |
| Json.StringLessIrreflexive | src/components/progress/RecentAchievements.jsx:40 | no string is less than itself, so equal string scores keep a streak |
| Json.StringLessTotal | src/components/progress/RecentAchievements.jsx:40 | of two different strings exactly one is less |
| Json.StringLessTransitive | src/components/progress/RecentAchievements.jsx:40 | the string order is transitive |
| Json.NumeralComparisons | src/components/progress/RecentAchievements.jsx:40 | `"95" >= 90` and `[95] >= 90` hold, `"95" >= "100"` holds as text, `95 >= 100` fails |
| Sorting.SortPermutes | src/api/entities.js:31-44 | the sort returns a permutation of its input |
| Sorting.SortSorted | src/api/entities.js:41-43 | the sort's output is ordered by the key in the direction |
| Sorting.SortStable | src/api/entities.js:31-44 | the sort keeps the input order of equal keys |
| Sorting.SortOfSorted | src/api/entities.js:31-44 | sorting already sorted input changes nothing |
| Sorting.KeyLtTotal | src/api/entities.js:41-42 | two different keys are ordered one way or the other |
| Sorting.KeyLtTransitive | src/api/entities.js:41-42 | the key order is transitive |
| Cleanup.KeptSize | src/api/functions.js:13 | the ten newest are kept, or all when fewer |
| Cleanup.KeptAndDroppedPartition | src/api/functions.js:9-13 | kept and dropped records together are exactly the stored ones |
| Cleanup.DeletedCount | src/api/functions.js:14 | the deleted count is `n - 10` when more than ten are stored, else 0 |
| Cleanup.KeptNewestFirst | src/api/functions.js:9-11 | the kept records are newest first |
| Cleanup.DatedMember | src/api/functions.js:9-11 | a permutation of dated records compares them by their timestamps |
| Cleanup.KeptAreMostRecent | src/api/functions.js:9-13 | no dropped record is newer than a kept one |
| Cleanup.CleanupIdempotent | src/api/functions.js:4-30 | cleaning up twice keeps the same records as once |
| Cleanup.CleanupOldAssignments | src/api/functions.js:4-23 | the store holds the kept records; the report counts the deleted and remaining ones |
| Answers.CheckAnswer | src/components/practice/QuestionCard.jsx:24-30 | it throws exactly when a text question has a null or undefined answer or key |
| Answers.Normalize | src/components/practice/QuestionCard.jsx:27-28 | the normal form is lower-case, trimmed and no longer than the input |
| Answers.ChoiceIsExact | src/components/practice/QuestionCard.jsx:24-25 | a choice question is correct exactly when the answer is strictly equal to the key |
| Answers.FreeTextIsNormalised | src/components/practice/QuestionCard.jsx:26-29 | a text question is correct exactly when the trimmed, lower-cased strings agree |
| Answers.FreeTextSymmetric | src/components/practice/QuestionCard.jsx:26-29 | answer and key can be swapped on a text question |
| Answers.NormalizeIdempotent | src/components/practice/QuestionCard.jsx:27-28 | normalising twice equals normalising once |
| Answers.NormalizeIgnoresCase | src/components/practice/QuestionCard.jsx:27-28 | lower-casing first does not change the normal form |
| Answers.FreeTextIgnoresPadding | src/components/practice/QuestionCard.jsx:28 | surrounding white space does not change the verdict |
| Answers.FreeTextIgnoresCase | src/components/practice/QuestionCard.jsx:28 | the letter case of the answer does not change the verdict |
| Answers.ChoiceIsCaseSensitive | src/components/practice/QuestionCard.jsx:24-25 | "b" for key "B" is wrong on a choice question |
| Answers.FillBlankExample | src/components/practice/QuestionCard.jsx:26-29 | " paris " for key "Paris" is right on a fill-in question |
| Answers.NumericAnswerExample | src/components/practice/QuestionCard.jsx:27-29 | " 12" for the numeric key 12 is right on a maths question |
| QuestionCard.VariantFor | src/components/practice/QuestionCard.jsx:35-42 | before answering, the selected option is highlighted; after, the key is green, a wrong selection red and the rest plain |
| QuestionCard.VariantsBeforeAnswer | src/components/practice/QuestionCard.jsx:36-37 | before answering, `default` exactly for the selected option |
| QuestionCard.VariantsAfterAnswer | src/components/practice/QuestionCard.jsx:39-41 | after answering: success for the key, destructive for another selected option, outline otherwise |
| QuestionCard.FillTypesAreNotChoices | src/components/practice/QuestionCard.jsx:56 | a fill-in type is never graded as a choice |
| QuestionCard.Card.constructor | src/components/practice/QuestionCard.jsx:10-12 | a card starts with no selection, unanswered |
| QuestionCard.Card.ShowQuestion | src/components/practice/QuestionCard.jsx:14-17 | a new question clears the selection and the answered flag |
| QuestionCard.Card.Select | src/components/practice/QuestionCard.jsx:85 | selecting changes the selection only while unanswered |
| QuestionCard.Card.Submit | src/components/practice/QuestionCard.jsx:19-33 | null or empty selections are ignored; otherwise the card is answered and reports the checked verdict, or crashes where the check throws |
| QuestionCard.Card.IsCorrectAnswer | src/components/practice/QuestionCard.jsx:44-54 | false before an answer or without a selection |
| QuestionCard.Card.ButtonVariant | src/components/practice/QuestionCard.jsx:35-42 | the card's option style: the selection before answering; the key green and a wrong pick red afterwards |
| QuestionCard.Card.IsFill | src/components/practice/QuestionCard.jsx:56 | a text box exactly for the three fill-in types, whose answers are checked as text |
| QuestionCard.Card.IsLastQuestion | src/components/practice/QuestionCard.jsx:58 | the last card is the one numbered as the total |
| QuestionCard.Card.SubmitThenFeedback | src/components/practice/QuestionCard.jsx:19-54 | the feedback shown after submitting agrees with the verdict sent |
| Practice.WorkingSetMembers | src/pages/Practice.jsx:46-52 | a session question is unfinished, the child's when one is chosen, and the subject's when one other than "all" is chosen |
| Practice.WorkingSet | src/pages/Practice.jsx:46-52 | never more than the loaded questions, and only the chosen subject's when one is chosen |
| Practice.WorkingSetOrdered | src/pages/Practice.jsx:46-52 | the session keeps the loaded order |
| Practice.IncompleteCompletedPartition | src/pages/Practice.jsx:85-86 | incomplete and completed questions split the loaded ones |
| Practice.LogEntry | src/pages/Practice.jsx:66 | the logged answer carries the answer and the verdict over the updated record |
| Practice.Refresh | src/pages/Practice.jsx:69 | every loaded question with the updated id is replaced by the update, the others kept |
| Practice.LoggedVerdictCounts | src/pages/Practice.jsx:59-66 | the summary counts a logged answer as correct exactly when it was |
| Practice.AnsweredLeavesIncomplete | src/pages/Practice.jsx:60-69 | an answered question leaves the incomplete list |
| Practice.Session.constructor | src/pages/Practice.jsx:30-43 | a session starts in setup with nothing loaded |
| Practice.Session.Load | src/pages/Practice.jsx:33-38 | the questions are the store's, newest first; the session state is unchanged |
| Practice.Session.StartSession | src/pages/Practice.jsx:45-57 | the working set is the filtered questions; index 0, no answers, active |
| Practice.Session.HandleAnswerSubmit | src/pages/Practice.jsx:59-70 | an unknown question is an error that changes nothing; otherwise the store's record is marked answered, logged and refreshed in the loaded list |
| Practice.Session.HandleNextQuestion | src/pages/Practice.jsx:72-78 | move to the next question, or finish after the last |
| Practice.Session.ResetSession | src/pages/Practice.jsx:80-83 | back to setup; nothing else changes |
| Practice.Session.CurrentQuestion | src/pages/Practice.jsx:133-143 | a question is shown exactly while active with a non-empty working set, and it is one of the working set |
| PracticeSummary.CorrectCount | src/components/practice/PracticeSummary.jsx:8 | never more than the number of answers |
| PracticeSummary.Score | src/components/practice/PracticeSummary.jsx:8-10 | a percentage, 0 without answers |
| PracticeSummary.ScoreFullIffAllCorrect | src/components/practice/PracticeSummary.jsx:8-10 | below 200 answers the score is 100 exactly when every answer is correct |
| PracticeSummary.AllCorrectScoresFull | src/components/practice/PracticeSummary.jsx:8-10 | all correct scores 100 |
| PracticeSummary.NoneCorrectScoresZero | src/components/practice/PracticeSummary.jsx:8-10 | none correct scores 0 |
| PracticeSummary.CorrectAnswerRaisesCount | src/components/practice/PracticeSummary.jsx:8 | one more correct answer raises the count by one |
| PracticeSummary.WrongAnswerKeepsCount | src/components/practice/PracticeSummary.jsx:8 | one more wrong answer leaves the count unchanged |
| Rounding.RoundDiv | src/components/dashboard/ChildrenProgress.jsx:18 | `Math.round(a / b)`: the nearest integer, halves rounded up |
| Rounding.RoundDivMonotone | src/components/dashboard/ChildrenProgress.jsx:18 | a larger total never gives a smaller rounded mean |
| Rounding.RoundDivExact | src/components/dashboard/ChildrenProgress.jsx:18 | an exact quotient is returned unchanged |
| Rounding.RoundDivBetween | src/components/dashboard/ChildrenProgress.jsx:18 | a mean of values in `[lo, hi]` rounds into `[lo, hi]` |
| Rounding.PercentBounds | src/components/practice/PracticeSummary.jsx:10 | a rounded share is a percentage |
| Rounding.PercentExtremes | src/components/practice/PracticeSummary.jsx:10 | all gives 100 and none gives 0 |
| Rounding.PercentFullOnlyIfAll | src/components/practice/PracticeSummary.jsx:10 | below 200, 100% means all |
| Rounding.PercentFullWithOneWrong | src/components/practice/PracticeSummary.jsx:10 | 199 of 200 already rounds to 100% |
| Rounding.PercentZeroWithOneRight | src/components/practice/PracticeSummary.jsx:10 | 1 of 201 rounds to 0% |
| Rounding.MeanBetween | src/components/dashboard/ChildrenProgress.jsx:16-18 | the rounded mean of values in `[lo, hi]` lies in `[lo, hi]` |
| Scores.ScoreOfAll | src/components/dashboard/ChildrenProgress.jsx:16 | one score per assignment, in order |
| Scores.AverageScore | src/components/dashboard/ChildrenProgress.jsx:14-19 | 0 for no assignments |
| Scores.AverageBetween | src/components/dashboard/ChildrenProgress.jsx:16-18 | scores in `[lo, hi]` average into `[lo, hi]` |
| Scores.AverageIsPercent | src/components/dashboard/ChildrenProgress.jsx:16-18 | percentages average to a percentage |
| Scores.SumOfEqual | src/components/dashboard/ChildrenProgress.jsx:16 | n equal scores k add up to n·k |
| Scores.AverageOfEqual | src/components/dashboard/ChildrenProgress.jsx:16-18 | equal scores average to that score |
| Scores.Addend | src/components/progress/SubjectPerformanceChart.jsx:18 | what `sum + s` adds: a number as itself, and where it is a number it is `Number(s)`; undefined is NaN |
| ChildrenProgress.GetChildProgress | src/components/dashboard/ChildrenProgress.jsx:12-21 | the total counts exactly the child's assignments; none gives zeros |
| ChildrenProgress.CountsOnlyTheChild | src/components/dashboard/ChildrenProgress.jsx:13 | the total is everything exactly when all are the child's, and 0 exactly when none are |
| ChildrenProgress.OtherChildHasNoEffect | src/components/dashboard/ChildrenProgress.jsx:13-19 | another child's assignment, before or after, changes nothing |
| ChildrenProgress.AverageIsPercent | src/components/dashboard/ChildrenProgress.jsx:16-19 | percentage scores give a percentage average |
| Dashboard.SelectedChildName | src/pages/Dashboard.jsx:101-103 | "All Children" for "all"; undefined for an unknown child |
| Dashboard.Filtered | src/pages/Dashboard.jsx:75-99 | the week's count is at most the child's assignments, the open practice count at most the child's questions, and the average is 0 without any this week |
| Dashboard.SelectionMembers | src/pages/Dashboard.jsx:76-82 | "all" keeps everything; otherwise exactly the child's records, in order |
| Dashboard.WeeklyCountsRecent | src/pages/Dashboard.jsx:87-89 | every shown assignment counts this week exactly when all are dated after the cutoff |
| Dashboard.CutoffIsExclusive | src/pages/Dashboard.jsx:88 | an assignment dated exactly at the cutoff is not counted |
| Dashboard.EarlierCutoffCountsMore | src/pages/Dashboard.jsx:84-96 | an earlier cutoff never counts fewer assignments |
| Dashboard.WeeklyAverageIsPercent | src/pages/Dashboard.jsx:91-97 | percentage scores give a percentage weekly average |
| Dashboard.PracticeCountIsOpenQuestions | src/pages/Dashboard.jsx:98 | open plus completed practice questions are all the child's questions |
| Dashboard.LoadedAssignments | src/pages/Dashboard.jsx:48 | at most the 50 newest assignments, newest first, all of them stored |
| Dashboard.Suggestions | src/pages/Dashboard.jsx:187 | the first three open questions, or all when fewer |
| Progress.CutoffFor | src/pages/Progress.jsx:80-95 | no cutoff exactly for "all" |
| Progress.FilteredAssignments | src/pages/Progress.jsx:75-101 | never more assignments than given |
| Progress.FilteredMembers | src/pages/Progress.jsx:75-101 | an assignment is shown exactly when it is the child's and, for a window, dated no earlier than its cutoff |
| Progress.AllWindowIsChildOnly | src/pages/Progress.jsx:77-79 | "all" applies no date filter |
| Progress.LaterCutoffKeepsFewer | src/pages/Progress.jsx:97 | a later cutoff keeps a subsequence |
| Progress.WindowsNest | src/pages/Progress.jsx:82-97 | week ⊑ month ⊑ quarter ⊑ all, as subsequences |
| Progress.OverallAverage | src/pages/Progress.jsx:109-111 | 0 without assignments; a percentage for percentage scores |
| Progress.AllOfAppend | src/pages/Progress.jsx:106-107 | strengths concatenate in assignment order |
| Progress.AllOf | src/pages/Progress.jsx:106-107 | no strengths when no assignment has a truthy list |
| Progress.MissingListIsEmpty | src/pages/Progress.jsx:106-107 | an assignment without the list contributes nothing |
| Progress.AllOfMembers | src/pages/Progress.jsx:106-107 | a value is listed exactly when some assignment's list holds it |
| Progress.DefaultChild | src/pages/Progress.jsx:66-68 | an existing selection, or an empty child list, keeps the selection |
| Progress.UrlChild | src/pages/Progress.jsx:42-53 | the selection changes only to the URL's child |
| Progress.SelectionRules | src/pages/Progress.jsx:42-68 | a URL naming a loaded child wins; otherwise the first child when none was selected, else the selection stays |
| SubjectChart.MeanOfValues | src/components/progress/SubjectPerformanceChart.jsx:18 | a number exactly when there are scores and all are numeric |
| SubjectChart.GroupBySubject | src/components/progress/SubjectPerformanceChart.jsx:7-14 | the accumulator holds one group per subject, in order of first appearance, with that subject's scores and count |
| SubjectChart.BuildSubjectData | src/components/progress/SubjectPerformanceChart.jsx:7-20 | the bars are the subject data function |
| SubjectChart.StepKeys | src/components/progress/SubjectPerformanceChart.jsx:8 | a new subject is appended to the key order, a known one is not |
| SubjectChart.StepGroup | src/components/progress/SubjectPerformanceChart.jsx:9-11 | one more assignment grows only its own subject's group |
| SubjectChart.CountsSumToTotal | src/components/progress/SubjectPerformanceChart.jsx:7-20 | the bar counts add up to the number of assignments |
| SubjectChart.OneEntryPerSubject | src/components/progress/SubjectPerformanceChart.jsx:16-20 | one bar per distinct subject, in first-appearance order, capitalised, counting its assignments, at least one |
| SubjectChart.MeanIsPercent | src/components/progress/SubjectPerformanceChart.jsx:18 | percentage scores have a percentage mean |
| SubjectChart.MissingScoreIsNaN | src/components/progress/SubjectPerformanceChart.jsx:18 | one missing score makes the mean NaN |
| SubjectChart.GetBarColor | src/components/progress/SubjectPerformanceChart.jsx:22-27 | green from 90, blue from 80, amber from 70, red below or NaN |
| SubjectChart.BarColorMonotone | src/components/progress/SubjectPerformanceChart.jsx:22-27 | a higher score never gets a lower colour |
| Achievements.PerfectScoreRule | src/components/progress/RecentAchievements.jsx:21-34 | a badge exactly when some score is 100, naming the first such assignment |
| Achievements.PerfectPart | src/components/progress/RecentAchievements.jsx:21-34 | at most one perfect-score badge |
| Achievements.StreakFrom | src/components/progress/RecentAchievements.jsx:39-45 | the run never passes the end |
| Achievements.Streak | src/components/progress/RecentAchievements.jsx:38-45 | the streak is shorter than the list |
| Achievements.StreakFromMeaning | src/components/progress/RecentAchievements.jsx:39-45 | each step of the run does not decrease, and the step after it does |
| Achievements.StreakMeaning | src/components/progress/RecentAchievements.jsx:38-45 | the streak counts the leading non-decreasing steps and stops at the first drop |
| Achievements.FullStreak | src/components/progress/RecentAchievements.jsx:38-45 | a non-decreasing list has streak `n - 1` |
| Achievements.ByDateOrders | src/components/progress/RecentAchievements.jsx:37 | the date sort is a permutation in ascending date order |
| Achievements.StreakRule | src/components/progress/RecentAchievements.jsx:37-58 | the streak badge appears exactly when the first three dated scores do not decrease under `>=` (text order for two strings, `Number()` otherwise) |
| Achievements.StreakPart | src/components/progress/RecentAchievements.jsx:37-58 | at most one streak badge, none for fewer than three assignments |
| Achievements.SubjectDate | src/components/progress/RecentAchievements.jsx:78 | undefined when no assignment has the subject |
| Achievements.SubjectDateIsFirst | src/components/progress/RecentAchievements.jsx:78 | the date of the first assignment with the subject |
| Achievements.MasteryRule | src/components/progress/RecentAchievements.jsx:61-81 | a mastery badge exactly for each subject whose mean is at least 90 over at least two scores |
| Achievements.MasteredIsGreen | src/components/progress/RecentAchievements.jsx:68-69 | a mastered subject's chart bar is green |
| Achievements.RoundedNinetyIsNotMastery | src/components/progress/RecentAchievements.jsx:68-73 | 90 and 89 show a rounded 90 but are not mastery |
| Achievements.OneScoreIsNotMastery | src/components/progress/RecentAchievements.jsx:69 | one score is never mastery |
| Achievements.Improvement | src/components/progress/RecentAchievements.jsx:88 | the difference of the two scores read by `Number()`, NaN exactly when either is NaN |
| Achievements.ImprovementOfNumerals | src/components/progress/RecentAchievements.jsx:88 | `"95" - "80"` is 15, and a missing score gives NaN |
| Achievements.QuickLooksAtThree | src/components/progress/RecentAchievements.jsx:84-102 | only the first three assignments matter; badge exactly when `Number()` of the newest score beats that of the third by 15 |
| Achievements.QuickPart | src/components/progress/RecentAchievements.jsx:84-102 | at most one quick-learner badge, none for fewer than three assignments |
| Achievements.ConsistentLooksAtFive | src/components/progress/RecentAchievements.jsx:105 | only the first five assignments matter |
| Achievements.ConsistentRule | src/components/progress/RecentAchievements.jsx:105-118 | with 3 to 5 assignments, the badge exactly when every score reads by `Number()` as at least 80 |
| Achievements.ConsistentPart | src/components/progress/RecentAchievements.jsx:105-118 | at most one consistency badge, none for fewer than three assignments |
| Achievements.ChampionPart | src/components/progress/RecentAchievements.jsx:121-132 | the badge exactly when there are at least ten assignments overall |
| Achievements.CountStreak | src/components/progress/RecentAchievements.jsx:38-45 | the loop computes the streak function |
| Achievements.CollectMastery | src/components/progress/RecentAchievements.jsx:61-81 | the loops compute the mastery badges |
| Achievements.GenerateAchievements | src/components/progress/RecentAchievements.jsx:17-137 | the method computes the shown badges |
| Achievements.NewestFour | src/components/progress/RecentAchievements.jsx:134-136 | any badge list cut to its four newest: the right length, sorted newest first, drawn from the list, the whole list when it is short |
| Achievements.ShownRule | src/components/progress/RecentAchievements.jsx:134-136 | at most four badges, newest first, all collected, and all of them when four or fewer |
| Achievements.Shown | src/components/progress/RecentAchievements.jsx:134-136 | at most four badges; none without assignments and with fewer than ten in all |
| Achievements.NoAssignments | src/components/progress/RecentAchievements.jsx:17-137 | with no assignments only the champion badge can appear |
| SkillsCloud.MatchAt | src/components/progress/SkillsCloud.jsx:20-33 | a match exactly when one synonym occurs as a whole word there |
| SkillsCloud.NoMatchUnchanged | src/components/progress/SkillsCloud.jsx:20-33 | no match leaves the text unchanged |
| SkillsCloud.ReplacesLeadingWord | src/components/progress/SkillsCloud.jsx:20-33 | a leading whole-word synonym is replaced |
| SkillsCloud.WholeWordsOnly | src/components/progress/SkillsCloud.jsx:20-33 | "add" does not match inside "adding" |
| SkillsCloud.AddingIsAddition | src/components/progress/SkillsCloud.jsx:20-33 | "Adding" normalises to "addition" |
| SkillsCloud.KeyIgnoresCaseAndPadding | src/components/progress/SkillsCloud.jsx:17 | the skill key ignores padding and case |
| SkillsCloud.Words | src/components/progress/SkillsCloud.jsx:15 | never more words than skills |
| SkillsCloud.ShortestIsFirstShortest | src/components/progress/SkillsCloud.jsx:40-42 | the display name is the first of the shortest spellings |
| SkillsCloud.Shortest | src/components/progress/SkillsCloud.jsx:40-42 | the display name is one of the spellings and no longer than any |
| SkillsCloud.CountSkills | src/components/progress/SkillsCloud.jsx:10-43 | the loop's maps hold, per key, the count and the first shortest spelling |
| SkillsCloud.CountStep | src/components/progress/SkillsCloud.jsx:36-42 | one more word grows its own key's count and may shorten its name |
| SkillsCloud.CountsStep | src/components/progress/SkillsCloud.jsx:36-37 | after one more word, each key's count is its number of words |
| SkillsCloud.NamesStep | src/components/progress/SkillsCloud.jsx:40-42 | after one more word, each key's name is its first shortest spelling |
| SkillsCloud.CountedStep | src/components/progress/SkillsCloud.jsx:36-42 | one loop step keeps the counting invariant |
| SkillsCloud.SummarizeWith | src/components/progress/SkillsCloud.jsx:7-53 | the method computes the summary function |
| SkillsCloud.WordsStep | src/components/progress/SkillsCloud.jsx:15 | one more skill adds its word exactly when it is a non-empty string |
| SkillsCloud.KeysStep | src/components/progress/SkillsCloud.jsx:36 | a new key is appended, a known one is not |
| SkillsCloud.TopAreTallies | src/components/progress/SkillsCloud.jsx:46-52 | every badge is one key's tally |
| SkillsCloud.SummaryShape | src/components/progress/SkillsCloud.jsx:46-52 | at most the limit of badges, counts non-increasing and at least one |
| SkillsCloud.NoSkills | src/components/progress/SkillsCloud.jsx:8 | no skills give no badges |
| SkillsCloud.WordsAreSkills | src/components/progress/SkillsCloud.jsx:15 | every word comes from the input |
| SkillsCloud.NameOfKey | src/components/progress/SkillsCloud.jsx:40-42 | a key's name is one of its spellings, the shortest |
| SkillsCloud.BadgeNames | src/components/progress/SkillsCloud.jsx:46-52 | each badge shows the shortest input spelling of its key |
| SkillsCloud.TallySumIsTotalSize | src/components/progress/SkillsCloud.jsx:36-37 | the tallies add up to the group sizes |
| SkillsCloud.CountsAddUp | src/components/progress/SkillsCloud.jsx:36-52 | tallies add up to the number of words; the shown badges to at most that, and exactly that when all fit |
| SkillsCloud.SkipsNonSkills | src/components/progress/SkillsCloud.jsx:15 | a non-string or empty skill is ignored |
| SkillsCloud.SummarizeSkills | src/components/progress/SkillsCloud.jsx:7-53 | the method computes the summary with the source's synonym table |
| Search.LowerIncludes | src/pages/AssignmentsList.jsx:63 | throws exactly on a non-string; otherwise case-insensitive containment |
| Search.EitherIncludes | src/pages/AssignmentsList.jsx:62-65 | a hit on the first field, or on the second when the first is a string; throws as `||` would |
| Search.FilterOrThrow | src/pages/AssignmentsList.jsx:62-65 | succeeds exactly when no test throws, then filters |
| Search.Selected | src/pages/AssignmentsList.jsx:68-74 | "all" keeps everything |
| Search.SelectedRule | src/pages/AssignmentsList.jsx:68-74 | otherwise exactly the records whose field is the selection, in order |
| Search.SearchRule | src/pages/AssignmentsList.jsx:61-66 | the search keeps exactly the hits, in order, and never throws on string fields |
| Search.DistinctFieldRule | src/components/practice/PracticeHistoryView.jsx:27 | each value once, in order of first appearance, exactly the values present |
| Search.Subjects | src/pages/AssignmentsList.jsx:96 | the subject choices: each subject once, exactly those present; the history view uses the same list |
| AssignmentsList.FilterAssignments | src/pages/AssignmentsList.jsx:58-77 | no search never throws |
| AssignmentsList.FilterRule | src/pages/AssignmentsList.jsx:58-77 | shown exactly when the search hits and the child and subject selections match |
| AssignmentsList.FilterKeepsOrder | src/pages/AssignmentsList.jsx:58-77 | the shown list is a subsequence; no filters show everything |
| AssignmentsList.SearchOfStrings | src/pages/AssignmentsList.jsx:61-66 | string titles and subjects never throw |
| AssignmentsList.MissingTitleThrows | src/pages/AssignmentsList.jsx:63 | a missing title throws when searching |
| AssignmentsList.GetChildName | src/pages/AssignmentsList.jsx:91-94 | the first matching child's name, "Unknown" when none |
| AssignmentsList.ScoreTier | src/pages/AssignmentsList.jsx:79-89 | star from 90, check from 70, alert below or NaN, the score read by `Number()` |
| AssignmentsList.NumeralScoreTier | src/pages/AssignmentsList.jsx:79-89 | a stored `"95"` gets a star, and an empty string an alert |
| AssignmentsList.ScoreTierMonotone | src/pages/AssignmentsList.jsx:79-89 | a higher score never gets a lower tier |
| HistoryView.FilterRule | src/components/practice/PracticeHistoryView.jsx:13-25 | shown exactly when child and subject selections match; a subsequence; "all" shows everything |
| HistoryView.FiltersCommute | src/components/practice/PracticeHistoryView.jsx:16-22 | the two filters can be applied in either order |
| HistoryView.FilteredQuestions | src/components/practice/PracticeHistoryView.jsx:13-25 | never more than the completed questions, only the chosen subject's, and all of them for "all" |
| FindTutor.SubjectsInclude | src/pages/FindTutor.jsx:39 | array membership for an array; throws exactly when neither array nor string |
| FindTutor.FilterTutors | src/pages/FindTutor.jsx:28-43 | no filters show every tutor |
| FindTutor.FilterRule | src/pages/FindTutor.jsx:28-43 | shown exactly when the search hits name or bio and the subject is taught; a subsequence |
| FindTutor.MissingSubjectsThrow | src/pages/FindTutor.jsx:39 | a tutor without subjects throws under a subject filter |
| FindTutor.LoadedTutors | src/pages/FindTutor.jsx:48 | all tutors, best rated first |
| AddChildForm.Or | src/components/children/AddChildForm.jsx:11-15 | `v || d`: v when truthy, else d |
| AddChildForm.Initial | src/components/children/AddChildForm.jsx:10-16 | a new form is blank with language "english"; an edited child pre-fills name, grade and language or their defaults, the age as its string, and an array of subjects |
| AddChildForm.Submit | src/components/children/AddChildForm.jsx:23-31 | blocked exactly when name, age or grade is missing; otherwise the form's fields are sent |
| AddChildForm.EditKeepsAge | src/components/children/AddChildForm.jsx:12-29 | editing a child submits its numeric age back |
| AddChildForm.NewFormIsBlocked | src/components/children/AddChildForm.jsx:25 | a blank form cannot be submitted |
| AddChildForm.ToggleSubject | src/components/children/AddChildForm.jsx:33-40 | checking appends the subject; unchecking removes every copy; nothing else changes |
| AddChildForm.UncheckKeepsOthers | src/components/children/AddChildForm.jsx:38 | unchecking keeps every other subject, in order |
| AddChildForm.CheckTwiceDuplicates | src/components/children/AddChildForm.jsx:37 | checking twice lists the subject twice more |
| AddChildForm.CheckThenUncheck | src/components/children/AddChildForm.jsx:36-38 | checking then unchecking equals unchecking |
| FileUploadZone.ValidateFile | src/components/upload/FileUploadZone.jsx:11-25 | a rejected file has neither a supported type nor a supported lower-cased extension |
| FileUploadZone.ValidateIgnoresNameCase | src/components/upload/FileUploadZone.jsx:19-21 | the extension test ignores case |
| FileUploadZone.UpperCaseExtensionAccepted | src/components/upload/FileUploadZone.jsx:19-24 | "SCAN.PDF" is accepted whatever its type |
| FileUploadZone.ExactLimitIsAllowed | src/components/upload/FileUploadZone.jsx:45-51 | exactly 5 MB is allowed, one byte more is not |
| FileUploadZone.HandleIncoming | src/components/upload/FileUploadZone.jsx:37-104 | too large exactly when some file is over 5 MB; an accepted batch extends the selection with valid files; otherwise none was valid |
| FileUploadZone.AcceptedIsCurrentThenValid | src/components/upload/FileUploadZone.jsx:53-64 | the selection becomes the current files, then the valid ones in order |
| FileUploadZone.ValidAndUnsupportedSplitBatch | src/components/upload/FileUploadZone.jsx:53-58 | valid and unsupported files split the batch |
| FileUploadZone.HandleRemoveFile | src/components/upload/FileUploadZone.jsx:106-109 | removes exactly the file at the index, nothing for a bad index |
| FileUploadZone.RemoveUndoesAdd | src/components/upload/FileUploadZone.jsx:60-109 | removing the file just added restores the selection |
| Review.Edited | src/components/upload/ReviewAndCorrectInterface.jsx:17-34 | only an answer edit can throw; the field takes the value and every other field but `is_correct` is kept |
| Review.EditSetsField | src/components/upload/ReviewAndCorrectInterface.jsx:19-22 | the edited field holds the new value |
| Review.EditRegrades | src/components/upload/ReviewAndCorrectInterface.jsx:25-34 | editing an answer field re-checks the answer; it throws exactly when the check does |
| Review.EditKeepsGrade | src/components/upload/ReviewAndCorrectInterface.jsx:25 | other fields keep the grade and never throw |
| Review.EditIsLocal | src/components/upload/ReviewAndCorrectInterface.jsx:17-34 | no other field changes |
| Review.Recalculate | src/components/upload/ReviewAndCorrectInterface.jsx:40-45 | the total is the number of questions, the correct count at most that, the score a percentage, 0 without questions |
| Review.RecalculateExtremes | src/components/upload/ReviewAndCorrectInterface.jsx:41 | all correct exactly when every question is, none exactly when no question is |
| Review.QuestionsValue | src/components/upload/ReviewAndCorrectInterface.jsx:51 | the questions as a JSON array, in order |
| Review.OptionLetter | src/components/upload/ReviewAndCorrectInterface.jsx:92 | letter `65 + i` |
| Review.OptionLetters | src/components/upload/ReviewAndCorrectInterface.jsx:91-92 | one letter per option from "A" for a choice question with options, none otherwise |
| Review.Interface.constructor | src/components/upload/ReviewAndCorrectInterface.jsx:13-15 | editing starts from the review's questions, unchanged |
| Review.Interface.UpdateQuestion | src/components/upload/ReviewAndCorrectInterface.jsx:17-38 | the edit replaces exactly one question and marks changes; a throwing regrade changes nothing |
| Review.Interface.HandleSave | src/components/upload/ReviewAndCorrectInterface.jsx:47-57 | the review data with the edited questions and the recalculated counts |
| Upload.NumberOr | src/pages/Upload.jsx:278-280 | `Number(x) || d`: d for NaN, and the number when it is not 0 |
| Upload.CleanArrayOfStrings | src/pages/Upload.jsx:269-275 | no array gives none; never more items; every item trimmed, non-empty and under 500 characters |
| Upload.CleanedMembers | src/pages/Upload.jsx:269-275 | kept exactly the trimmed non-null items of length 1 to 499 |
| Upload.CleanedKeepsOrder | src/pages/Upload.jsx:269-275 | kept in input order |
| Upload.AsValues | src/pages/Upload.jsx:282-284 | the cleaned strings as JSON strings |
| Upload.CleanOfClean | src/pages/Upload.jsx:269-275 | clean strings pass unchanged |
| Upload.TrimOfClean | src/pages/Upload.jsx:273 | a clean string trims to itself |
| Upload.CleanIdempotent | src/pages/Upload.jsx:269-275 | cleaning twice equals cleaning once |
| Upload.CleanExample | src/pages/Upload.jsx:269-275 | null, blank and undefined items go; " x " becomes "x" |
| Upload.Feedback | src/pages/Upload.jsx:281 | exactly the first 2000 characters of the trimmed feedback or default, or all of it when shorter |
| Upload.ShortFeedbackIsTrimmed | src/pages/Upload.jsx:281 | feedback within the limit is fully trimmed |
| Upload.MissingFeedbackIsDefault | src/pages/Upload.jsx:281 | missing or empty feedback is "Assignment analyzed" |
| Upload.BlankFeedbackIsEmpty | src/pages/Upload.jsx:281 | white-space feedback is empty |
| Upload.CleanGradingResult | src/pages/Upload.jsx:277-286 | at least one question, no negative correct count, a score from 0 to 100, bounded feedback, cleaned lists |
| Upload.CleanedDefaults | src/pages/Upload.jsx:277-286 | an empty result cleans to 1 question, 0 correct, 0% and the default feedback |
| Upload.CleanedNumbers | src/pages/Upload.jsx:278-280 | numeric fields are clamped as the source does |
| Upload.CorrectMayExceedTotal | src/pages/Upload.jsx:278-279 | the correct count is not capped by the total |
| Upload.CleanedReadsNumericStrings | src/pages/Upload.jsx:278 | a numeral for the total is read as its number |
| Upload.AutoTitle | src/pages/Upload.jsx:36-49 | nothing changes without child, subject or children, or for an unknown child |
| Upload.BeforeFirstOfJoin | src/pages/Upload.jsx:40 | the first word of a joined name |
| Upload.TitleJoin | src/pages/Upload.jsx:46 | the title starts with the first name, then " - subject - ", and ends with the date |
| Upload.TitleParts | src/pages/Upload.jsx:38-46 | a set title is the selected child's first name, the capitalised subject and the date |
| Upload.PracticeSkills | src/pages/Upload.jsx:336 | the first three weaknesses, or all when fewer |
| Upload.UploadForm.constructor | src/pages/Upload.jsx:20-29 | the form starts empty and idle |
| Upload.UploadForm.AddFiles | src/pages/Upload.jsx:61-73 | the chosen files are appended and the error cleared; nothing else changes |
| Upload.UploadForm.RemoveFile | src/pages/Upload.jsx:75-77 | the file at the index is removed, a subsequence remains |
| Upload.UploadForm.ClearAllFiles | src/pages/Upload.jsx:79-81 | no files remain; nothing else changes |
| Upload.UploadForm.BeginProcessing | src/pages/Upload.jsx:83-96 | starts exactly when files, child, title and subject are set; otherwise reports the error; a start resets the counts to `files + 2` |
| Upload.UploadForm.SyncTitle | src/pages/Upload.jsx:36-49 | the title becomes the auto title when one is made; a non-text name throws |
| Routing.FindPage | src/pages/index.jsx:62 | -1 exactly when no page name matches case-insensitively; otherwise the first match |
| Routing.Resolve | src/pages/index.jsx:62-63 | always one of the pages |
| Routing.CurrentPage | src/pages/index.jsx:53-64 | always one of the pages |
| Routing.LastPart | src/pages/index.jsx:53-60 | the segment holds no `/` and no `?` |
| Routing.LowerNamesDistinct | src/pages/index.jsx:27-51 | no two page names agree case-insensitively |
| Routing.ResolveName | src/pages/index.jsx:62 | a name in any case resolves to its page |
| Routing.ResolveUnknown | src/pages/index.jsx:63 | an unknown segment is the dashboard |
| Routing.AfterLastOfSegment | src/pages/index.jsx:57 | the last segment after the final slash |
| Routing.BeforeFirstOfQuery | src/pages/index.jsx:58-60 | the segment before the query |
| Routing.LastSegmentNamesPage | src/pages/index.jsx:54-60 | trailing slash and query string do not change the segment |
| Routing.RootIsDashboard | src/pages/index.jsx:53-64 | "/", "" and a path ending in "//" show the dashboard |
| Routing.NamesArePlain | src/pages/index.jsx:27-51 | page names are non-empty with no slash or question mark |
| Routing.PageUrls | src/pages/index.jsx:53-64 | a page's URL, with a trailing slash, or lower-cased with a query, shows that page |

## Left out

- Persistence: `localStorage` reads and writes become the store object's fields. JSON round-tripping of records is not modelled.
- Fresh ids and the clock: `generateId()` and `new Date()` are parameters of `Create`, the dashboard week cutoff, the progress cutoffs and the title's date string.
- Dates: `created_date` is stored as a numeric timestamp. Parsing ISO strings is not modelled, and a missing or non-numeric date sorts as timestamp 0 and is an invalid date in the date filters. Calendar arithmetic (`setDate`, `setMonth`) is left to the caller, who supplies the cutoffs.
- Asynchrony: `await`, `Promise.all`, loading flags and the console logging are left out. Each handler is one atomic step.
- Rendering: JSX, CSS, icons, badge colours and texts, and the charts' layout are not modelled. The assignment detail and score trend views are not part of this model.
- Grading pipeline: the per-page OCR extraction, the language-model calls, their retries and error texts, and the save loop of `processAssignment` are foreign calls. Only the start of processing and the sanitising of the marking model's answer are modelled.
- Floating point: scores and counts are integers, and `Math.round(a / b)` is exact rational rounding. `Number(...)` parses integer numerals only (no decimals, exponents, hex or Infinity).
- Text: `toLowerCase`, `toUpperCase` and `trim` act on ASCII letters and ASCII white space only.
- File upload zone: drag state, input reset and the alert texts are not modelled.
- Cascading deletes of a child's assignments (done by the children page) are not part of this model.
- Entities.Store.List: requires that the stored sort-field values be mutually comparable (all numeric, or all strings for a non-date field). JavaScript's `sort` with an inconsistent comparator has no specified order.
- Practice.Session.Load: the same comparability requirement on `created_date`.
- Cleanup.CleanupOldAssignments: requires every assignment to carry a numeric date. The failure branch, which returns `success: false`, can only be reached through a storage error and is not modelled.
- Entities.Store.Update: only the first record with the id is merged, as `findIndex` does. The store does not itself keep ids unique.
- PracticeSummary.ScoreFullIffAllCorrect: holds only below 200 answers. `Math.round(199 / 200 * 100)` is 100, so one wrong answer in 200 still shows 100% (Rounding.PercentFullWithOneWrong).
- Scores.ScoreOf: a missing score, and any non-number score, counts as 0, where JavaScript would add a truthy string or boolean itself.
- SubjectChart.MeanOfValues: a string or array score makes the mean NaN, where JavaScript's `+` would concatenate. For example one score `"95"` gives `"095" / 1`, which is 95.
- Achievements.MasteryRule: the same applies to the mastery mean. A string score makes the subject unmastered here, where the concatenated sum could pass the test.
- Json.StringLess: compares characters, which is JavaScript's UTF-16 code-unit order for every character below U+10000.
- Json.StringToNumber: reads integer numerals only, so `Number("95.5")` is NaN here.
- SubjectChart.GroupBySubject: object keys are kept in insertion order as strings. JavaScript's `Object.entries` lists integer-like keys first, and inherited keys such as `constructor` are not modelled.
- Achievements.CollectMastery: the same key-order caveat as the subject chart applies.
- Search.DistinctFieldRule: `new Set` is modelled by structural equality of values. JavaScript compares objects and arrays by identity.
- Review.OptionLetters: needs fewer than 55231 options so that every letter is a valid character. A truthy non-array `options` with a positive `length`, such as a string, makes `options.map` throw in the source; the model shows no letters for it.
- QuestionCard.Card.Submit: when the text check throws, the card is already marked answered, as in the source, and nothing is sent.
- AddChildForm.Initial: a truthy `subjects` value that is not an array is read as an empty list.
- SkillsCloud.SummarizeSkills: a null skills argument is not modelled, since the input is a sequence. The synonym regular expressions are modelled as ASCII case-insensitive whole-word matches.
- Routing.CurrentPage: case-insensitive comparison is over ASCII letters.
- Upload.Feedback: cutting at 2000 characters may leave trailing white space, as in the source.
- The navigation layout's own week filter (`>=` where the dashboard uses `>`) is not part of this model.
