# CFA trainer backend — a Dafny model of its study routers

This project models the study logic of a CFA Level I trainer's web backend. A
user answers practice questions, tests and mock exams. The backend then keeps
three kinds of record per user:

- **error records**: one per (user, question), scheduled for spaced review on
  the ladder 1, 3, 7, 14, 30, 60 days;
- **module progress**: one per (user, book, module), holding questions seen
  and answered right; mastery is their percentage, and 80% completes the
  module and unlocks the next one;
- **append-only logs** of submitted tests and of financial-calculator
  practice sessions.

It also serves a bilingual glossary from per-book JSON files and BA II Plus
calculator problems from JSON files or built-in samples.

The database is the class `Models.Store`. It has two maps keyed by the
records' identities, `errors` and `progress`, and two sequences for the logs.
Each endpoint that writes is a method with `modifies store`. Its
postcondition gives the new tables as a function of the old ones. Those
functions carry the lemmas: which records change, monotonicity, idempotence,
ladder invariants, grouping and summing identities. Read-only endpoints are
methods without `modifies`, specified the same way.

A query without `ORDER BY` returns its rows in an order the database chooses.
It is modelled as a nondeterministic enumeration (`Models.ListErrors`,
`Models.ListProgress`), and the postconditions hold for every order. An
`ORDER BY ... LIMIT` is a stable sort followed by a limit. It is characterised
by `Models.FirstBy`: the rows are sorted, and no matching row left out sorts
before a kept one. `random.sample`, `random.shuffle` and `random.choice` are
nondeterministic methods in `Sampling`, stated as multiset inclusion, multiset
equality and membership. The request's timestamp is a parameter `now`,
counted in whole days. JSON files are map parameters: `Glossary.Files`,
`Calculator.ProblemFiles` and the question library `MockExam.Library`.

Files, in dependency order:

| file | module | models |
|---|---|---|
| basics.dfy | Basics | Option, Result, the percentage formula |
| seqs.dfy | Seqs | list comprehensions, dict-of-lists grouping, `sorted`, slices, SQL LIMIT |
| sampling.dfy | Sampling | `random.sample`, `random.shuffle`, `random.choice`, unordered scans |
| ladder.dfy | Ladder | the review-interval ladder shared by tests.py and errors.py |
| text.dfy | Text | `str.lower`, substring test, `str(int)` |
| models.dfy | Models | backend/models.py tables, the store, scans and ORDER BY ... LIMIT |
| tests.dfy | Tests | test submission and its three helpers (backend/routers/tests.py) |
| mock_exam.dfy | MockExam | mock exam assembly (backend/routers/tests.py) |
| errors.dfy | Errors | review queue, statistics, review marking, deletion (backend/routers/errors.py) |
| progress.dfy | Progress | progress views, sync, per-answer update, unlocking (backend/routers/progress.py) |
| glossary.dfy | Glossary | glossary loading, paging, search, lookup, flash cards (backend/routers/glossary.py) |
| calculator.dfy | Calculator | calculator problems, answer recording, statistics (backend/routers/calculator.py) |

Behaviours of the code that the lemmas pin down:

- **Two "wrong" rules** (`Errors.FailedReviewIsDueTomorrow`). A question
  missed in a test is due again the same day. A failed review is due only the
  next day.
- **Max-merge versus increment.** A module test and a sync each raise the two
  counts separately to the larger value. The counts can then come from
  different tests (`Tests.ModuleTestMixesTests`). A single answer increments
  them.
- **Unlock defaults.** The read-only view of a module without a record is
  unlocked only for module 1 (`Progress.GetModuleProgress`). The first
  answer creates the record unlocked whatever its number
  (`Progress.UnlockDefaults`). The column default (`is_unlocked` false,
  backend/models.py:48) is not modelled, because every path that creates a
  record sets the flag itself.
- **Completion stamps.** A module test that creates a record at 80% stamps it
  complete. A sync that creates one does not. A second identical sync then
  stamps it (`Progress.SyncTwiceStamps`), while counts and flags stay put
  (`Progress.SyncTwice`).
- **Capped review count.** `total_due` counts the limited selection, not all
  due records (`Errors.TotalDueIsCapped`).
- **Search limit.** A search limit of 0 or less still returns a matching
  first term (`Glossary.SearchZeroLimit`). A negative flash-card count against a
  non-empty list, or any negative calculator `limit`, makes `random.sample`
  raise.
- **Amort problems.** A problem filed only under Amort can be listed but not
  fetched or checked (`Calculator.AmortOnlyNotFound`).

## Model

| member | source | states |
|---|---|---|
| Basics.PercentScaled | backend/routers/tests.py:312 | A percentage is 0 of a non-positive whole and otherwise exactly part·100/whole; score, accuracy and the guarded mastery of sync, the module test and the readers use this formula (update_progress divides unguarded, see `Models.UnguardedThreshold`) |
| Basics.PercentRange | backend/routers/progress.py:215-221 | A part within its whole is between 0 and 100 percent |
| Seqs.GroupByKeys | backend/routers/progress.py:38-47 | Grouping rows into an insertion-ordered dict gives each key once, and every row's key has a group |
| Seqs.GroupByMembers | backend/routers/progress.py:48 | Each group holds exactly the rows with its key, in scan order, and is never empty |
| Seqs.GroupByTotals | backend/routers/progress.py:49-54 | Group sizes add up to the number of rows; per-group sums add up to the sum over all rows |
| Seqs.SortBySorted | backend/routers/progress.py:78 | Sorting by a key yields an ordered permutation of the rows |
| Seqs.SqlLimit | backend/routers/errors.py:80 | LIMIT n keeps a prefix of min(n, rows) rows, and all rows when n is negative |
| Seqs.LastN | backend/routers/calculator.py:398 | `s[-n:]` is the last min(n, len s) elements, in order |
| Seqs.FilterCount | backend/routers/tests.py:250 | A comprehension filter keeps each element that passes as often as it occurs, and drops the rest |
| Sampling.Sample | backend/routers/tests.py:254 | `random.sample(pool, k)` returns k elements drawn from distinct positions of the pool |
| Sampling.Shuffle | backend/routers/tests.py:291 | `random.shuffle` rearranges without adding or losing elements |
| Sampling.Choice | backend/routers/calculator.py:422 | `random.choice` returns an element of the non-empty pool |
| Sampling.Enumerate | backend/routers/errors.py:109-111 | A scan without ORDER BY returns every matching key exactly once |
| Ladder.RungIndex | backend/routers/tests.py:426 | The rung of an interval is its position on the ladder, or 0 when the interval is off it |
| Ladder.NextRung | backend/routers/tests.py:425-428 | The next interval is always on the ladder and at least 3 days |
| Ladder.NextRungByIndex | backend/routers/tests.py:425-428 | The rung-by-rung table is exactly `intervals[min(index + 1, 5)]`, with index 0 off the ladder |
| Ladder.NextRungAdvances | backend/routers/tests.py:427-428 | A right answer moves rung i to rung min(i + 1, 5) |
| Ladder.NextRungSaturates | backend/routers/errors.py:175-176 | At 60 days the interval stays at 60 |
| Ladder.OffLadderRestarts | backend/routers/errors.py:174 | An interval off the ladder counts as rung 0 and moves to 3 days |
| Ladder.NextRungGrows | backend/routers/errors.py:172-176 | On the ladder a right answer never shortens the interval, and lengthens it below the top |
| Ladder.ClimbFromRung | backend/routers/tests.py:425-429 | n right answers from rung i land on rung min(i + n, 5) |
| Text.LowerChar | backend/routers/glossary.py:105 | Lower-casing maps A-Z and А-Я up by 32 code points, Ѐ-Џ up by 80, and leaves other characters alone |
| Text.Lower | backend/routers/glossary.py:92 | Lower-casing keeps the length, and its result is already lower case (a fixed point of `LowerChar`); `Text.LowerIdempotent` is the whole-string form |
| Text.LowerIdempotent | backend/routers/glossary.py:105-108 | Lower-casing twice equals lower-casing once |
| Text.ContainsFacts | backend/routers/glossary.py:110 | The empty string occurs everywhere, and a string occurs in any string that embeds it |
| Text.Digits | backend/routers/glossary.py:45 | `str(n)` of a natural number is a non-empty string of decimal digits |
| Text.DigitsRoundTrip | backend/routers/glossary.py:45 | The digits of "Book N" read back as n, with no leading zero |
| Models.MasteryThresholds | backend/routers/progress.py:152-155 | "mastery >= 80" holds exactly when seen > 0 and 100·correct >= 80·seen; "mastery < 70" holds exactly when the 70% bound fails |
| Models.UnguardedThreshold | backend/routers/progress.py:221-224 | For a non-zero seen count, update_progress's "correct / seen * 100 >= 80" holds exactly when `RatioReaches80`, which for positive seen is the guarded 80% rule |
| Models.FirstByOfScan | backend/routers/tests.py:245-247 | Sorting a scan and taking the first n rows answers ORDER BY key LIMIT n: matching, distinct, sorted, at most n, with no omitted row sorting earlier |
| Models.QueryErrors | backend/routers/errors.py:75-80 | A filtered, ordered, limited query on user_errors returns a valid ORDER BY ... LIMIT answer |
| Models.ListErrors | backend/routers/errors.py:109-111 | A filtered query on user_errors returns each matching record exactly once, with its stored fields |
| Models.ListProgress | backend/routers/progress.py:33-35 | A query on a user's progress returns each of the user's records exactly once |
| Tests.CountCorrect | backend/routers/tests.py:310 | The right-answer count is between 0 and the number of answers, and equals that number exactly when every answer is right |
| Tests.ScoreBounds | backend/routers/tests.py:310-312 | The score lies in [0, 100], and is 100 exactly for a non-empty submission with every answer right |
| Tests.ApplyDetailsCount | backend/routers/tests.py:330-345 | Only a wrong answer creates an error record, and a record's error count grows by exactly its question's wrong answers |
| Tests.ApplyDetailsElsewhere | backend/routers/tests.py:330-345 | Records of other users, and of questions not in the submission, are not created, removed or changed |
| Tests.ApplyDetailsLadder | backend/routers/tests.py:393-429 | If every stored interval is on the ladder, every interval after the submission is too |
| Tests.ApplyDetailsLast | backend/routers/tests.py:393-429 | After a final wrong answer the question is on rung 1 and due that day; after a final right answer it is due rung-many (>= 3) days later |
| Tests.RecordError | backend/routers/tests.py:384-409 | A wrong answer bumps an existing record back to interval 1, due now, or creates one with one error, due now; other tables unchanged |
| Tests.MarkCorrect | backend/routers/tests.py:412-429 | A right answer moves an existing record one rung up and schedules it that far ahead; no record, no change |
| Tests.ModuleTestMonotone | backend/routers/tests.py:432-462 | A module test never lowers a count or changes an existing lock flag. It keeps a completion stamp and stamps a record complete exactly when it reaches 80%. A new record is unlocked; other modules are untouched |
| Tests.ModuleTestIdempotent | backend/routers/tests.py:443-449 | Reporting the same module test again, on any later day, changes nothing |
| Tests.ModuleTestKeepsCorrectWithinSeen | backend/routers/tests.py:444-446 | If every test reports correct <= seen, the merged record does too |
| Tests.ModuleTestMixesTests | backend/routers/tests.py:444-445 | 9 of 10, then 5 of 20, merge to 9 of 20: a mastery neither test scored |
| Tests.UpdateModuleProgress | backend/routers/tests.py:432-462 | The progress table becomes the module-test merge of the old one; other tables are unchanged |
| Tests.ResultOf | backend/routers/tests.py:315-326 | The stored result counts every answer, 0 <= correct <= total, and its score lies in [0, 100], being 100 exactly when all answers are right |
| Tests.CountAnswers | backend/routers/tests.py:310 | The counting loop returns the number of right answers |
| Tests.ApplyAnswers | backend/routers/tests.py:329-345 | The fan-out loop applies every answer, in order, to the error table and changes no other table |
| Tests.SubmitTest | backend/routers/tests.py:301-361 | Appends the result; applies every answer in order to the error table; merges the module test into progress exactly for a module test with truthy book and module ids |
| MockExam.TagModule | backend/routers/tests.py:229-232 | Helper: tags each question of a module in place. The property it serves, that every collected question carries its own book and module, is proved by `MockExam.TagBookOrigin` and `MockExam.CorpusOrigin` |
| MockExam.TagBookOrigin | backend/routers/tests.py:228-232 | A question collected from a book belongs to a module of that book and carries that module's id |
| MockExam.CorpusOrigin | backend/routers/tests.py:225-234 | Every collected question carries a book tag 1..n and belongs to that book's module |
| MockExam.CollectQuestions | backend/routers/tests.py:221-234 | The collection loop gathers books 1..10 in order, skipping books that fail to load |
| MockExam.IdsOfBound | backend/routers/tests.py:256 | A list has no more distinct ids than elements |
| MockExam.WithIds | backend/routers/tests.py:250 | The error-question filter keeps exactly the questions whose id is among the most-missed ids |
| MockExam.WithoutIds | backend/routers/tests.py:283 | The fill filter keeps exactly the questions whose id is unused |
| MockExam.WithoutIdsSize | backend/routers/tests.py:282-286 | With distinct ids, excluding a set of ids removes at most that many questions |
| MockExam.WithoutIdsSame | backend/routers/tests.py:283 | Two id sets that agree on a list's ids filter it the same way |
| MockExam.WeakPoolCount | backend/routers/tests.py:267-273 | With distinct weak modules, the pool holds each unused question of a weak module as often as the collection does, and nothing else |
| MockExam.WeakPoolFacts | backend/routers/tests.py:267-273 | The weak pool is drawn from the collection, and each of its questions is unused and in a weak module |
| MockExam.DuplicateRowsRepeatQuestions | backend/routers/tests.py:268-273 | Two progress rows for one module put its questions into the pool twice |
| MockExam.WeakModuleKeys | backend/routers/tests.py:260-265 | The weak-module query returns each of the user's modules under 70% exactly once |
| MockExam.Cleans | backend/routers/tests.py:294-296 | Stripping the tags keeps each question in place with its id, so questions with distinct ids stay distinct (used by `MockExam.ExamIsFull`) |
| MockExam.Raws | backend/routers/tests.py:236-239 | The degraded exam returns questions still carrying their tags and their ids, so distinct questions stay distinct (used by `MockExam.RawsUnique`) |
| MockExam.DrawFromErrors | backend/routers/tests.py:249-256 | Step 1 draws min(54, pool) questions from the most-missed pool |
| MockExam.DrawFromWeak | backend/routers/tests.py:275-279 | Step 2 draws min(54, pool) unused questions of weak modules |
| MockExam.DrawFill | backend/routers/tests.py:282-288 | Step 3 draws min(remaining, pool) unused questions |
| MockExam.GetMockExam | backend/routers/tests.py:210-298 | Fewer than 180 collected questions: all of them, shuffled, tagged. Otherwise: the three draws, shuffled and stripped. At most 180 questions; no repeat when ids are distinct; exactly 180 then when at least 180 were collected |
| MockExam.SelectionIsFull | backend/routers/tests.py:281-288 | With distinct ids and at least 180 questions, the three draws total exactly 180 |
| MockExam.AvoidsUsed | backend/routers/tests.py:256 | A draw avoiding the used ids shares no question with the draws that used them |
| MockExam.WeakPartAvoids | backend/routers/tests.py:272 | The weak draw comes from the collection and avoids the ids already used |
| MockExam.FillPartAvoids | backend/routers/tests.py:283 | The fill draw comes from the collection and avoids every id used before it |
| MockExam.SelectionIsUnique | backend/routers/tests.py:241-288 | With distinct ids the three draws never share a question |
| MockExam.RawsUnique | backend/routers/tests.py:236-239 | Shuffling questions with distinct ids repeats none |
| MockExam.ExamIsFull | backend/routers/tests.py:241-298 | With at least 180 distinct questions the exam has exactly 180 and repeats none |
| Errors.ReviewCorrect | backend/routers/errors.py:172-177 | A right review climbs one rung (to 3 days from off the ladder) and leaves the error count alone |
| Errors.ReviewSchedules | backend/routers/errors.py:169-185 | After any review the interval is on the ladder, the next review is exactly that far ahead and not today, and a wrong review adds one error |
| Errors.FailedReviewIsDueTomorrow | backend/routers/errors.py:178-185 | A failed review is due tomorrow, whereas a test miss (tests.py) is due the same day |
| Errors.MarkReviewed | backend/routers/errors.py:149-195 | An unknown record is 404 with nothing changed; otherwise the record is reviewed and the response echoes its new schedule |
| Errors.DeleteError | backend/routers/errors.py:198-221 | An unknown record is 404; otherwise exactly that record is removed |
| Errors.TotalDueIsCapped | backend/routers/errors.py:97-98 | `total_due` is the number of due records, capped at the limit when the limit is not negative |
| Errors.FindQuestionFacts | backend/routers/errors.py:27-42 | The lookup returns the first question with the id, and nothing exactly when no question has it |
| Errors.ReviewItemsCount | backend/routers/errors.py:83-95 | There are never more review items than selected records, and fewer exactly when some selected question is missing from the bank |
| Errors.ReviewItemsFrom | backend/routers/errors.py:83-95 | Each item is a selected record paired with the question of that id |
| Errors.GetReviewQuestions | backend/routers/errors.py:65-100 | The due records ordered by review date and limited, `total_due` their number, and the loaded items |
| Errors.GetErrorStats | backend/routers/errors.py:103-146 | The totals count the user's records, due ones and those at 30+ days; by-book groups are distinct and add up to the total; `most_problematic` is the top 10 by error count |
| Progress.NextKey | backend/routers/progress.py:238 | The next module is another module of the same user and book |
| Progress.BookGroupsCount | backend/routers/progress.py:61 | `books_started` is the number of distinct books among the user's records |
| Progress.GroupByBook | backend/routers/progress.py:38-50 | The loop groups the records by book and sums both counts |
| Progress.GetOverallProgress | backend/routers/progress.py:27-63 | The user's records grouped by book, per-book and overall sums agreeing, the overall mastery as the percentage of the sums, and the number of books started |
| Progress.BookOfScan | backend/routers/progress.py:73-78 | One book's rows of a scan list each of that book's records exactly once |
| Progress.BookModules | backend/routers/progress.py:73-78 | The book query returns that book's records once each, ordered by module id |
| Progress.GetBookProgress | backend/routers/progress.py:66-90 | That book's records ordered by module, their sums, and the book mastery as the percentage of the sums |
| Progress.GetModuleProgress | backend/routers/progress.py:93-123 | The stored record, or an empty view unlocked exactly for module 1 |
| Progress.UnlockNextFacts | backend/routers/progress.py:236-262 | Only the next module's record is touched: it ends up unlocked, keeps its counts, or is created empty |
| Progress.UnlockNextModule | backend/routers/progress.py:236-262 | The table becomes the unlock of the next module; other tables are unchanged |
| Progress.UnlockAfterKeeps | backend/routers/progress.py:265-275 | Unlocking keeps every record and its counts and stamp, never locks, creates only empty unlocked records, and touches only successors of rows at 80% |
| Progress.UnlockAfterUnlocks | backend/routers/progress.py:271-273 | Every scanned row at 80% has its successor present and unlocked |
| Progress.UnlockAfterSettled | backend/routers/progress.py:271-273 | When every successor is already unlocked the pass changes nothing |
| Progress.UnlockAfterScan | backend/routers/progress.py:265-275 | After the pass over a scan, each of the user's records at 80% has an unlocked successor |
| Progress.CheckUnlockNextModules | backend/routers/progress.py:265-275 | One pass over the user's scanned records unlocks the successors of those at 80% |
| Progress.SyncOneFacts | backend/routers/progress.py:148-173 | A synced record takes the larger counts, keeps its lock flag and stamps completion on reaching 80%; a created one carries the report, unlocked, unstamped |
| Progress.SyncVersusModuleTest | backend/routers/progress.py:148-173 | Sync and module test agree on existing records; on a new record at 80% only the module test stamps completion |
| Progress.SyncAllCovers | backend/routers/progress.py:138-173 | After the loop every reported module has a record at least as high as each report; no record is removed, lowered or relocked |
| Progress.SyncAllElsewhere | backend/routers/progress.py:138-173 | A module the batch does not report is neither created nor changed |
| Progress.SyncAllDominated | backend/routers/progress.py:148-159 | A batch already dominated by the stored counts changes no key, count or lock flag |
| Progress.SyncTwice | backend/routers/progress.py:126-184 | Syncing the same batch again, on any day and in any scan order, leaves keys, counts and lock flags as the first sync left them |
| Progress.SyncTwiceStamps | backend/routers/progress.py:155-170 | A module first reported at 80% is created unstamped, and the same report again stamps it |
| Progress.SyncRecords | backend/routers/progress.py:138-175 | The loop merges or creates each reported record in order |
| Progress.RowsOf | backend/routers/progress.py:178-184 | Helper: the records of the given keys, in order. The property of the sync response it builds is proved by `Progress.SyncProgress` |
| Progress.SyncProgress | backend/routers/progress.py:126-184 | Sync then unlock; every record at 80% ends with an unlocked successor; the response lists the reported records as the request left them |
| Progress.AnswerFacts | backend/routers/progress.py:187-233 | One answer adds one seen (and one correct if right), keeps the lock flag, stamps completion the first time the unguarded ratio reaches 80% and then unlocks the next module; the unguarded ratio agrees with the guarded rule whenever seen is positive; it fails only on a stored count of -1 |
| Progress.AnswerKeepsCorrectWithinSeen | backend/routers/progress.py:215-221 | With 0 <= correct <= seen stored, an answer succeeds and keeps the mastery within [0, 100] |
| Progress.UnlockDefaults | backend/routers/progress.py:202-213 | The first answer to a module without a record creates the record unlocked, even for a module other than 1 |
| Progress.NegativeCountsComplete | backend/routers/progress.py:215-228 | A record at -3/-3 answered right is stamped complete and unlocks the next module, although the guarded 80% rule does not hold of it |
| Progress.UpdateProgress | backend/routers/progress.py:187-233 | The table becomes the one-answer update (stamped by the unguarded ratio), or stays as it was when the division fails |
| Glossary.BookTerms | backend/routers/glossary.py:42-46 | Every term a book contributes is tagged with that book's id |
| Glossary.BooksBeforeOrdered | backend/routers/glossary.py:40-46 | Every listed term carries a book id from 1 to 10, and the books come in increasing order |
| Glossary.BooksBeforeRange | backend/routers/glossary.py:40-46 | Every term listed for books before `upto` carries the id of a book from 1 up to `upto` |
| Glossary.BooksBeforeComplete | backend/routers/glossary.py:40-46 | Every term of a readable file appears, tagged with its book's id and name |
| Glossary.LoadAllGlossary | backend/routers/glossary.py:36-50 | The loading loop builds the whole glossary, skipping files that fail |
| Glossary.PageWindow | backend/routers/glossary.py:64 | A page is the window of at most `limit` terms from `offset` |
| Glossary.PagesTile | backend/routers/glossary.py:64 | Consecutive pages of one size tile the list |
| Glossary.GetAllTerms | backend/routers/glossary.py:53-65 | The total is the glossary's size and the page its slice |
| Glossary.GetTerm | backend/routers/glossary.py:123-138 | The first term with the id, or 404 exactly when none has it |
| Glossary.GetModuleTerms | backend/routers/glossary.py:141-161 | Exactly the file's terms of that module, each as often as in the file; an unreadable file fails |
| Glossary.SearchResultFacts | backend/routers/glossary.py:103-114 | Results are matching terms in glossary order: min(limit, matches) of them for a positive limit, at most one otherwise |
| Glossary.SearchZeroLimit | backend/routers/glossary.py:111-114 | A limit of 0 still returns a matching first term |
| Glossary.SearchLoop | backend/routers/glossary.py:103-114 | The loop with its early break returns the search result |
| Glossary.SearchStep | backend/routers/glossary.py:104-111 | One more term extends the matches by that term exactly when it matches |
| Glossary.SearchExhausts | backend/routers/glossary.py:104-114 | Running out of terms below the limit returns every match |
| Glossary.SearchStops | backend/routers/glossary.py:113-114 | Breaking the first time the results reach the limit yields the search result |
| Glossary.SearchTerms | backend/routers/glossary.py:84-120 | Queries under 2 characters are rejected; otherwise the lower-cased query searches the chosen book or the whole glossary |
| Glossary.TagBook | backend/routers/glossary.py:97-98 | Helper: sets each term's book id. The property it serves is proved by `Glossary.SearchTerms` and `Glossary.LoadSearched` |
| Glossary.LoadSearched | backend/routers/glossary.py:94-100 | The list searched is the book's tagged terms or the whole glossary; only an unreadable book file fails |
| Glossary.GetBookTerms | backend/routers/glossary.py:68-81 | Fails exactly on an unreadable file; otherwise the file's terms untagged, and its `book_name` when present or "Book N" when absent |
| Glossary.BookPageInGlossary | backend/routers/glossary.py:36-81 | Each term of a book page, tagged with the book id and the page's name, is a term of the whole glossary |
| Glossary.GetRandomTerms | backend/routers/glossary.py:164-190 | Up to `count` terms from distinct positions of the list; none for an empty list; an error for a negative count on a non-empty list; always the parse error for a truthy book whose file is unreadable |
| Calculator.SamplesFiledByType | backend/routers/calculator.py:28-232 | Every built-in sample problem is filed under its own worksheet type |
| Calculator.CandidatesFacts | backend/routers/calculator.py:265-266 | A truthy difficulty keeps exactly the problems of that difficulty, each as often; otherwise nothing is filtered |
| Calculator.GetProblems | backend/routers/calculator.py:247-276 | 400 exactly for an unknown type; an error exactly for a negative limit; otherwise min(limit, candidates) of them, all when they fit |
| Calculator.FirstWithIdFacts | backend/routers/calculator.py:287-289 | The search returns a problem with the id and none before it, and nothing exactly when no problem has the id |
| Calculator.FirstWithIdAppend | backend/routers/calculator.py:285-289 | Searching type after type finds the first match of the earliest type that has one |
| Calculator.LoadTypesSnoc | backend/routers/calculator.py:285-286 | Loading one more type appends that type's problems |
| Calculator.LoadTypesEach | backend/routers/calculator.py:285-286 | Loading the types is the concatenation of their loads for the file loader |
| Calculator.FindIn | backend/routers/calculator.py:308-313 | The inner loop returns the first problem of one type with the id |
| Calculator.FindProblem | backend/routers/calculator.py:305-313 | The nested search loop returns the first match over the types in order |
| Calculator.FoundIn | backend/routers/calculator.py:312-313 | Breaking out at the first type holding a match returns the overall first match |
| Calculator.FoundUpTo | backend/routers/calculator.py:305-313 | Once a type holds the first match, loading further types keeps it the first match |
| Calculator.GetProblem | backend/routers/calculator.py:279-294 | The first problem with the id across the sample types, or 404 |
| Calculator.AmortOnlyNotFound | backend/routers/calculator.py:255 | A problem filed only under Amort and not among the samples is listed by type, yet lies in no searched type and is never the problem found for its id |
| Calculator.SamplesOnly | backend/routers/calculator.py:242-244 | Without override files, an id no sample carries is not found |
| Calculator.LoadTypesFrom | backend/routers/calculator.py:285-286 | Every loaded problem comes from one of the loaded types |
| Calculator.LoadTypesCovers | backend/routers/calculator.py:412-414 | Every problem of every loaded type is in the pool |
| Calculator.GetRandomProblem | backend/routers/calculator.py:402-422 | A problem from the given type, or from every sample type; 404 exactly when that pool is empty |
| Calculator.SamplesAlwaysAvailable | backend/routers/calculator.py:412-414 | Without a TVM file the unfiltered pool always has problems |
| Calculator.CheckAnswer | backend/routers/calculator.py:297-357 | 404 with nothing recorded when no problem matches; a problem without `worksheet` fails with nothing recorded; otherwise one session is appended with the verdict |
| Calculator.CorrectPoints | backend/routers/calculator.py:383-385 | Counting one per correct session gives the number of correct sessions, at most the number of sessions |
| Calculator.SumStats | backend/routers/calculator.py:375-385 | Per-type attempts and corrects add up to the groups' totals |
| Calculator.TypeKeys | backend/routers/calculator.py:387 | Helper: the per-type list's worksheet types, in order. That each type met appears exactly once is proved by `Calculator.ByTypeKeys` |
| Calculator.CountSessions | backend/routers/calculator.py:375-385 | The loop groups sessions by worksheet type and counts attempts and correct ones |
| Calculator.TypeAccuracies | backend/routers/calculator.py:387-391 | Each type gets its attempts, corrects and accuracy |
| Calculator.ByTypeKeys | backend/routers/calculator.py:376-378 | Each worksheet type met appears exactly once |
| Calculator.ByTypeSums | backend/routers/calculator.py:380-385 | Per-type attempts add up to the total, per-type corrects to the correct total |
| Calculator.ByTypeCounts | backend/routers/calculator.py:387-391 | Each type's entry counts exactly that type's sessions and their accuracy |
| Calculator.GroupCounted | backend/routers/calculator.py:387-391 | One type's entry: attempts >= 1, 0 <= correct <= attempts, accuracy their percentage |
| Calculator.SumOfNonNegative | backend/routers/calculator.py:383-385 | A count of correct sessions is never negative |
| Calculator.Recent | backend/routers/calculator.py:398 | The recent sessions are the last min(10, n) of them, in order |
| Calculator.GetCalculatorStats | backend/routers/calculator.py:360-399 | Totals, the overall accuracy, one entry per worksheet type adding up to the totals, and the last ten sessions |

## Left out

- Authentication, users and the router wiring are not part of this model.
  Every endpoint takes the user id as a parameter.
- Floating point: percentages are Dafny reals, with no rounding.
  `int(180 * 0.3)` is taken as 54, its value in binary floating point.
- Clocks: every request has one timestamp `now`, in whole days. `timedelta`
  arithmetic is integer addition.
- JSON parsing and file I/O are not modelled. Files are map parameters. For
  glossaries, a file that fails to parse is `Unreadable`. A calculator file
  that fails to parse is not modelled.
- The question bank for review loading (`load_question_by_id`) is a sequence
  parameter. Its per-book exception handling is folded into that sequence.
- Calculator.CheckAnswer: the verdict is an input. The tolerance comparison
  on floats, and the `TypeError` a mismatched answer shape raises, are left
  out.
- Calculator.GetCalculatorStats: assumes the session query returns rows in
  insertion order, which SQLite does in practice without ORDER BY. This
  order decides `recent_sessions` and the order of the per-type entries.
- Text.LowerChar: only ASCII and the basic Cyrillic capitals are lowered.
  Python's full Unicode case mapping is not modelled.
- Progress.SyncAll: assumes the session flushes pending inserts before each
  query (SQLAlchemy autoflush), so a module reported twice in one batch is
  merged into the record the first report created.
- Progress.AfterAnswer: the stored `mastery_percent` column is not
  modelled; readers recompute it from the counts. `update_progress` divides
  without the `seen > 0` guard (`Models.RatioReaches80`), while the unlock
  pass (Progress.CheckUnlockNextModules, backend/routers/progress.py:272)
  and the mock exam's weak-module query (backend/routers/tests.py:263)
  recompute the guarded `Basics.Percent`. The two agree except on a record
  whose stored counts have gone negative, which no modelled endpoint
  produces from non-negative counts (`Progress.NegativeCountsComplete`
  shows one such record).
- Tests.ApplyAnswers / Tests.SubmitTest: assume the session flushes pending
  inserts before each query (SQLAlchemy autoflush, configured in a database
  module that is not part of this model), so a question repeated in
  `question_details` sees the error record the earlier answer created or
  updated.
- Models.Store / MockExam.GetMockExam: progress and error records are maps
  keyed by (user, book, module) and (user, question). Duplicate rows, which
  the schema does not forbid, are not modelled, so the mock exam's weak
  pool never holds a module twice through duplicate rows;
  `MockExam.DuplicateRowsRepeatQuestions` shows that a module listed twice
  would repeat its questions in the pool.
- `get_all_errors`, `get_test_history`, `get_book_info` and the Pydantic
  schemas are outside the modelled core.
- Response-shaping details beyond the fields stated are not modelled: ids,
  refreshed timestamps, `problem_data`, `user_steps`, `steps` and
  `common_mistakes`.
- Progress.GetModuleProgress: the empty view's `id` 0 and its echo of the
  request ids are not stated.
- Errors.GetErrorStats: `by_book` is a sequence of groups; the `questions`
  list of a group is its records' ids, not a separate list.
