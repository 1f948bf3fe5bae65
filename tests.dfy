/** Test submission (backend/routers/tests.py, `submit_test` and its helpers
    `_record_error`, `_mark_correct`, `_update_module_progress`).

    A submission appends one test result, then walks the answered questions
    in order: a wrong answer opens or re-opens the question's error record,
    a right answer moves an existing record one rung up the review ladder.
    A module test finally merges its counts into the module's progress. */
module Tests {
  import opened Basics
  import opened Ladder
  import opened Models

  /** The request body of POST /api/tests/submit. */
  datatype Submission = Submission(
    testType: string,
    testMode: string,
    bookId: Option<int>,
    moduleId: Option<int>,
    timeSpentSeconds: int,
    details: seq<Detail>)

  // ---------------------------------------------------------------------
  // Counting the answers.

  /** `sum(1 for q in details if q.get("correct", False))` */
  function CountCorrect(ds: seq<Detail>): (n: int)
    ensures 0 <= n <= |ds|
    ensures n == |ds| <==> forall i :: 0 <= i < |ds| ==> ds[i].correct
    decreases |ds|
  {
    if ds == [] then 0
    else
      var n := CountCorrect(ds[..|ds| - 1]);
      assert forall i :: 0 <= i < |ds| - 1 ==> ds[..|ds| - 1][i] == ds[i];
      if ds[|ds| - 1].correct then n + 1 else n
  }

  /** How many times question q was answered wrongly in this submission. */
  function Misses(ds: seq<Detail>, q: QuestionId): nat
    decreases |ds|
  {
    if ds == [] then 0
    else Misses(ds[..|ds| - 1], q) + (if ds[|ds| - 1] == Detail(q, false) then 1 else 0)
  }

  /** Whether question q occurs in the submission at all. */
  predicate Mentions(ds: seq<Detail>, q: QuestionId)
  {
    exists i :: 0 <= i < |ds| && ds[i].questionId == q
  }

  /** The last answer given to question q, if it was asked. */
  function LastAnswer(ds: seq<Detail>, q: QuestionId): Option<bool>
    decreases |ds|
  {
    if ds == [] then None
    else if ds[|ds| - 1].questionId == q then Some(ds[|ds| - 1].correct)
    else LastAnswer(ds[..|ds| - 1], q)
  }

  lemma RatioBounds(c: int, t: int)
    requires 0 <= c <= t && t > 0
    ensures 0.0 <= (c as real) / (t as real) <= 1.0
    ensures (c as real) / (t as real) == 1.0 <==> c == t
  {
    var r := (c as real) / (t as real);
    assert r * (t as real) == c as real;
  }

  /** The score lies between 0 and 100 and is 100 exactly for a non-empty
      submission with every answer right. */
  lemma ScoreBounds(ds: seq<Detail>)
    ensures 0.0 <= Percent(CountCorrect(ds), |ds|) <= 100.0
    ensures Percent(CountCorrect(ds), |ds|) == 100.0
        <==> |ds| > 0 && forall i :: 0 <= i < |ds| ==> ds[i].correct
  {
    if |ds| > 0 {
      RatioBounds(CountCorrect(ds), |ds|);
    }
  }

  // ---------------------------------------------------------------------
  // Error records touched by one answer.

  /** `_record_error`: a wrong answer. An existing record counts one more
      error and falls back to the first rung, due immediately; otherwise a
      record is created with one error, the submission's book and module
      (`or 0`), due immediately. */
  function AfterMiss(m: map<ErrorKey, ErrorRec>, k: ErrorKey, bookId: int, moduleId: int, now: Time)
    : map<ErrorKey, ErrorRec>
  {
    if k in m then
      m[k := m[k].(errorCount := m[k].errorCount + 1, lastErrorAt := Some(now),
                   interval := 1, nextReviewAt := Some(now))]
    else
      m[k := ErrorRec(bookId, moduleId, 1, Some(now), None, Some(now), 1)]
  }

  /** `_mark_correct`: a right answer moves an existing record one rung up
      and schedules it that many days ahead; without a record nothing
      happens. */
  function AfterCorrect(m: map<ErrorKey, ErrorRec>, k: ErrorKey, now: Time): map<ErrorKey, ErrorRec>
  {
    if k in m then
      var next := NextRung(m[k].interval);
      m[k := m[k].(lastCorrectAt := Some(now), interval := next, nextReviewAt := Some(now + next))]
    else m
  }

  function ApplyDetail(m: map<ErrorKey, ErrorRec>, user: UserId, d: Detail, bookId: int, moduleId: int, now: Time)
    : map<ErrorKey, ErrorRec>
  {
    var k := ErrorKey(user, d.questionId);
    if d.correct then AfterCorrect(m, k, now) else AfterMiss(m, k, bookId, moduleId, now)
  }

  /** The error table after the fan-out loop of `submit_test`. */
  function ApplyDetails(m: map<ErrorKey, ErrorRec>, user: UserId, ds: seq<Detail>,
                        bookId: int, moduleId: int, now: Time): map<ErrorKey, ErrorRec>
    decreases |ds|
  {
    if ds == [] then m
    else ApplyDetail(ApplyDetails(m, user, ds[..|ds| - 1], bookId, moduleId, now),
                     user, ds[|ds| - 1], bookId, moduleId, now)
  }

  /** Only a wrong answer creates a record, and the error count of a record
      grows by exactly the number of wrong answers to its question. */
  lemma {:induction false} ApplyDetailsCount(m: map<ErrorKey, ErrorRec>, user: UserId, ds: seq<Detail>,
                                             bookId: int, moduleId: int, now: Time, q: QuestionId)
    ensures var a := ApplyDetails(m, user, ds, bookId, moduleId, now);
            var k := ErrorKey(user, q);
            && (k in a <==> k in m || Misses(ds, q) > 0)
            && (k in a ==> a[k].errorCount == (if k in m then m[k].errorCount else 0) + Misses(ds, q))
    decreases |ds|
  {
    if ds != [] {
      ApplyDetailsCount(m, user, ds[..|ds| - 1], bookId, moduleId, now, q);
    }
  }

  /** Records of other users, and of questions the submission does not
      mention, are neither created, removed nor changed. */
  lemma {:induction false} ApplyDetailsElsewhere(m: map<ErrorKey, ErrorRec>, user: UserId, ds: seq<Detail>,
                                                 bookId: int, moduleId: int, now: Time, k: ErrorKey)
    requires k.user != user || !Mentions(ds, k.question)
    ensures var a := ApplyDetails(m, user, ds, bookId, moduleId, now);
            (k in a <==> k in m) && (k in a ==> a[k] == m[k])
    decreases |ds|
  {
    if ds != [] {
      var ds' := ds[..|ds| - 1];
      assert !Mentions(ds, k.question) ==> !Mentions(ds', k.question) by {
        if Mentions(ds', k.question) {
          var i :| 0 <= i < |ds'| && ds'[i].questionId == k.question;
          assert ds[i].questionId == k.question;
        }
      }
      ApplyDetailsElsewhere(m, user, ds', bookId, moduleId, now, k);
    }
  }

  /** Every interval the two helpers write is a rung of the ladder. */
  predicate IntervalsOnLadder(m: map<ErrorKey, ErrorRec>)
  {
    forall k :: k in m ==> OnLadder(m[k].interval)
  }

  lemma {:induction false} ApplyDetailsLadder(m: map<ErrorKey, ErrorRec>, user: UserId, ds: seq<Detail>,
                                              bookId: int, moduleId: int, now: Time)
    requires IntervalsOnLadder(m)
    ensures IntervalsOnLadder(ApplyDetails(m, user, ds, bookId, moduleId, now))
    decreases |ds|
  {
    if ds != [] {
      ApplyDetailsLadder(m, user, ds[..|ds| - 1], bookId, moduleId, now);
    }
  }

  /** The last answer to a question decides when it is next due: after a
      wrong one it is due on the day of the test, on the first rung; after
      a right one it is due rung-many days later, never the same day. */
  lemma {:induction false} ApplyDetailsLast(m: map<ErrorKey, ErrorRec>, user: UserId, ds: seq<Detail>,
                                            bookId: int, moduleId: int, now: Time, q: QuestionId)
    ensures var a := ApplyDetails(m, user, ds, bookId, moduleId, now);
            var k := ErrorKey(user, q);
            && (LastAnswer(ds, q) == Some(false) ==> k in a && a[k].interval == 1 && Due(a[k], now))
            && (LastAnswer(ds, q) == Some(true) && k in a ==>
                  a[k].interval >= 3 && a[k].nextReviewAt == Some(now + a[k].interval) && !Due(a[k], now))
    decreases |ds|
  {
    if ds != [] {
      var ds', d := ds[..|ds| - 1], ds[|ds| - 1];
      var prev := ApplyDetails(m, user, ds', bookId, moduleId, now);
      var a := ApplyDetail(prev, user, d, bookId, moduleId, now);
      var k := ErrorKey(user, q);
      assert ApplyDetails(m, user, ds, bookId, moduleId, now) == a;
      if d.questionId == q {
        assert LastAnswer(ds, q) == Some(d.correct);
      } else {
        assert LastAnswer(ds, q) == LastAnswer(ds', q);
        assert k in a <==> k in prev;
        assert k in a ==> a[k] == prev[k];
        ApplyDetailsLast(m, user, ds', bookId, moduleId, now, q);
      }
    }
  }

  method RecordError(store: Store, user: UserId, q: QuestionId, bookId: int, moduleId: int, now: Time)
    modifies store
    ensures store.errors == AfterMiss(old(store.errors), ErrorKey(user, q), bookId, moduleId, now)
    ensures store.progress == old(store.progress)
    ensures store.testResults == old(store.testResults) && store.calcSessions == old(store.calcSessions)
  {
    var k := ErrorKey(user, q);
    if k in store.errors {
      var e := store.errors[k];
      e := e.(errorCount := e.errorCount + 1);
      e := e.(lastErrorAt := Some(now));
      e := e.(interval := 1);
      e := e.(nextReviewAt := Some(now));
      store.errors := store.errors[k := e];
    } else {
      store.errors := store.errors[k := ErrorRec(bookId, moduleId, 1, Some(now), None, Some(now), 1)];
    }
  }

  method MarkCorrect(store: Store, user: UserId, q: QuestionId, now: Time)
    modifies store
    ensures store.errors == AfterCorrect(old(store.errors), ErrorKey(user, q), now)
    ensures store.progress == old(store.progress)
    ensures store.testResults == old(store.testResults) && store.calcSessions == old(store.calcSessions)
  {
    var k := ErrorKey(user, q);
    if k in store.errors {
      var e := store.errors[k];
      ghost var before := store.errors;
      e := e.(lastCorrectAt := Some(now));
      var next := NextRung(e.interval);
      e := e.(interval := next);
      e := e.(nextReviewAt := Some(now + next));
      store.errors := store.errors[k := e];
      assert store.errors == AfterCorrect(before, k, now);
    }
  }

  // ---------------------------------------------------------------------
  // Module progress after a module test.

  /** `_update_module_progress`: an existing record keeps the larger of the
      old and new counts, each taken separately, and is stamped complete the
      first time it reaches 80%; a new record is unlocked and complete iff
      this test reached 80%. */
  function AfterModuleTest(p: map<ModuleKey, ProgressRec>, k: ModuleKey, seen: int, correct: int, now: Time)
    : map<ModuleKey, ProgressRec>
  {
    if k in p then p[k := MergeCounts(p[k], seen, correct, now)]
    else
      var r := ProgressRec(seen, correct, true, None);
      p[k := if Completes(r) then r.(completedAt := Some(now)) else r]
  }

  /** A module test never lowers either count, never changes the lock flag
      of an existing record, never moves or clears a completion stamp, and
      leaves the record complete exactly when it was before or now reaches
      80%. A record it creates is unlocked. Other modules are untouched. */
  lemma ModuleTestMonotone(p: map<ModuleKey, ProgressRec>, k: ModuleKey, seen: int, correct: int, now: Time)
    ensures var a := AfterModuleTest(p, k, seen, correct, now);
            && k in a && a.Keys == p.Keys + {k}
            && (forall k' :: k' in p && k' != k ==> a[k'] == p[k'])
            && a[k].seen >= seen && a[k].correct >= correct
            && (a[k].completedAt.Some? <==> (k in p && p[k].completedAt.Some?) || Completes(a[k]))
            && (k in p ==> a[k].seen >= p[k].seen && a[k].correct >= p[k].correct
                           && a[k].isUnlocked == p[k].isUnlocked
                           && (p[k].completedAt.Some? ==> a[k].completedAt == p[k].completedAt))
            && (k !in p ==> a[k].isUnlocked && a[k].seen == seen && a[k].correct == correct)
            && (a[k].completedAt.Some? && (k !in p || p[k].completedAt.None?) ==> a[k].completedAt == Some(now))
  {
  }

  /** Reporting the same module test again, on any later day, changes
      nothing. */
  lemma ModuleTestIdempotent(p: map<ModuleKey, ProgressRec>, k: ModuleKey, seen: int, correct: int,
                             now: Time, later: Time)
    ensures var once := AfterModuleTest(p, k, seen, correct, now);
            AfterModuleTest(once, k, seen, correct, later) == once
  {
  }

  /** If every test reports no more right answers than questions, the merged
      record does too, so its mastery never exceeds 100%. */
  lemma ModuleTestKeepsCorrectWithinSeen(p: map<ModuleKey, ProgressRec>, k: ModuleKey, seen: int, correct: int, now: Time)
    requires k in p ==> p[k].correct <= p[k].seen
    requires correct <= seen
    ensures var a := AfterModuleTest(p, k, seen, correct, now);
            a[k].correct <= a[k].seen
  {
  }

  /** The merged counts can come from two different tests: 9 of 10 and
      then 5 of 20 leave 9 of 20, a mastery neither test scored. */
  lemma ModuleTestMixesTests(k: ModuleKey, now: Time)
    ensures var p := map[k := ProgressRec(10, 9, true, Some(now))];
            var a := AfterModuleTest(p, k, 20, 5, now);
            a[k].seen == 20 && a[k].correct == 9 && !Completes(a[k]) && a[k].completedAt == Some(now)
  {
  }

  method UpdateModuleProgress(store: Store, user: UserId, bookId: int, moduleId: int,
                              seen: int, correct: int, now: Time)
    modifies store
    ensures store.progress == AfterModuleTest(old(store.progress), ModuleKey(user, bookId, moduleId), seen, correct, now)
    ensures store.errors == old(store.errors)
    ensures store.testResults == old(store.testResults) && store.calcSessions == old(store.calcSessions)
  {
    var k := ModuleKey(user, bookId, moduleId);
    if k in store.progress {
      var r := store.progress[k];
      r := r.(seen := Max(r.seen, seen));
      r := r.(correct := Max(r.correct, correct));
      if Completes(r) && r.completedAt.None? {
        r := r.(completedAt := Some(now));
      }
      store.progress := store.progress[k := r];
    } else {
      var r := ProgressRec(seen, correct, true, None);
      if Completes(r) {
        r := r.(completedAt := Some(now));
      }
      store.progress := store.progress[k := r];
    }
  }

  // ---------------------------------------------------------------------
  // The endpoint.

  /** `result.test_type == "module" and result.book_id and result.module_id` */
  predicate UpdatesModule(sub: Submission)
  {
    sub.testType == "module" && Truthy(sub.bookId) && Truthy(sub.moduleId)
  }

  /** The test_results row a submission produces. */
  function ResultOf(user: UserId, sub: Submission, now: Time): (tr: TestResult)
    ensures tr.totalQuestions == |sub.details| && tr.details == sub.details
    ensures 0 <= tr.correctAnswers <= tr.totalQuestions
    ensures 0.0 <= tr.scorePercent <= 100.0
    ensures tr.scorePercent == 100.0 <==> sub.details != [] && forall i :: 0 <= i < |sub.details| ==> sub.details[i].correct
  {
    ScoreBounds(sub.details);
    var c := CountCorrect(sub.details);
    TestResult(user, sub.testType, sub.testMode, sub.bookId, sub.moduleId, |sub.details|, c,
               Percent(c, |sub.details|), sub.timeSpentSeconds, sub.details, now)
  }

  /** The counting loop of `submit_test`. */
  method CountAnswers(ds: seq<Detail>) returns (correct: int)
    ensures correct == CountCorrect(ds)
  {
    correct := 0;
    var i := 0;
    while i < |ds|
      invariant 0 <= i <= |ds|
      invariant correct == CountCorrect(ds[..i])
    {
      assert ds[..i + 1][..i] == ds[..i];
      if ds[i].correct {
        correct := correct + 1;
      }
      i := i + 1;
    }
    assert ds[..|ds|] == ds;
  }

  /** The fan-out loop of `submit_test`: each answer updates its error
      record, in order. */
  method ApplyAnswers(store: Store, user: UserId, ds: seq<Detail>, bookId: int, moduleId: int, now: Time)
    modifies store
    ensures store.errors == ApplyDetails(old(store.errors), user, ds, bookId, moduleId, now)
    ensures store.progress == old(store.progress)
    ensures store.testResults == old(store.testResults) && store.calcSessions == old(store.calcSessions)
  {
    var i := 0;
    while i < |ds|
      invariant 0 <= i <= |ds|
      invariant store.errors == ApplyDetails(old(store.errors), user, ds[..i], bookId, moduleId, now)
      invariant store.progress == old(store.progress)
      invariant store.testResults == old(store.testResults) && store.calcSessions == old(store.calcSessions)
    {
      assert ds[..i + 1][..i] == ds[..i];
      if !ds[i].correct {
        RecordError(store, user, ds[i].questionId, bookId, moduleId, now);
      } else {
        MarkCorrect(store, user, ds[i].questionId, now);
      }
      i := i + 1;
    }
    assert ds[..|ds|] == ds;
  }

  method SubmitTest(store: Store, user: UserId, sub: Submission, now: Time) returns (tr: TestResult)
    modifies store
    ensures tr == ResultOf(user, sub, now)
    ensures store.testResults == old(store.testResults) + [tr]
    ensures store.errors == ApplyDetails(old(store.errors), user, sub.details, OrZero(sub.bookId), OrZero(sub.moduleId), now)
    ensures store.progress == if UpdatesModule(sub)
                              then AfterModuleTest(old(store.progress), ModuleKey(user, sub.bookId.value, sub.moduleId.value),
                                                   |sub.details|, CountCorrect(sub.details), now)
                              else old(store.progress)
    ensures store.calcSessions == old(store.calcSessions)
  {
    var ds := sub.details;
    var correct := CountAnswers(ds);
    var total := |ds|;
    var score := if total > 0 then (correct as real) / (total as real) * 100.0 else 0.0;
    tr := TestResult(user, sub.testType, sub.testMode, sub.bookId, sub.moduleId, total, correct,
                     score, sub.timeSpentSeconds, ds, now);
    store.testResults := store.testResults + [tr];

    var bookId := if sub.bookId.Some? then sub.bookId.value else 0;
    var moduleId := if sub.moduleId.Some? then sub.moduleId.value else 0;
    ApplyAnswers(store, user, ds, bookId, moduleId, now);

    if sub.testType == "module" && sub.bookId.Some? && sub.bookId.value != 0
       && sub.moduleId.Some? && sub.moduleId.value != 0 {
      UpdateModuleProgress(store, user, sub.bookId.value, sub.moduleId.value, total, correct, now);
    }
  }

}
