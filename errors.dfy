/** The spaced-repetition endpoints (backend/routers/errors.py): explicit
    review of one question, the due-review queue, error statistics and
    deletion of a record. */
module Errors {
  import opened Basics
  import opened Seqs
  import opened Ladder
  import opened Models
  import Tests

  datatype Failure = NotFound

  // ---------------------------------------------------------------------
  // mark_reviewed

  /** A right review climbs one rung; a wrong one returns to the first rung
      and counts one more error. Either way the next review is the new
      interval's number of days away. */
  function AfterReview(r: ErrorRec, wasCorrect: bool, now: Time): ErrorRec
  {
    var r' := if wasCorrect then r.(interval := NextRung(r.interval), lastCorrectAt := Some(now))
              else r.(interval := 1, errorCount := r.errorCount + 1, lastErrorAt := Some(now));
    r'.(nextReviewAt := Some(now + r'.interval))
  }

  /** A right review: one rung up (from rung 0 when off the ladder), the
      error count and provenance unchanged. */
  lemma ReviewCorrect(r: ErrorRec, now: Time)
    ensures var a := AfterReview(r, true, now);
            && a.errorCount == r.errorCount && a.lastErrorAt == r.lastErrorAt
            && a.lastCorrectAt == Some(now)
            && (OnLadder(r.interval) ==> a.interval >= r.interval && (r.interval < 60 ==> a.interval > r.interval))
            && (!OnLadder(r.interval) ==> a.interval == 3)
  {
    if OnLadder(r.interval) {
      NextRungGrows(r.interval);
    }
  }

  /** After any review the record is on the ladder, scheduled exactly its
      interval ahead, and not due on the day of the review. */
  lemma ReviewSchedules(r: ErrorRec, wasCorrect: bool, now: Time)
    ensures var a := AfterReview(r, wasCorrect, now);
            && OnLadder(a.interval)
            && a.nextReviewAt == Some(now + a.interval)
            && !Due(a, now) && Due(a, now + a.interval)
            && a.bookId == r.bookId && a.moduleId == r.moduleId
            && a.errorCount == (if wasCorrect then r.errorCount else r.errorCount + 1)
  {
  }

  /** The two "wrong" rules differ: a question missed in a test is due
      the same day, a failed review only the next day. */
  lemma FailedReviewIsDueTomorrow(m: map<ErrorKey, ErrorRec>, k: ErrorKey, now: Time)
    requires k in m
    ensures var missed := Tests.AfterMiss(m, k, 0, 0, now)[k];
            var failed := AfterReview(m[k], false, now);
            && missed.interval == failed.interval == 1
            && missed.errorCount == failed.errorCount
            && Due(missed, now) && !Due(failed, now) && Due(failed, now + 1)
  {
  }

  datatype ReviewResponse = ReviewResponse(questionId: QuestionId, newIntervalDays: int,
                                           nextReviewAt: Time, totalErrors: int)

  method MarkReviewed(store: Store, user: UserId, q: QuestionId, wasCorrect: bool, now: Time)
    returns (res: Result<ReviewResponse, Failure>)
    modifies store
    ensures var k := ErrorKey(user, q);
            k !in old(store.errors) ==> res == Err(NotFound) && store.errors == old(store.errors)
    ensures var k := ErrorKey(user, q);
            k in old(store.errors) ==>
              var a := AfterReview(old(store.errors)[k], wasCorrect, now);
              && store.errors == old(store.errors)[k := a]
              && res == Ok(ReviewResponse(q, a.interval, now + a.interval, a.errorCount))
    ensures store.progress == old(store.progress)
    ensures store.testResults == old(store.testResults) && store.calcSessions == old(store.calcSessions)
  {
    var k := ErrorKey(user, q);
    if k !in store.errors {
      return Err(NotFound);
    }
    var e := store.errors[k];
    ghost var before := e;
    if wasCorrect {
      e := e.(interval := NextRung(e.interval));
      e := e.(lastCorrectAt := Some(now));
    } else {
      assert Intervals[0] == 1;
      e := e.(interval := Intervals[0]);
      e := e.(errorCount := e.errorCount + 1);
      e := e.(lastErrorAt := Some(now));
    }
    e := e.(nextReviewAt := Some(now + e.interval));
    assert e == AfterReview(before, wasCorrect, now);
    store.errors := store.errors[k := e];
    res := Ok(ReviewResponse(q, e.interval, now + e.interval, e.errorCount));
  }

  // ---------------------------------------------------------------------
  // delete_error

  method DeleteError(store: Store, user: UserId, q: QuestionId) returns (res: Result<QuestionId, Failure>)
    modifies store
    ensures var k := ErrorKey(user, q);
            k !in old(store.errors) ==> res == Err(NotFound) && store.errors == old(store.errors)
    ensures var k := ErrorKey(user, q);
            k in old(store.errors) ==> res == Ok(q) && store.errors == old(store.errors) - {k}
    ensures store.progress == old(store.progress)
    ensures store.testResults == old(store.testResults) && store.calcSessions == old(store.calcSessions)
  {
    var k := ErrorKey(user, q);
    if k !in store.errors {
      return Err(NotFound);
    }
    store.errors := store.errors - {k};
    res := Ok(q);
  }

  // ---------------------------------------------------------------------
  // get_review_questions

  /** Sort key of `order_by(next_review_at)`; every selected row has a date. */
  function NextReviewDay(r: ErrorRow): int
  {
    if r.rec.nextReviewAt.Some? then r.rec.nextReviewAt.value else 0
  }

  /** The keys of the user's records due on day `today`. */
  function DueKeys(m: map<ErrorKey, ErrorRec>, user: UserId, today: Time): set<ErrorKey>
  {
    set k | k in m && k.user == user && Due(m[k], today)
  }

  /** `total_due` is the length of the limited selection: the number of
      due records when the limit does not bite, the limit when it does. */
  lemma TotalDueIsCapped(due: seq<ErrorRow>, m: map<ErrorKey, ErrorRec>, user: UserId, today: Time, limit: int)
    requires FirstBy(due, m, DueFor(user, today), NextReviewDay, limit)
    ensures |due| == if limit < 0 then |DueKeys(m, user, today)| else Min(limit, |DueKeys(m, user, today)|)
  {
    var ks := ErrorKeysOf(due);
    var d := DueKeys(m, user, today);
    assert Distinct(ks);
    ElemsCard(ks);
    assert Elems(ks) <= d;
    if |due| != limit {
      forall k | k in d ensures k in Elems(ks) {
        assert DueFor(user, today)(ErrorRow(k, m[k]));
      }
      assert d == Elems(ks);
    } else {
      assert |Elems(ks)| <= |d| by { SubsetCard(Elems(ks), d); }
    }
  }

  lemma SubsetCard<T>(a: set<T>, b: set<T>)
    requires a <= b
    ensures |a| <= |b|
  {
    assert b == a + (b - a);
  }

  /** The first question with a given id in the question bank. */
  function FindQuestion(bank: seq<Question>, id: QuestionId): Option<Question>
  {
    if bank == [] then None
    else if bank[0].id == id then Some(bank[0])
    else FindQuestion(bank[1..], id)
  }

  /** The lookup returns the first question with the id, and nothing
      exactly when no question has it. */
  lemma {:induction false} FindQuestionFacts(bank: seq<Question>, id: QuestionId)
    ensures var r := FindQuestion(bank, id);
            r.Some? ==> exists i :: 0 <= i < |bank| && bank[i] == r.value && r.value.id == id
                          && forall j :: 0 <= j < i ==> bank[j].id != id
    ensures FindQuestion(bank, id).None? <==> forall i :: 0 <= i < |bank| ==> bank[i].id != id
  {
    if bank != [] && bank[0].id != id {
      var r := FindQuestion(bank[1..], id);
      FindQuestionFacts(bank[1..], id);
      assert forall i :: 1 <= i < |bank| ==> bank[1..][i - 1] == bank[i];
      if r.Some? {
        var i :| 0 <= i < |bank[1..]| && bank[1..][i] == r.value && r.value.id == id
                 && forall j :: 0 <= j < i ==> bank[1..][j].id != id;
        assert bank[i + 1] == r.value;
      }
    }
  }

  datatype ReviewItem = ReviewItem(questionId: QuestionId, bookId: int, moduleId: int,
                                   errorCount: int, intervalDays: int, question: Question)

  /** The loading loop: one item per selected record whose question is in
      the bank, in selection order. */
  function ReviewItems(due: seq<ErrorRow>, bank: seq<Question>): seq<ReviewItem>
    decreases |due|
  {
    if due == [] then []
    else
      var r := due[|due| - 1];
      var found := FindQuestion(bank, r.key.question);
      ReviewItems(due[..|due| - 1], bank)
        + (if found.Some? then [ReviewItem(r.key.question, r.rec.bookId, r.rec.moduleId,
                                           r.rec.errorCount, r.rec.interval, found.value)]
           else [])
  }

  /** There are never more items than selected records (`total_due`), and
      fewer exactly when some question is missing from the bank. */
  lemma {:induction false} ReviewItemsCount(due: seq<ErrorRow>, bank: seq<Question>)
    ensures |ReviewItems(due, bank)| <= |due|
    ensures |ReviewItems(due, bank)| == |due|
        <==> forall i :: 0 <= i < |due| ==> FindQuestion(bank, due[i].key.question).Some?
    decreases |due|
  {
    if due != [] {
      var due', last := due[..|due| - 1], due[|due| - 1];
      ReviewItemsCount(due', bank);
      assert forall i :: 0 <= i < |due'| ==> due'[i] == due[i];
      var all := forall i :: 0 <= i < |due| ==> FindQuestion(bank, due[i].key.question).Some?;
      var all' := forall i :: 0 <= i < |due'| ==> FindQuestion(bank, due'[i].key.question).Some?;
      assert all <==> all' && FindQuestion(bank, last.key.question).Some?;
    }
  }

  /** Every item is a selected record paired with its question. */
  lemma {:induction false} ReviewItemsFrom(due: seq<ErrorRow>, bank: seq<Question>)
    ensures forall it :: it in ReviewItems(due, bank) ==>
              it.question.id == it.questionId
              && exists i :: 0 <= i < |due| && due[i].key.question == it.questionId
    decreases |due|
  {
    if due != [] {
      var due', last := due[..|due| - 1], due[|due| - 1];
      ReviewItemsFrom(due', bank);
      forall it | it in ReviewItems(due, bank)
        ensures it.question.id == it.questionId
        ensures exists i :: 0 <= i < |due| && due[i].key.question == it.questionId
      {
        if it in ReviewItems(due', bank) {
          var i :| 0 <= i < |due'| && due'[i].key.question == it.questionId;
          assert due[i] == due'[i];
        } else {
          FindQuestionFacts(bank, last.key.question);
          assert last.key.question == it.questionId;
        }
      }
    }
  }

  method GetReviewQuestions(store: Store, user: UserId, bank: seq<Question>, limit: int, now: Time)
    returns (totalDue: int, items: seq<ReviewItem>, ghost due: seq<ErrorRow>)
    ensures FirstBy(due, store.errors, DueFor(user, now), NextReviewDay, limit)
    ensures totalDue == |due| && items == ReviewItems(due, bank)
    ensures totalDue == if limit < 0 then |DueKeys(store.errors, user, now)|
                        else Min(limit, |DueKeys(store.errors, user, now)|)
    ensures |items| <= totalDue
  {
    var selected := QueryErrors(store, DueFor(user, now), NextReviewDay, limit);
    items := [];
    var i := 0;
    while i < |selected|
      invariant 0 <= i <= |selected|
      invariant items == ReviewItems(selected[..i], bank)
    {
      assert selected[..i + 1][..i] == selected[..i];
      var r := selected[i];
      var found := FindQuestion(bank, r.key.question);
      if found.Some? {
        items := items + [ReviewItem(r.key.question, r.rec.bookId, r.rec.moduleId,
                                     r.rec.errorCount, r.rec.interval, found.value)];
      }
      i := i + 1;
    }
    assert selected[..i] == selected;
    totalDue := |selected|;
    due := selected;
    TotalDueIsCapped(due, store.errors, user, now, limit);
    ReviewItemsCount(due, bank);
  }

  // ---------------------------------------------------------------------
  // get_error_stats

  function BookOf(r: ErrorRow): int { r.rec.bookId }

  /** The response: `by_book` maps each book id to its records (its
      `count` is the group's size, its `questions` their ids). */
  datatype ErrorStats = ErrorStats(totalErrors: int, dueToday: int, mastered: int,
                                   byBook: seq<Group<int, ErrorRow>>, mostProblematic: seq<ErrorRow>)

  /** `most_problematic`: Python's stable `sorted(..., reverse=True)[:10]`. */
  const ProblematicCount: nat := 10

  method GetErrorStats(store: Store, user: UserId, now: Time) returns (st: ErrorStats, ghost rows: seq<ErrorRow>)
    ensures ScansErrors(rows, store.errors, OfUser(user))
    ensures st.totalErrors == |rows|
    ensures st.dueToday == |Filter(rows, (r: ErrorRow) => Due(r.rec, now))|
    ensures st.mastered == |Filter(rows, (r: ErrorRow) => r.rec.interval >= 30)|
    ensures st.byBook == GroupBy(rows, BookOf)
    ensures Distinct(GroupKeys(st.byBook)) && TotalMembers(st.byBook) == st.totalErrors
    ensures FirstBy(st.mostProblematic, store.errors, OfUser(user), NegErrorCount, ProblematicCount)
  {
    var all := ListErrors(store, OfUser(user));
    var byBook: seq<Group<int, ErrorRow>> := [];
    var total, dueToday, mastered := 0, 0, 0;
    var i := 0;
    while i < |all|
      invariant 0 <= i <= |all|
      invariant byBook == GroupBy(all[..i], BookOf)
      invariant total == i
      invariant dueToday == |Filter(all[..i], (r: ErrorRow) => Due(r.rec, now))|
      invariant mastered == |Filter(all[..i], (r: ErrorRow) => r.rec.interval >= 30)|
    {
      assert all[..i + 1][..i] == all[..i];
      var e := all[i];
      byBook := AddTo(byBook, e.rec.bookId, e);
      total := total + 1;
      if e.rec.nextReviewAt.Some? && e.rec.nextReviewAt.value <= now {
        dueToday := dueToday + 1;
      }
      if e.rec.interval >= 30 {
        mastered := mastered + 1;
      }
      i := i + 1;
    }
    assert all[..i] == all;
    var top := SqlLimit(SortBy(all, NegErrorCount), ProblematicCount);
    FirstByOfScan(all, store.errors, OfUser(user), NegErrorCount, ProblematicCount);
    GroupByKeys(all, BookOf);
    GroupByTotals(all, BookOf, (r: ErrorRow) => 0);
    st := ErrorStats(total, dueToday, mastered, byBook, top);
    rows := all;
  }
}
