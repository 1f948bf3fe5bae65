/** The four tables the routers read and write (backend/models.py) and the
    store that holds them. A row of `user_errors` is identified by
    (user, question), a row of `user_progress` by (user, book, module); the
    maps make each identity occur at most once. Timestamps are whole days. */
module Models {
  import opened Basics
  import opened Seqs
  import Sampling

  type UserId = int
  type QuestionId = string
  type Time = int

  // ---------------------------------------------------------------------
  // user_errors: one spaced-repetition record per (user, question).

  /** A question of the content files. Only its id matters to the routers;
      the rest of its JSON is carried along unchanged. */
  datatype Question = Question(id: QuestionId, content: string)

  datatype ErrorKey = ErrorKey(user: UserId, question: QuestionId)

  datatype ErrorRec = ErrorRec(
    bookId: int,
    moduleId: int,
    errorCount: int,
    lastErrorAt: Option<Time>,
    lastCorrectAt: Option<Time>,
    nextReviewAt: Option<Time>,
    interval: int)

  /** Due for review on day `today`: SQL `next_review_at <= today` (false
      for NULL), the same test `error.next_review_at and ... <= today` makes. */
  predicate Due(r: ErrorRec, today: Time)
  {
    r.nextReviewAt.Some? && r.nextReviewAt.value <= today
  }

  datatype ErrorRow = ErrorRow(key: ErrorKey, rec: ErrorRec)

  function ErrorRowKey(r: ErrorRow): ErrorKey { r.key }

  function ErrorRowQuestion(r: ErrorRow): QuestionId { r.key.question }

  // ---------------------------------------------------------------------
  // user_progress: one mastery record per (user, book, module).

  datatype ModuleKey = ModuleKey(user: UserId, bookId: int, moduleId: int)

  /** `mastery_percent` is not stored: every writer recomputes it from the
      two counts. Sync and the module test guard the division with
      `seen > 0`, giving Percent of correct over seen; `update_progress`
      divides unguarded (`RatioReaches80`), which differs only once a stored
      count has gone negative. */
  datatype ProgressRec = ProgressRec(
    seen: int,
    correct: int,
    isUnlocked: bool,
    completedAt: Option<Time>)

  datatype ProgressRow = ProgressRow(key: ModuleKey, rec: ProgressRec)

  function ProgressRowKey(r: ProgressRow): ModuleKey { r.key }

  /** mastery >= 80, the completion and unlock threshold, in integers. */
  predicate Completes(r: ProgressRec)
  {
    r.seen > 0 && 100 * r.correct >= 80 * r.seen
  }

  /** mastery < 70, the weak-module cut-off of the mock exam, in integers. */
  predicate Weak(r: ProgressRec)
  {
    !(r.seen > 0 && 100 * r.correct >= 70 * r.seen)
  }

  /** `update_progress`'s unguarded `correct / seen * 100 >= 80`, in
      integers: dividing by a negative count flips the inequality. */
  predicate RatioReaches80(r: ProgressRec)
  {
    r.seen != 0 && (if r.seen > 0 then 100 * r.correct >= 80 * r.seen else 100 * r.correct <= 80 * r.seen)
  }

  /** The integer form agrees with the real division for any non-zero count. */
  lemma UnguardedThreshold(r: ProgressRec)
    requires r.seen != 0
    ensures (r.correct as real) / (r.seen as real) * 100.0 >= 80.0 <==> RatioReaches80(r)
  {
    var s, c := r.seen as real, r.correct as real;
    var m := c / s;
    assert m * s == c;
    if r.seen > 0 {
      if m * 100.0 >= 80.0 {
        assert m * 100.0 * s >= 80.0 * s;
      } else {
        assert m * 100.0 * s < 80.0 * s;
      }
    } else {
      if m * 100.0 >= 80.0 {
        assert m * 100.0 * s <= 80.0 * s;
      } else {
        assert m * 100.0 * s > 80.0 * s;
      }
    }
  }

  lemma PercentBound(seen: int, correct: int, pct: real)
    requires seen > 0
    ensures Percent(correct, seen) >= pct
        <==> (correct as real) * 100.0 >= pct * (seen as real)
  {
    var s, c := seen as real, correct as real;
    var m := c / s;
    assert m * s == c;
    if m * 100.0 >= pct {
      assert m * 100.0 * s >= pct * s;
    } else {
      assert m * 100.0 * s < pct * s;
    }
  }

  /** The integer predicates agree exactly with the percentage the source
      compares against 80 and 70. */
  lemma MasteryThresholds(r: ProgressRec)
    ensures Percent(r.correct, r.seen) >= 80.0 <==> Completes(r)
    ensures Percent(r.correct, r.seen) < 70.0 <==> Weak(r)
  {
    if r.seen > 0 {
      PercentBound(r.seen, r.correct, 80.0);
      PercentBound(r.seen, r.correct, 70.0);
    }
  }

  /** The merge an existing record receives from a module test and from a
      sync: each count becomes the larger of the stored and the reported
      value, and the record is stamped complete the first time the merged
      counts reach 80%. */
  function MergeCounts(r: ProgressRec, seen: int, correct: int, now: Time): ProgressRec
  {
    var m := r.(seen := Max(r.seen, seen), correct := Max(r.correct, correct));
    if Completes(m) && m.completedAt.None? then m.(completedAt := Some(now)) else m
  }

  // ---------------------------------------------------------------------
  // test_results and calculator_sessions: append-only tables.

  /** One entry of `question_details`; `correct` is `q.get("correct", False)`. */
  datatype Detail = Detail(questionId: QuestionId, correct: bool)

  datatype TestResult = TestResult(
    user: UserId,
    testType: string,
    testMode: string,
    bookId: Option<int>,
    moduleId: Option<int>,
    totalQuestions: int,
    correctAnswers: int,
    scorePercent: real,
    timeSpentSeconds: int,
    details: seq<Detail>,
    createdAt: Time)

  datatype CalcSession = CalcSession(
    user: UserId,
    worksheetType: string,
    problemId: string,
    isCorrect: bool,
    timeSpentSeconds: int)

  // ---------------------------------------------------------------------

  class Store {
    var errors: map<ErrorKey, ErrorRec>
    var progress: map<ModuleKey, ProgressRec>
    var testResults: seq<TestResult>
    var calcSessions: seq<CalcSession>

    constructor ()
      ensures errors == map[] && progress == map[]
      ensures testResults == [] && calcSessions == []
    {
      errors := map[];
      progress := map[];
      testResults := [];
      calcSessions := [];
    }
  }

  function ErrorKeysOf(rows: seq<ErrorRow>): (ks: seq<ErrorKey>)
    ensures |ks| == |rows|
    ensures forall i :: 0 <= i < |rows| ==> ks[i] == rows[i].key
  {
    seq(|rows|, i requires 0 <= i < |rows| => rows[i].key)
  }

  function ModuleKeysOf(rows: seq<ProgressRow>): (ks: seq<ModuleKey>)
    ensures |ks| == |rows|
    ensures forall i :: 0 <= i < |rows| ==> ks[i] == rows[i].key
  {
    seq(|rows|, i requires 0 <= i < |rows| => rows[i].key)
  }

  /** Sort key of `order_by(desc(error_count))`. */
  function NegErrorCount(r: ErrorRow): int { -r.rec.errorCount }

  /** The WHERE clause of a query on user_errors, as a test on a row. */
  function OfUser(user: UserId): ErrorRow -> bool
  {
    (r: ErrorRow) => r.key.user == user
  }

  function DueFor(user: UserId, today: Time): ErrorRow -> bool
  {
    (r: ErrorRow) => r.key.user == user && Due(r.rec, today)
  }

  /** `rows` is what a query on user_errors without ORDER BY returns: each
      record passing the WHERE clause exactly once, in some order. */
  ghost predicate ScansErrors(rows: seq<ErrorRow>, m: map<ErrorKey, ErrorRec>, want: ErrorRow -> bool)
  {
    && (forall i :: 0 <= i < |rows| ==>
          rows[i].key in m && m[rows[i].key] == rows[i].rec && want(rows[i]))
    && UniqueBy(rows, ErrorRowKey)
    && (forall k :: k in m && want(ErrorRow(k, m[k])) ==> k in ErrorKeysOf(rows))
  }

  /** `top` is a valid answer to "the records passing `want`, ORDER BY
      `key`, LIMIT n": distinct matching records in ascending key order,
      n of them or all of them (SQLite reads a negative n as no limit), and
      no matching record left out sorts before one kept. */
  ghost predicate FirstBy(top: seq<ErrorRow>, m: map<ErrorKey, ErrorRec>, want: ErrorRow -> bool,
                          key: ErrorRow -> int, n: int)
  {
    && (forall i :: 0 <= i < |top| ==>
          top[i].key in m && m[top[i].key] == top[i].rec && want(top[i]))
    && UniqueBy(top, ErrorRowKey)
    && SortedBy(top, key)
    && (n >= 0 ==> |top| <= n)
    && (|top| == n || forall k :: k in m && want(ErrorRow(k, m[k])) ==> k in ErrorKeysOf(top))
    && (forall k, i :: k in m && want(ErrorRow(k, m[k])) && k !in ErrorKeysOf(top) && 0 <= i < |top| ==>
          key(top[i]) <= key(ErrorRow(k, m[k])))
  }

  /** Sorting a scan and keeping its first n rows answers the query. */
  lemma FirstByOfScan(rows: seq<ErrorRow>, m: map<ErrorKey, ErrorRec>, want: ErrorRow -> bool,
                      key: ErrorRow -> int, n: int)
    requires ScansErrors(rows, m, want)
    ensures FirstBy(SqlLimit(SortBy(rows, key), n), m, want, key, n)
  {
    var sorted := SortBy(rows, key);
    var top := SqlLimit(sorted, n);
    SortBySorted(rows, key);
    SubMultisetUnique(sorted, rows, ErrorRowKey);
    assert UniqueBy(top, ErrorRowKey) && SortedBy(top, key) by {
      forall i | 0 <= i < |top| ensures top[i] == sorted[i] { }
    }
    forall i | 0 <= i < |top|
      ensures top[i].key in m && m[top[i].key] == top[i].rec && want(top[i])
    {
      assert top[i] == sorted[i];
      assert sorted[i] in multiset(rows);
      var p :| 0 <= p < |rows| && rows[p] == sorted[i];
    }
    forall k | k in m && want(ErrorRow(k, m[k])) && k !in ErrorKeysOf(top)
      ensures |top| == n
      ensures forall i :: 0 <= i < |top| ==> key(top[i]) <= key(ErrorRow(k, m[k]))
    {
      RowAfterTop(rows, sorted, top, m, want, key, k);
    }
  }

  lemma RowAfterTop(rows: seq<ErrorRow>, sorted: seq<ErrorRow>, top: seq<ErrorRow>,
                    m: map<ErrorKey, ErrorRec>, want: ErrorRow -> bool, key: ErrorRow -> int, k: ErrorKey)
    requires ScansErrors(rows, m, want)
    requires multiset(sorted) == multiset(rows) && SortedBy(sorted, key)
    requires top <= sorted
    requires k in m && want(ErrorRow(k, m[k])) && k !in ErrorKeysOf(top)
    ensures |top| < |sorted|
    ensures forall i :: 0 <= i < |top| ==> key(top[i]) <= key(ErrorRow(k, m[k]))
  {
    assert k in ErrorKeysOf(rows);
    var p :| 0 <= p < |rows| && ErrorKeysOf(rows)[p] == k;
    assert rows[p] in multiset(sorted);
    var q :| 0 <= q < |sorted| && sorted[q] == rows[p];
    forall i | 0 <= i < |top| ensures key(top[i]) <= key(ErrorRow(k, m[k])) {
      assert key(sorted[i]) <= key(sorted[q]);
    }
  }

  /** `query(UserError).filter(...).order_by(key).limit(n).all()` */
  method QueryErrors(store: Store, want: ErrorRow -> bool, key: ErrorRow -> int, n: int)
    returns (top: seq<ErrorRow>)
    ensures FirstBy(top, store.errors, want, key, n)
  {
    var rows := ListErrors(store, want);
    top := SqlLimit(SortBy(rows, key), n);
    FirstByOfScan(rows, store.errors, want, key, n);
  }

  /** The same for `query(UserProgress).filter(user_id == user).all()`. */
  ghost predicate ScansProgress(rows: seq<ProgressRow>, m: map<ModuleKey, ProgressRec>, user: UserId)
  {
    && (forall i :: 0 <= i < |rows| ==>
          rows[i].key.user == user && rows[i].key in m && m[rows[i].key] == rows[i].rec)
    && UniqueBy(rows, ProgressRowKey)
    && (forall k :: k in m && k.user == user ==> k in ModuleKeysOf(rows))
  }

  /** `query(UserError).filter(...).all()` */
  method ListErrors(store: Store, want: ErrorRow -> bool) returns (rows: seq<ErrorRow>)
    ensures ScansErrors(rows, store.errors, want)
  {
    ghost var mine := set k | k in store.errors && want(ErrorRow(k, store.errors[k]));
    var keys := Sampling.Enumerate(set k | k in store.errors && want(ErrorRow(k, store.errors[k])));
    assert forall j :: 0 <= j < |keys| ==> keys[j] in mine;
    rows := [];
    var i := 0;
    while i < |keys|
      invariant 0 <= i <= |keys|
      invariant |rows| == i
      invariant forall j :: 0 <= j < i ==> rows[j] == ErrorRow(keys[j], store.errors[keys[j]])
    {
      rows := rows + [ErrorRow(keys[i], store.errors[keys[i]])];
      i := i + 1;
    }
    assert ErrorKeysOf(rows) == keys;
  }

  method ListProgress(store: Store, user: UserId) returns (rows: seq<ProgressRow>)
    ensures ScansProgress(rows, store.progress, user)
  {
    ghost var mine := set k | k in store.progress && k.user == user;
    var keys := Sampling.Enumerate(set k | k in store.progress && k.user == user);
    assert forall j :: 0 <= j < |keys| ==> keys[j] in mine;
    rows := [];
    var i := 0;
    while i < |keys|
      invariant 0 <= i <= |keys|
      invariant |rows| == i
      invariant forall j :: 0 <= j < i ==> rows[j] == ProgressRow(keys[j], store.progress[keys[j]])
    {
      rows := rows + [ProgressRow(keys[i], store.progress[keys[i]])];
      i := i + 1;
    }
    assert ModuleKeysOf(rows) == keys;
  }
}
