/** The 180-question mock exam (backend/routers/tests.py, `get_mock_exam`).

    Every question of books 1..10 is collected and tagged with its book and
    module. With fewer than 180 the whole collection comes back shuffled.
    Otherwise up to 54 questions come from the user's 108 most-missed
    questions, up to 54 more from modules under 70% mastery, and the rest
    is filled at random from questions not yet picked. */
module MockExam {
  import opened Basics
  import opened Seqs
  import opened Models
  import Sampling

  const ExamSize: nat := 180

  /** `int(TOTAL_QUESTIONS * 0.3)`: 180 * 0.3 is 54.0 in binary floating
      point, so both quotas are 54. */
  const Quota: nat := 54

  /** One module of a loaded book: `module_id` may be missing. */
  datatype ModuleData = ModuleData(moduleId: Option<int>, questions: seq<Question>)

  /** The books whose `load_book_data` succeeded, by book id. */
  type Library = map<int, seq<ModuleData>>

  /** A question with the `_book_id` and `_module_id` keys added. */
  datatype Tagged = Tagged(q: Question, bookTag: int, moduleTag: Option<int>)

  /** A question as returned: stripped of its tags, or still carrying them. */
  datatype ExamItem = Clean(q: Question) | Raw(t: Tagged)

  function QId(t: Tagged): QuestionId { t.q.id }

  function ItemId(e: ExamItem): QuestionId
  {
    match e
    case Clean(q) => q.id
    case Raw(t) => t.q.id
  }

  // ---------------------------------------------------------------------
  // Collecting the questions.

  function TagModule(qs: seq<Question>, book: int, moduleId: Option<int>): (r: seq<Tagged>)
    ensures |r| == |qs|
    ensures forall i :: 0 <= i < |qs| ==> r[i] == Tagged(qs[i], book, moduleId)
  {
    seq(|qs|, i requires 0 <= i < |qs| => Tagged(qs[i], book, moduleId))
  }

  /** The questions of one book, module after module. */
  function TagBook(mods: seq<ModuleData>, book: int): seq<Tagged>
    decreases |mods|
  {
    if mods == [] then []
    else TagBook(mods[..|mods| - 1], book) + TagModule(mods[|mods| - 1].questions, book, mods[|mods| - 1].moduleId)
  }

  /** The questions of books 1..n that loaded, book after book. */
  function Corpus(lib: Library, n: nat): seq<Tagged>
    decreases n
  {
    if n == 0 then []
    else Corpus(lib, n - 1) + (if n in lib then TagBook(lib[n], n) else [])
  }

  /** A tagged question of book b is a question of one of b's modules,
      tagged with that module's id. */
  ghost predicate FromBook(lib: Library, t: Tagged)
  {
    t.bookTag in lib
    && exists j :: 0 <= j < |lib[t.bookTag]|
         && t.q in lib[t.bookTag][j].questions && t.moduleTag == lib[t.bookTag][j].moduleId
  }

  lemma {:induction false} TagBookOrigin(lib: Library, b: int, n: nat, t: Tagged)
    requires b in lib && n <= |lib[b]|
    requires t in TagBook(lib[b][..n], b)
    ensures t.bookTag == b && FromBook(lib, t)
    decreases n
  {
    var mods := lib[b][..n];
    assert mods[..n - 1] == lib[b][..n - 1];
    if t in TagBook(mods[..n - 1], b) {
      TagBookOrigin(lib, b, n - 1, t);
    } else {
      var i :| 0 <= i < |mods[n - 1].questions| && t == TagModule(mods[n - 1].questions, b, mods[n - 1].moduleId)[i];
      assert t.q in lib[b][n - 1].questions;
    }
  }

  /** Every collected question really belongs to the book and module its
      tags name, and that book is one of 1..n. */
  lemma {:induction false} CorpusOrigin(lib: Library, n: nat, t: Tagged)
    requires t in Corpus(lib, n)
    ensures 1 <= t.bookTag <= n && FromBook(lib, t)
    decreases n
  {
    if t in Corpus(lib, n - 1) {
      CorpusOrigin(lib, n - 1, t);
    } else {
      assert lib[n][..|lib[n]|] == lib[n];
      TagBookOrigin(lib, n, |lib[n]|, t);
    }
  }

  /** The collection loop over books 1..10, their modules and questions. */
  method CollectQuestions(lib: Library) returns (all: seq<Tagged>)
    ensures all == Corpus(lib, 10)
  {
    all := [];
    var b := 1;
    while b <= 10
      invariant 1 <= b <= 11
      invariant all == Corpus(lib, b - 1)
    {
      if b in lib {
        var mods := lib[b];
        var j := 0;
        var book := [];
        while j < |mods|
          invariant 0 <= j <= |mods|
          invariant book == TagBook(mods[..j], b)
        {
          var qs := mods[j].questions;
          var k := 0;
          var part := [];
          while k < |qs|
            invariant 0 <= k <= |qs|
            invariant part == TagModule(qs[..k], b, mods[j].moduleId)
          {
            part := part + [Tagged(qs[k], b, mods[j].moduleId)];
            k := k + 1;
          }
          assert qs[..k] == qs;
          assert mods[..j + 1][..j] == mods[..j];
          book := book + part;
          j := j + 1;
        }
        assert mods[..j] == mods;
        all := all + book;
      }
      b := b + 1;
    }
  }

  // ---------------------------------------------------------------------
  // The user's most-missed questions.

  /** `top` answers "the user's records, most errors first, LIMIT n". */
  ghost predicate MostMissed(top: seq<ErrorRow>, m: map<ErrorKey, ErrorRec>, user: UserId, n: nat)
  {
    FirstBy(top, m, OfUser(user), NegErrorCount, n)
  }

  function ErrorIds(top: seq<ErrorRow>): set<QuestionId>
  {
    set i | 0 <= i < |top| :: top[i].key.question
  }

  // ---------------------------------------------------------------------
  // Pools the three parts are drawn from.

  /** `{q.get("question_id") for q in s}` */
  function IdsOf(s: seq<Tagged>): set<QuestionId>
  {
    set i | 0 <= i < |s| :: s[i].q.id
  }

  lemma {:induction false} IdsOfBound(s: seq<Tagged>)
    ensures |IdsOf(s)| <= |s|
    decreases |s|
  {
    if s != [] {
      var s' := s[..|s| - 1];
      IdsOfBound(s');
      assert IdsOf(s) == IdsOf(s') + {s[|s| - 1].q.id} by {
        forall x | x in IdsOf(s) ensures x in IdsOf(s') + {s[|s| - 1].q.id} {
          var i :| 0 <= i < |s| && s[i].q.id == x;
          if i < |s| - 1 {
            assert s'[i] == s[i];
          }
        }
        forall x | x in IdsOf(s') ensures x in IdsOf(s) {
          var i :| 0 <= i < |s'| && s'[i].q.id == x;
          assert s[i] == s'[i];
        }
      }
    }
  }

  /** `[q for q in all if q["question_id"] in ids]` */
  function WithIds(all: seq<Tagged>, ids: set<QuestionId>): (r: seq<Tagged>)
    ensures forall t :: t in r <==> t in all && t.q.id in ids
    ensures multiset(r) <= multiset(all)
  {
    FilterSubMultiset(all, (t: Tagged) => t.q.id in ids);
    forall t ensures t in Filter(all, (t: Tagged) => t.q.id in ids) <==> t in all && t.q.id in ids {
      FilterMembership(all, (t: Tagged) => t.q.id in ids, t);
    }
    Filter(all, (t: Tagged) => t.q.id in ids)
  }

  /** `[q for q in all if q["question_id"] not in ids]` */
  function WithoutIds(all: seq<Tagged>, ids: set<QuestionId>): (r: seq<Tagged>)
    ensures forall t :: t in r <==> t in all && t.q.id !in ids
    ensures multiset(r) <= multiset(all)
    decreases |all|
  {
    if all == [] then []
    else
      var r := WithoutIds(all[..|all| - 1], ids);
      var x := all[|all| - 1];
      assert all == all[..|all| - 1] + [x];
      if x.q.id !in ids then r + [x] else r
  }

  /** With distinct ids, removing a set of ids removes at most that many
      questions. */
  lemma {:induction false} WithoutIdsSize(all: seq<Tagged>, ids: set<QuestionId>)
    requires UniqueBy(all, QId)
    ensures |WithoutIds(all, ids)| >= |all| - |ids|
    decreases |all|
  {
    if all != [] {
      var s' := all[..|all| - 1];
      var x := all[|all| - 1];
      assert UniqueBy(s', QId);
      if x.q.id in ids {
        var ids' := ids - {x.q.id};
        WithoutIdsSize(s', ids');
        WithoutIdsSame(s', ids, ids');
      } else {
        WithoutIdsSize(s', ids);
      }
    }
  }

  lemma {:induction false} WithoutIdsSame(s: seq<Tagged>, a: set<QuestionId>, b: set<QuestionId>)
    requires forall i :: 0 <= i < |s| ==> (s[i].q.id in a <==> s[i].q.id in b)
    ensures WithoutIds(s, a) == WithoutIds(s, b)
    decreases |s|
  {
    if s != [] {
      WithoutIdsSame(s[..|s| - 1], a, b);
    }
  }

  /** The questions of one progress record's module not yet used. */
  predicate InModule(k: ModuleKey, used: set<QuestionId>, t: Tagged)
  {
    t.bookTag == k.bookId && t.moduleTag == Some(k.moduleId) && t.q.id !in used
  }

  /** The weak-module loop: for each weak record, in order, the unused
      questions of its module. */
  function WeakPool(ks: seq<ModuleKey>, all: seq<Tagged>, used: set<QuestionId>): seq<Tagged>
    decreases |ks|
  {
    if ks == [] then []
    else WeakPool(ks[..|ks| - 1], all, used) + Filter(all, (t: Tagged) => InModule(ks[|ks| - 1], used, t))
  }

  /** No two records name the same (book, module). */
  predicate DistinctModules(ks: seq<ModuleKey>)
  {
    forall i, j :: 0 <= i < j < |ks| ==> ks[i].bookId != ks[j].bookId || ks[i].moduleId != ks[j].moduleId
  }

  ghost predicate InSomeModule(ks: seq<ModuleKey>, used: set<QuestionId>, t: Tagged)
  {
    exists i :: 0 <= i < |ks| && InModule(ks[i], used, t)
  }

  /** With distinct modules, the pool holds each question of a weak module
      exactly as often as the collection does. */
  lemma {:induction false} WeakPoolCount(ks: seq<ModuleKey>, all: seq<Tagged>, used: set<QuestionId>, t: Tagged)
    requires DistinctModules(ks)
    ensures multiset(WeakPool(ks, all, used))[t] == if InSomeModule(ks, used, t) then multiset(all)[t] else 0
    decreases |ks|
  {
    if ks != [] {
      var ks' := ks[..|ks| - 1];
      var k := ks[|ks| - 1];
      WeakPoolCount(ks', all, used, t);
      FilterCount(all, t => InModule(k, used, t), t);
      if InSomeModule(ks', used, t) {
        var i :| 0 <= i < |ks'| && InModule(ks'[i], used, t);
        assert ks[i] == ks'[i];
      }
      if InSomeModule(ks, used, t) && !InModule(k, used, t) {
        var i :| 0 <= i < |ks| && InModule(ks[i], used, t);
        assert ks'[i] == ks[i];
      }
    }
  }

  lemma WeakPoolFacts(ks: seq<ModuleKey>, all: seq<Tagged>, used: set<QuestionId>)
    requires DistinctModules(ks)
    ensures multiset(WeakPool(ks, all, used)) <= multiset(all)
    ensures forall t :: t in WeakPool(ks, all, used) ==> t in all && InSomeModule(ks, used, t)
  {
    forall t ensures multiset(WeakPool(ks, all, used))[t] <= multiset(all)[t] {
      WeakPoolCount(ks, all, used, t);
    }
    forall t | t in WeakPool(ks, all, used) ensures t in all && InSomeModule(ks, used, t) {
      WeakPoolCount(ks, all, used, t);
    }
  }

  /** Distinct modules are needed: two progress rows for the same module
      put each of its questions into the pool twice. */
  lemma DuplicateRowsRepeatQuestions(ks: seq<ModuleKey>, all: seq<Tagged>, t: Tagged)
    requires |ks| == 2 && ks[0] == ks[1] && InModule(ks[0], {}, t)
    requires all == [t]
    ensures !UniqueBy(WeakPool(ks, all, {}), QId)
  {
    var f := Filter(all, (u: Tagged) => InModule(ks[0], {}, u));
    assert f == [t] by {
      assert all[..0] == [];
    }
    assert ks[..1][..0] == [];
    assert WeakPool(ks[..1], all, {}) == f;
    var pool := WeakPool(ks, all, {});
    assert pool == f + f;
    assert QId(pool[0]) == QId(pool[1]);
  }

  /** `ks` are the user's modules under 70%, each once. */
  ghost predicate WeakModules(ks: seq<ModuleKey>, p: map<ModuleKey, ProgressRec>, user: UserId)
  {
    && (forall i :: 0 <= i < |ks| ==> ks[i].user == user && ks[i] in p && Weak(p[ks[i]]))
    && (forall k :: k in p && k.user == user && Weak(p[k]) ==> k in ks)
    && DistinctModules(ks)
  }

  /** `query(UserProgress).filter(user, mastery_percent < 70).all()` */
  method WeakModuleKeys(store: Store, user: UserId) returns (ks: seq<ModuleKey>)
    ensures WeakModules(ks, store.progress, user)
  {
    ghost var wanted := set k | k in store.progress && k.user == user && Weak(store.progress[k]);
    ks := Sampling.Enumerate(set k | k in store.progress && k.user == user && Weak(store.progress[k]));
    assert forall i :: 0 <= i < |ks| ==> ks[i] in wanted;
  }

  // ---------------------------------------------------------------------
  // The endpoint.

  /** Stripping the tags keeps each question's id, so questions with
      distinct ids stay distinct. */
  function Cleans(s: seq<Tagged>): (r: seq<ExamItem>)
    ensures |r| == |s|
    ensures forall i :: 0 <= i < |s| ==> r[i] == Clean(s[i].q)
    ensures forall i :: 0 <= i < |s| ==> ItemId(r[i]) == QId(s[i])
    ensures UniqueBy(s, QId) ==> UniqueBy(r, ItemId)
  {
    seq(|s|, i requires 0 <= i < |s| => Clean(s[i].q))
  }

  /** Returning the questions with their tags keeps each id as well. */
  function Raws(s: seq<Tagged>): (r: seq<ExamItem>)
    ensures |r| == |s|
    ensures forall i :: 0 <= i < |s| ==> r[i] == Raw(s[i])
    ensures forall i :: 0 <= i < |s| ==> ItemId(r[i]) == QId(s[i])
    ensures UniqueBy(s, QId) ==> UniqueBy(r, ItemId)
  {
    seq(|s|, i requires 0 <= i < |s| => Raw(s[i]))
  }

  /** The three draws, given the pools they come from. */
  ghost predicate Drawn(all: seq<Tagged>, top: seq<ErrorRow>, weak: seq<ModuleKey>,
                        errorPart: seq<Tagged>, weakPart: seq<Tagged>, fillPart: seq<Tagged>)
  {
    var errorPool := WithIds(all, ErrorIds(top));
    var weakPool := WeakPool(weak, all, IdsOf(errorPart));
    var fillPool := WithoutIds(all, IdsOf(errorPart) + IdsOf(weakPart));
    && |errorPart| == Min(Quota, |errorPool|) && multiset(errorPart) <= multiset(errorPool)
    && |weakPart| == Min(Quota, |weakPool|) && multiset(weakPart) <= multiset(weakPool)
    && |fillPart| == Min(ExamSize - |errorPart| - |weakPart|, |fillPool|) && multiset(fillPart) <= multiset(fillPool)
  }

  /** Step 1: `random.sample` of up to 54 collected questions whose id is
      among the most-missed records. */
  method DrawFromErrors(all: seq<Tagged>, top: seq<ErrorRow>) returns (part: seq<Tagged>)
    ensures |part| == Min(Quota, |WithIds(all, ErrorIds(top))|)
    ensures multiset(part) <= multiset(WithIds(all, ErrorIds(top)))
  {
    var errorIds := set r | r in top :: r.key.question;
    assert errorIds == ErrorIds(top) by {
      forall x | x in ErrorIds(top) ensures x in errorIds {
        var i :| 0 <= i < |top| && top[i].key.question == x;
        assert top[i] in top;
      }
    }
    var errorPool := WithIds(all, errorIds);
    part := [];
    if |errorPool| > 0 {
      part := Sampling.Sample(errorPool, Min(Quota, |errorPool|));
    }
  }

  /** Step 2: `random.sample` of up to 54 unused questions of weak modules. */
  method DrawFromWeak(all: seq<Tagged>, weak: seq<ModuleKey>, used: set<QuestionId>) returns (part: seq<Tagged>)
    ensures |part| == Min(Quota, |WeakPool(weak, all, used)|)
    ensures multiset(part) <= multiset(WeakPool(weak, all, used))
  {
    var weakPool := [];
    var i := 0;
    while i < |weak|
      invariant 0 <= i <= |weak|
      invariant weakPool == WeakPool(weak[..i], all, used)
    {
      assert weak[..i + 1][..i] == weak[..i];
      weakPool := weakPool + Filter(all, (t: Tagged) => InModule(weak[i], used, t));
      i := i + 1;
    }
    assert weak[..i] == weak;
    part := [];
    if |weakPool| > 0 {
      part := Sampling.Sample(weakPool, Min(Quota, |weakPool|));
    }
  }

  /** Step 3: `random.sample` of the remaining places from unused questions. */
  method DrawFill(all: seq<Tagged>, used: set<QuestionId>, remaining: int) returns (part: seq<Tagged>)
    requires remaining > 0
    ensures |part| == Min(remaining, |WithoutIds(all, used)|)
    ensures multiset(part) <= multiset(WithoutIds(all, used))
  {
    var available := WithoutIds(all, used);
    part := [];
    if |available| > 0 && remaining > 0 {
      part := Sampling.Sample(available, Min(remaining, |available|));
    }
  }

  method GetMockExam(store: Store, user: UserId, lib: Library)
    returns (exam: seq<ExamItem>, ghost all: seq<Tagged>, ghost top: seq<ErrorRow>, ghost weak: seq<ModuleKey>,
             ghost errorPart: seq<Tagged>, ghost weakPart: seq<Tagged>, ghost fillPart: seq<Tagged>,
             ghost shuffled: seq<Tagged>)
    ensures all == Corpus(lib, 10)
    ensures |all| < ExamSize ==> exam == Raws(shuffled) && multiset(shuffled) == multiset(all)
    ensures |all| >= ExamSize ==>
      && MostMissed(top, store.errors, user, 2 * Quota)
      && WeakModules(weak, store.progress, user)
      && Drawn(all, top, weak, errorPart, weakPart, fillPart)
      && exam == Cleans(shuffled) && multiset(shuffled) == multiset(errorPart + weakPart + fillPart)
    ensures |exam| <= ExamSize
    ensures UniqueBy(all, QId) ==> UniqueBy(exam, ItemId)
    ensures UniqueBy(all, QId) && |all| >= ExamSize ==> |exam| == ExamSize
  {
    var questions := CollectQuestions(lib);
    all := questions;
    if |questions| < ExamSize {
      var mixed := Sampling.Shuffle(questions);
      shuffled := mixed;
      exam := Raws(mixed);
      assert |mixed| == |multiset(mixed)| == |questions|;
      top, weak, errorPart, weakPart, fillPart := [], [], [], [], [];
      if UniqueBy(questions, QId) {
        RawsUnique(mixed, questions);
      }
      return;
    }

    var mostMissed := QueryErrors(store, OfUser(user), NegErrorCount, 2 * Quota);
    var fromErrors := DrawFromErrors(questions, mostMissed);
    var used := IdsOf(fromErrors);

    var weakKeys := WeakModuleKeys(store, user);
    var fromWeak := DrawFromWeak(questions, weakKeys, used);
    used := used + IdsOf(fromWeak);

    var remaining := ExamSize - (|fromErrors| + |fromWeak|);
    var fill := DrawFill(questions, used, remaining);
    assert |fill| <= remaining;

    var selected := fromErrors + fromWeak + fill;
    assert |selected| == |fromErrors| + |fromWeak| + |fill| <= ExamSize;
    var mixed := Sampling.Shuffle(selected);
    assert |mixed| == |multiset(mixed)| == |selected|;
    exam := Cleans(mixed);
    top, weak := mostMissed, weakKeys;
    errorPart, weakPart, fillPart, shuffled := fromErrors, fromWeak, fill, mixed;
    if UniqueBy(questions, QId) {
      ExamIsFull(all, top, weak, errorPart, weakPart, fillPart, shuffled);
    }
  }

  /** With distinct ids there are always enough unused questions to fill
      the exam up to 180. */
  lemma {:induction false} SelectionIsFull(all: seq<Tagged>, top: seq<ErrorRow>, weak: seq<ModuleKey>,
                                           errorPart: seq<Tagged>, weakPart: seq<Tagged>, fillPart: seq<Tagged>)
    requires UniqueBy(all, QId) && |all| >= ExamSize
    requires Drawn(all, top, weak, errorPart, weakPart, fillPart)
    ensures |errorPart + weakPart + fillPart| == ExamSize
  {
    var used := IdsOf(errorPart) + IdsOf(weakPart);
    IdsOfBound(errorPart);
    IdsOfBound(weakPart);
    assert |used| <= |errorPart| + |weakPart|;
    WithoutIdsSize(all, used);
  }

  /** A part drawn from questions whose ids avoid `used` shares no id with
      a part whose ids are all in `used`. */
  lemma AvoidsUsed(a: seq<Tagged>, b: seq<Tagged>, used: set<QuestionId>)
    requires IdsOf(a) <= used
    requires forall y :: y in b ==> y.q.id !in used
    ensures forall x, y :: x in a && y in b ==> QId(x) != QId(y)
  {
    forall x, y | x in a && y in b ensures QId(x) != QId(y) {
      var j :| 0 <= j < |a| && a[j] == x;
    }
  }

  lemma WeakPartAvoids(all: seq<Tagged>, weak: seq<ModuleKey>, used: set<QuestionId>, weakPart: seq<Tagged>)
    requires DistinctModules(weak)
    requires multiset(weakPart) <= multiset(WeakPool(weak, all, used))
    ensures multiset(weakPart) <= multiset(all)
    ensures forall y :: y in weakPart ==> y.q.id !in used
  {
    WeakPoolFacts(weak, all, used);
    forall y | y in weakPart ensures y.q.id !in used {
      assert y in multiset(weakPart);
      assert y in multiset(WeakPool(weak, all, used));
      assert y in WeakPool(weak, all, used);
      assert InSomeModule(weak, used, y);
    }
  }

  lemma FillPartAvoids(all: seq<Tagged>, used: set<QuestionId>, fillPart: seq<Tagged>)
    requires multiset(fillPart) <= multiset(WithoutIds(all, used))
    ensures multiset(fillPart) <= multiset(all)
    ensures forall y :: y in fillPart ==> y.q.id !in used
  {
    forall y | y in fillPart ensures y.q.id !in used {
      assert y in multiset(WithoutIds(all, used));
    }
  }

  /** With distinct ids the three draws never share a question. */
  lemma SelectionIsUnique(all: seq<Tagged>, top: seq<ErrorRow>, weak: seq<ModuleKey>,
                          errorPart: seq<Tagged>, weakPart: seq<Tagged>, fillPart: seq<Tagged>)
    requires UniqueBy(all, QId)
    requires DistinctModules(weak)
    requires Drawn(all, top, weak, errorPart, weakPart, fillPart)
    ensures UniqueBy(errorPart + weakPart + fillPart, QId)
  {
    var used := IdsOf(errorPart) + IdsOf(weakPart);
    WeakPartAvoids(all, weak, IdsOf(errorPart), weakPart);
    FillPartAvoids(all, used, fillPart);
    SubMultisetUnique(errorPart, all, QId);
    SubMultisetUnique(weakPart, all, QId);
    SubMultisetUnique(fillPart, all, QId);
    AvoidsUsed(errorPart, weakPart, IdsOf(errorPart));
    AppendUnique(errorPart, weakPart, QId);
    assert IdsOf(errorPart + weakPart) <= used by {
      forall x | x in IdsOf(errorPart + weakPart) ensures x in used {
        var i :| 0 <= i < |errorPart + weakPart| && (errorPart + weakPart)[i].q.id == x;
        if i < |errorPart| {
          assert (errorPart + weakPart)[i] == errorPart[i];
        } else {
          assert (errorPart + weakPart)[i] == weakPart[i - |errorPart|];
        }
      }
    }
    AvoidsUsed(errorPart + weakPart, fillPart, used);
    AppendUnique(errorPart + weakPart, fillPart, QId);
  }

  /** A rearrangement of questions with distinct ids, returned with their
      tags, repeats no question. */
  lemma RawsUnique(shuffled: seq<Tagged>, all: seq<Tagged>)
    requires multiset(shuffled) == multiset(all) && UniqueBy(all, QId)
    ensures UniqueBy(Raws(shuffled), ItemId)
  {
    SubMultisetUnique(shuffled, all, QId);
    var r := Raws(shuffled);
    forall i, j | 0 <= i < j < |r| ensures ItemId(r[i]) != ItemId(r[j]) {
      assert ItemId(r[i]) == QId(shuffled[i]) && ItemId(r[j]) == QId(shuffled[j]);
    }
  }

  /** With at least 180 questions whose ids are distinct, the exam has
      exactly 180 questions and never repeats one. */
  lemma ExamIsFull(all: seq<Tagged>, top: seq<ErrorRow>, weak: seq<ModuleKey>,
                   errorPart: seq<Tagged>, weakPart: seq<Tagged>, fillPart: seq<Tagged>, shuffled: seq<Tagged>)
    requires UniqueBy(all, QId) && |all| >= ExamSize
    requires DistinctModules(weak)
    requires Drawn(all, top, weak, errorPart, weakPart, fillPart)
    requires multiset(shuffled) == multiset(errorPart + weakPart + fillPart)
    ensures |Cleans(shuffled)| == ExamSize
    ensures UniqueBy(Cleans(shuffled), ItemId)
  {
    var selected := errorPart + weakPart + fillPart;
    SelectionIsFull(all, top, weak, errorPart, weakPart, fillPart);
    SelectionIsUnique(all, top, weak, errorPart, weakPart, fillPart);
    assert |shuffled| == |multiset(shuffled)| == |selected|;
    SubMultisetUnique(shuffled, selected, QId);
    var r := Cleans(shuffled);
    forall i, j | 0 <= i < j < |r| ensures ItemId(r[i]) != ItemId(r[j]) {
      assert ItemId(r[i]) == QId(shuffled[i]) && ItemId(r[j]) == QId(shuffled[j]);
    }
  }
}
