/** BA II Plus practice (backend/routers/calculator.py).

    Problems come per worksheet type, from `<type>_problems.json` when that
    file exists and otherwise from the built-in samples. Listing problems
    validates the type, filters by difficulty and draws at most `limit` of
    them; looking a problem up searches the sample types only; checking an
    answer records a practice session; the statistics count sessions per
    worksheet type. Whether an answer is right is an input here (the
    tolerance test on floats is not modelled). */
module Calculator {
  import opened Basics
  import opened Seqs
  import opened Text
  import opened Models
  import Sampling

  /** The fields of a problem the router reads; a missing key is None. */
  datatype Problem = Problem(problemId: Option<string>, worksheet: Option<string>, difficulty: Option<string>)

  /** The problem files that exist, by lower-cased worksheet type, each as
      the `problems` list it holds. */
  type ProblemFiles = map<string, seq<Problem>>

  datatype Failure = BadRequest | NegativeSample | NotFound | MissingWorksheet

  /** The types `get_problems` accepts. */
  const ValidTypes: seq<string> := ["TVM", "CF", "Bond", "Stats", "Interest", "Amort"]

  /** The keys of SAMPLE_PROBLEMS, in order: the types a lookup searches. */
  const SampleTypes: seq<string> := ["TVM", "CF", "Bond", "Stats", "Interest"]

  function Sample(id: string, worksheet: string, difficulty: string): Problem
  {
    Problem(Some(id), Some(worksheet), Some(difficulty))
  }

  /** `SAMPLE_PROBLEMS`: the built-in problems, by worksheet type. */
  const Samples: map<string, seq<Problem>> := map[
    "TVM" := [Sample("CALC-TVM-001", "TVM", "medium"), Sample("CALC-TVM-002", "TVM", "medium"),
              Sample("CALC-TVM-003", "TVM", "easy")],
    "CF" := [Sample("CALC-CF-001", "CF", "medium"), Sample("CALC-CF-002", "CF", "medium")],
    "Bond" := [Sample("CALC-BOND-001", "Bond", "hard")],
    "Stats" := [Sample("CALC-STAT-001", "Stats", "easy")],
    "Interest" := [Sample("CALC-INT-001", "Interest", "easy")]]

  /** `SAMPLE_PROBLEMS.get(worksheet_type, [])` */
  function SampleProblems(t: string): seq<Problem>
  {
    if t in Samples then Samples[t] else []
  }

  function Load(files: ProblemFiles, t: string): seq<Problem>
  {
    if Lower(t) in files then files[Lower(t)] else SampleProblems(t)
  }

  /** Every built-in sample is filed under its own worksheet type. */
  lemma SamplesFiledByType(t: string)
    ensures forall p :: p in SampleProblems(t) ==> p.worksheet == Some(t)
  {
  }

  // ---------------------------------------------------------------------
  // Listing problems.

  /** `[p for p in problems if p.get("difficulty") == difficulty]` when the
      difficulty is given and non-empty. */
  function Candidates(files: ProblemFiles, t: string, difficulty: Option<string>): seq<Problem>
  {
    if difficulty.Some? && difficulty.value != "" then
      Filter(Load(files, t), (p: Problem) => p.difficulty == difficulty)
    else Load(files, t)
  }

  /** The filter keeps exactly the problems of the asked difficulty, each
      as often as it occurs, in their order. */
  lemma CandidatesFacts(files: ProblemFiles, t: string, difficulty: Option<string>, p: Problem)
    ensures difficulty.Some? && difficulty.value != "" ==>
              && (p in Candidates(files, t, difficulty) <==> p in Load(files, t) && p.difficulty == difficulty)
              && (p.difficulty == difficulty ==>
                    multiset(Candidates(files, t, difficulty))[p] == multiset(Load(files, t))[p])
    ensures (difficulty.None? || difficulty.value == "") ==> Candidates(files, t, difficulty) == Load(files, t)
  {
    if difficulty.Some? && difficulty.value != "" {
      FilterCount(Load(files, t), (q: Problem) => q.difficulty == difficulty, p);
      FilterMembership(Load(files, t), (q: Problem) => q.difficulty == difficulty, p);
    }
  }

  /** GET /api/calculator/problems/{worksheet_type}: an unknown type is
      rejected before anything is read; otherwise the candidates are
      returned as they are when they fit the limit, and `limit` distinct
      positions of them are drawn when they do not. A negative limit always
      makes `random.sample` raise. The response's `count` is the length of
      the list. */
  method GetProblems(files: ProblemFiles, t: string, limit: int, difficulty: Option<string>)
    returns (r: Result<seq<Problem>, Failure>)
    ensures r == Err(BadRequest) <==> t !in ValidTypes
    ensures r == Err(NegativeSample) <==> t in ValidTypes && limit < 0
    ensures r.Ok? ==> var cs := Candidates(files, t, difficulty);
                      && |r.value| == Min(limit, |cs|)
                      && multiset(r.value) <= multiset(cs)
                      && (|cs| <= limit ==> r.value == cs)
  {
    if t !in ValidTypes {
      return Err(BadRequest);
    }
    var problems := Load(files, t);
    if difficulty.Some? && difficulty.value != "" {
      problems := Filter(problems, (p: Problem) => p.difficulty == difficulty);
    }
    if |problems| > limit {
      if limit < 0 {
        return Err(NegativeSample);
      }
      problems := Sampling.Sample(problems, limit);
    }
    r := Ok(problems);
  }

  // ---------------------------------------------------------------------
  // Looking a problem up.

  /** The first problem with the given id. */
  function FirstWithId(ps: seq<Problem>, id: string): Option<Problem>
    decreases |ps|
  {
    if ps == [] then None
    else if ps[0].problemId == Some(id) then Some(ps[0])
    else FirstWithId(ps[1..], id)
  }

  /** The search finds a problem with the id that no earlier problem has,
      and finds nothing exactly when no problem has the id. */
  lemma {:induction false} FirstWithIdFacts(ps: seq<Problem>, id: string)
    ensures var r := FirstWithId(ps, id);
            && (r.Some? ==> exists i :: 0 <= i < |ps| && ps[i] == r.value && ps[i].problemId == Some(id)
                                        && forall j :: 0 <= j < i ==> ps[j].problemId != Some(id))
            && (r.None? <==> forall i :: 0 <= i < |ps| ==> ps[i].problemId != Some(id))
    decreases |ps|
  {
    if ps != [] && ps[0].problemId != Some(id) {
      var tail := ps[1..];
      FirstWithIdFacts(tail, id);
      assert forall i :: 1 <= i < |ps| ==> ps[i] == tail[i - 1];
      var r := FirstWithId(tail, id);
      if r.Some? {
        var i :| 0 <= i < |tail| && tail[i] == r.value && tail[i].problemId == Some(id)
                 && forall j :: 0 <= j < i ==> tail[j].problemId != Some(id);
        assert ps[i + 1] == r.value && forall j :: 0 <= j < i + 1 ==> ps[j].problemId != Some(id);
      } else {
        assert forall i :: 0 <= i < |ps| ==> ps[i].problemId != Some(id);
      }
    } else if ps != [] {
      assert ps[0].problemId == Some(id);
    }
  }

  /** Searching a concatenation searches the first part, then the second. */
  lemma {:induction false} FirstWithIdAppend(a: seq<Problem>, b: seq<Problem>, id: string)
    ensures FirstWithId(a + b, id) == if FirstWithId(a, id).Some? then FirstWithId(a, id) else FirstWithId(b, id)
    decreases |a|
  {
    if a != [] {
      assert (a + b)[1..] == a[1..] + b;
      FirstWithIdAppend(a[1..], b, id);
    } else {
      assert a + b == b;
    }
  }

  /** The problems of the given types, type after type. */
  function LoadTypes(files: ProblemFiles, types: seq<string>): seq<Problem>
    decreases |types|
  {
    if types == [] then [] else LoadTypes(files, types[..|types| - 1]) + Load(files, types[|types| - 1])
  }

  /** The same concatenation for any loader; the search lemmas are proved
      here, where the contents of the problem files play no part. */
  function LoadEach(load: string -> seq<Problem>, types: seq<string>): seq<Problem>
    decreases |types|
  {
    if types == [] then [] else LoadEach(load, types[..|types| - 1]) + load(types[|types| - 1])
  }

  function Loader(files: ProblemFiles): string -> seq<Problem>
  {
    t => Load(files, t)
  }

  lemma {:induction false} LoadTypesEach(files: ProblemFiles, types: seq<string>)
    ensures LoadTypes(files, types) == LoadEach(Loader(files), types)
    decreases |types|
  {
    if types != [] {
      LoadTypesEach(files, types[..|types| - 1]);
    }
  }

  /** The inner loop of the search: problem by problem, stopping at the
      first id match. */
  method FindIn(problems: seq<Problem>, id: string) returns (r: Option<Problem>)
    ensures r == FirstWithId(problems, id)
  {
    var i := 0;
    while i < |problems|
      invariant 0 <= i <= |problems|
      invariant FirstWithId(problems[i..], id) == FirstWithId(problems, id)
    {
      assert problems[i..][1..] == problems[i + 1..];
      if problems[i].problemId == Some(id) {
        return Some(problems[i]);
      }
      i := i + 1;
    }
    r := None;
  }

  /** The nested search loop of `get_problem` and `check_answer`: type by
      type, stopping at the first type holding a match. */
  method FindProblem(files: ProblemFiles, types: seq<string>, id: string) returns (r: Option<Problem>)
    ensures r == FirstWithId(LoadTypes(files, types), id)
  {
    var w := 0;
    while w < |types|
      invariant 0 <= w <= |types|
      invariant FirstWithId(LoadTypes(files, types[..w]), id).None?
    {
      var problems := Load(files, types[w]);
      var found := FindIn(problems, id);
      LoadTypesSnoc(files, types, w);
      FirstWithIdAppend(LoadTypes(files, types[..w]), problems, id);
      if found.Some? {
        FoundIn(files, types, id, w);
        return found;
      }
      w := w + 1;
    }
    assert types[..w] == types;
    r := None;
  }

  lemma LoadTypesSnoc(files: ProblemFiles, types: seq<string>, w: int)
    requires 0 <= w < |types|
    ensures LoadTypes(files, types[..w + 1]) == LoadTypes(files, types[..w]) + Load(files, types[w])
  {
    assert types[..w + 1][..w] == types[..w];
  }

  /** The first match in the first type holding one is the first match of
      the whole search. */
  lemma FoundIn(files: ProblemFiles, types: seq<string>, id: string, w: int)
    requires 0 <= w < |types|
    requires FirstWithId(LoadTypes(files, types[..w]), id).None?
    requires FirstWithId(Load(files, types[w]), id).Some?
    ensures FirstWithId(LoadTypes(files, types), id) == FirstWithId(Load(files, types[w]), id)
  {
    LoadTypesEach(files, types[..w]);
    LoadTypesEach(files, types);
    assert Loader(files)(types[w]) == Load(files, types[w]);
    FoundUpTo(Loader(files), types, id, w, |types|);
    assert types[..|types|] == types;
  }

  /** The same, for the types up to any point past the one holding it. */
  lemma {:induction false} FoundUpTo(load: string -> seq<Problem>, types: seq<string>, id: string, w: int, n: int)
    requires 0 <= w < n <= |types|
    requires FirstWithId(LoadEach(load, types[..w]), id).None?
    requires FirstWithId(load(types[w]), id).Some?
    ensures FirstWithId(LoadEach(load, types[..n]), id) == FirstWithId(load(types[w]), id)
    decreases n
  {
    assert types[..n][..n - 1] == types[..n - 1];
    if n == w + 1 {
      FirstWithIdAppend(LoadEach(load, types[..w]), load(types[w]), id);
    } else {
      FoundUpTo(load, types, id, w, n - 1);
      FirstWithIdAppend(LoadEach(load, types[..n - 1]), load(types[n - 1]), id);
    }
  }

  /** GET /api/calculator/problem/{problem_id} */
  method GetProblem(files: ProblemFiles, id: string) returns (r: Result<Problem, Failure>)
    ensures r.Ok? <==> FirstWithId(LoadTypes(files, SampleTypes), id).Some?
    ensures r.Ok? ==> r.value == FirstWithId(LoadTypes(files, SampleTypes), id).value
    ensures r.Err? ==> r.error == NotFound
  {
    var p := FindProblem(files, SampleTypes, id);
    if p.None? {
      return Err(NotFound);
    }
    r := Ok(p.value);
  }

  /** A problem filed only under Amort, and not among the samples, is
      listed by `get_problems` and yet never returned by `get_problem` or
      `check_answer`, which search only the sample types. */
  lemma AmortOnlyNotFound(p: Problem, id: string)
    requires p.problemId == Some(id)
    requires forall t :: t in SampleTypes ==> p !in SampleProblems(t)
    ensures var files := map["amort" := [p]];
            && Candidates(files, "Amort", None) == [p]
            && (forall t :: t in SampleTypes ==> Load(files, t) == SampleProblems(t))
            && p !in LoadTypes(files, SampleTypes)
            && FirstWithId(LoadTypes(files, SampleTypes), id) != Some(p)
  {
    var files := map["amort" := [p]];
    assert Lower("Amort") == "amort";
    assert Lower("TVM") == "tvm" && Lower("CF") == "cf" && Lower("Bond") == "bond";
    assert Lower("Stats") == "stats" && Lower("Interest") == "interest";
    LoadTypesFrom(files, SampleTypes);
    var ps := LoadTypes(files, SampleTypes);
    FirstWithIdFacts(ps, id);
  }

  /** No sample problem carries an id outside the sample ids, so such an id
      is not found whenever no file overrides the sample types. */
  lemma SamplesOnly(files: ProblemFiles, id: string)
    requires forall t :: t in SampleTypes ==> Lower(t) !in files
    requires forall t :: t in SampleTypes ==> forall p :: p in SampleProblems(t) ==> p.problemId != Some(id)
    ensures FirstWithId(LoadTypes(files, SampleTypes), id).None?
  {
    var ps := LoadTypes(files, SampleTypes);
    LoadTypesFrom(files, SampleTypes);
    FirstWithIdFacts(ps, id);
    forall i | 0 <= i < |ps|
      ensures ps[i].problemId != Some(id)
    {
      assert ps[i] in ps;
      var t :| t in SampleTypes && ps[i] in Load(files, t);
    }
  }

  /** Every loaded problem comes from one of the loaded types. */
  lemma {:induction false} LoadTypesFrom(files: ProblemFiles, types: seq<string>)
    ensures forall p :: p in LoadTypes(files, types) ==> exists t :: t in types && p in Load(files, t)
    decreases |types|
  {
    if types != [] {
      var types' := types[..|types| - 1];
      LoadTypesFrom(files, types');
      forall p | p in LoadTypes(files, types)
        ensures exists t :: t in types && p in Load(files, t)
      {
        if p in LoadTypes(files, types') {
          var t :| t in types' && p in Load(files, t);
          assert t in types;
        } else {
          assert types[|types| - 1] in types;
        }
      }
    }
  }

  /** Every problem of every loaded type is in the load. */
  lemma {:induction false} LoadTypesCovers(files: ProblemFiles, types: seq<string>)
    ensures forall t, p :: t in types && p in Load(files, t) ==> p in LoadTypes(files, types)
    decreases |types|
  {
    if types != [] {
      var types' := types[..|types| - 1];
      LoadTypesCovers(files, types');
      forall t, p | t in types && p in Load(files, t)
        ensures p in LoadTypes(files, types)
      {
        if t != types[|types| - 1] {
          var k :| 0 <= k < |types| && types[k] == t;
          assert types'[k] == t;
        }
      }
    }
  }

  /** The pool `get_random_problem` draws from: the given type's problems
      (any type, valid or not), or those of every sample type. */
  function RandomPool(files: ProblemFiles, t: Option<string>): seq<Problem>
  {
    if t.Some? && t.value != "" then Load(files, t.value) else LoadTypes(files, SampleTypes)
  }

  /** GET /api/calculator/random */
  method GetRandomProblem(files: ProblemFiles, t: Option<string>) returns (r: Result<Problem, Failure>)
    ensures r.Err? <==> RandomPool(files, t) == []
    ensures r.Err? ==> r.error == NotFound
    ensures r.Ok? ==> r.value in RandomPool(files, t)
  {
    var all: seq<Problem> := [];
    if t.Some? && t.value != "" {
      all := Load(files, t.value);
    } else {
      var w := 0;
      while w < |SampleTypes|
        invariant 0 <= w <= |SampleTypes|
        invariant all == LoadTypes(files, SampleTypes[..w])
      {
        assert SampleTypes[..w + 1][..w] == SampleTypes[..w];
        all := all + Load(files, SampleTypes[w]);
        w := w + 1;
      }
      assert SampleTypes[..w] == SampleTypes;
    }
    if all == [] {
      return Err(NotFound);
    }
    var p := Sampling.Choice(all);
    r := Ok(p);
  }

  /** Without a problem file for any sample type, the unfiltered pool is
      never empty: the built-in samples are always there. */
  lemma SamplesAlwaysAvailable(files: ProblemFiles)
    requires "tvm" !in files
    ensures RandomPool(files, None) != []
  {
    assert Lower("TVM") == "tvm";
    var p := Sample("CALC-TVM-001", "TVM", "medium");
    assert Load(files, "TVM") == Samples["TVM"];
    assert p in Load(files, "TVM");
    assert "TVM" in SampleTypes;
    LoadTypesCovers(files, SampleTypes);
    assert p in LoadTypes(files, SampleTypes);
  }

  // ---------------------------------------------------------------------
  // Checking an answer.

  /** POST /api/calculator/check: the problem is looked up as by
      `get_problem`; a found problem gets a session recorded with its
      worksheet, the requested id and the verdict. A problem without a
      `worksheet` breaks the NOT NULL column, and the commit fails. */
  method CheckAnswer(store: Store, files: ProblemFiles, user: UserId, id: string, isCorrect: bool, timeSpent: int)
    returns (r: Result<bool, Failure>)
    modifies store
    ensures var found := FirstWithId(LoadTypes(files, SampleTypes), id);
            && (found.None? ==> r == Err(NotFound) && store.calcSessions == old(store.calcSessions))
            && (found.Some? && found.value.worksheet.None? ==>
                  r == Err(MissingWorksheet) && store.calcSessions == old(store.calcSessions))
            && (found.Some? && found.value.worksheet.Some? ==>
                  r == Ok(isCorrect)
                  && store.calcSessions == old(store.calcSessions)
                       + [CalcSession(user, found.value.worksheet.value, id, isCorrect, timeSpent)])
    ensures store.errors == old(store.errors) && store.progress == old(store.progress)
    ensures store.testResults == old(store.testResults)
  {
    var problem := FindProblem(files, SampleTypes, id);
    if problem.None? {
      return Err(NotFound);
    }
    if problem.value.worksheet.None? {
      return Err(MissingWorksheet);
    }
    store.calcSessions := store.calcSessions + [CalcSession(user, problem.value.worksheet.value, id, isCorrect, timeSpent)];
    r := Ok(isCorrect);
  }

  // ---------------------------------------------------------------------
  // Statistics.

  datatype TypeStats = TypeStats(worksheetType: string, attempts: int, correct: int, accuracy: real)

  datatype CalcStats = CalcStats(
    totalAttempts: int,
    totalCorrect: int,
    overallAccuracy: real,
    byType: seq<TypeStats>,
    recent: seq<CalcSession>)

  function WorksheetOf(s: CalcSession): string { s.worksheetType }

  function CorrectPoint(s: CalcSession): int { if s.isCorrect then 1 else 0 }

  function IsCorrect(s: CalcSession): bool { s.isCorrect }

  /** The user's sessions, in the order they were recorded. */
  function UserSessions(all: seq<CalcSession>, user: UserId): seq<CalcSession>
  {
    Filter(all, (s: CalcSession) => s.user == user)
  }

  /** One point per correct session adds up to the number of correct
      sessions, which is at most the number of sessions. */
  lemma {:induction false} CorrectPoints(s: seq<CalcSession>)
    ensures SumOf(s, CorrectPoint) == |Filter(s, IsCorrect)| <= |s|
  {
    if s != [] {
      CorrectPoints(s[..|s| - 1]);
    }
  }

  /** The counts of one worksheet type's sessions. */
  function StatsOf(g: Group<string, CalcSession>): TypeStats
  {
    var correct := SumOf(g.members, CorrectPoint);
    TypeStats(g.key, |g.members|, correct, Percent(correct, |g.members|))
  }

  function SumAttempts(ts: seq<TypeStats>): int
  {
    if ts == [] then 0 else ts[0].attempts + SumAttempts(ts[1..])
  }

  function SumCorrect(ts: seq<TypeStats>): int
  {
    if ts == [] then 0 else ts[0].correct + SumCorrect(ts[1..])
  }

  /** The per-type counts add up to the counts of the groups. */
  lemma {:induction false} SumStats(ts: seq<TypeStats>, gs: seq<Group<string, CalcSession>>)
    requires |ts| == |gs| && forall j :: 0 <= j < |gs| ==> ts[j] == StatsOf(gs[j])
    ensures SumAttempts(ts) == TotalMembers(gs)
    ensures SumCorrect(ts) == SumGroups(gs, CorrectPoint)
    decreases |gs|
  {
    if gs != [] {
      SumStats(ts[1..], gs[1..]);
    }
  }

  function TypeKeys(ts: seq<TypeStats>): (ks: seq<string>)
    ensures |ks| == |ts| && forall j :: 0 <= j < |ts| ==> ks[j] == ts[j].worksheetType
  {
    seq(|ts|, j requires 0 <= j < |ts| => ts[j].worksheetType)
  }

  /** The loop of `get_calculator_stats` over the user's sessions: each
      counted under its worksheet type and in the totals. */
  method CountSessions(sessions: seq<CalcSession>)
    returns (groups: seq<Group<string, CalcSession>>, attempts: int, correct: int)
    ensures groups == GroupBy(sessions, WorksheetOf)
    ensures attempts == |sessions| && correct == SumOf(sessions, CorrectPoint)
  {
    groups := [];
    attempts, correct := 0, 0;
    var i := 0;
    while i < |sessions|
      invariant 0 <= i <= |sessions|
      invariant groups == GroupBy(sessions[..i], WorksheetOf)
      invariant attempts == i && correct == SumOf(sessions[..i], CorrectPoint)
    {
      assert sessions[..i + 1][..i] == sessions[..i];
      var s := sessions[i];
      groups := AddTo(groups, s.worksheetType, s);
      attempts := attempts + 1;
      if s.isCorrect {
        correct := correct + 1;
      }
      i := i + 1;
    }
    assert sessions[..i] == sessions;
  }

  /** The second loop: the accuracy of each worksheet type. */
  method TypeAccuracies(groups: seq<Group<string, CalcSession>>) returns (byType: seq<TypeStats>)
    ensures |byType| == |groups| && forall j :: 0 <= j < |groups| ==> byType[j] == StatsOf(groups[j])
  {
    byType := [];
    var j := 0;
    while j < |groups|
      invariant 0 <= j <= |groups|
      invariant |byType| == j && forall k :: 0 <= k < j ==> byType[k] == StatsOf(groups[k])
    {
      var attempts := |groups[j].members|;
      var correct := SumOf(groups[j].members, CorrectPoint);
      var accuracy := if attempts > 0 then (correct as real) / (attempts as real) * 100.0 else 0.0;
      byType := byType + [TypeStats(groups[j].key, attempts, correct, accuracy)];
      j := j + 1;
    }
  }

  /** The per-type list has one entry per worksheet type met. */
  lemma ByTypeKeys(sessions: seq<CalcSession>, groups: seq<Group<string, CalcSession>>, byType: seq<TypeStats>)
    requires groups == GroupBy(sessions, WorksheetOf)
    requires |byType| == |groups| && forall j :: 0 <= j < |groups| ==> byType[j] == StatsOf(groups[j])
    ensures Distinct(TypeKeys(byType))
    ensures forall i :: 0 <= i < |sessions| ==> sessions[i].worksheetType in TypeKeys(byType)
  {
    GroupByKeys(sessions, WorksheetOf);
    assert TypeKeys(byType) == GroupKeys(groups);
  }

  /** The per-type counts add up to the totals. */
  lemma ByTypeSums(sessions: seq<CalcSession>, groups: seq<Group<string, CalcSession>>, byType: seq<TypeStats>)
    requires groups == GroupBy(sessions, WorksheetOf)
    requires |byType| == |groups| && forall j :: 0 <= j < |groups| ==> byType[j] == StatsOf(groups[j])
    ensures SumAttempts(byType) == |sessions|
    ensures SumCorrect(byType) == |Filter(sessions, IsCorrect)|
  {
    SumStats(byType, groups);
    GroupByTotals(sessions, WorksheetOf, CorrectPoint);
    CorrectPoints(sessions);
  }

  /** Each entry counts the sessions of its own type. */
  lemma ByTypeCounts(sessions: seq<CalcSession>, groups: seq<Group<string, CalcSession>>, byType: seq<TypeStats>)
    requires groups == GroupBy(sessions, WorksheetOf)
    requires |byType| == |groups| && forall j :: 0 <= j < |groups| ==> byType[j] == StatsOf(groups[j])
    ensures forall j :: 0 <= j < |byType| ==> TypeCounted(sessions, byType[j])
  {
    forall j | 0 <= j < |byType|
      ensures TypeCounted(sessions, byType[j])
    {
      GroupByMembers(sessions, WorksheetOf, j);
      GroupCounted(sessions, groups[j]);
    }
  }

  lemma GroupCounted(sessions: seq<CalcSession>, g: Group<string, CalcSession>)
    requires g.members == WithKey(sessions, WorksheetOf, g.key) != []
    ensures TypeCounted(sessions, StatsOf(g))
  {
    var t := StatsOf(g);
    assert t.correct == |Filter(g.members, IsCorrect)| <= t.attempts by {
      CorrectPoints(g.members);
    }
    assert 0 <= t.correct by {
      SumOfNonNegative(g.members);
    }
  }

  lemma {:induction false} SumOfNonNegative(s: seq<CalcSession>)
    ensures SumOf(s, CorrectPoint) >= 0
  {
    if s != [] {
      SumOfNonNegative(s[..|s| - 1]);
    }
  }

  /** One entry of the per-type list counts the sessions of its type. */
  predicate TypeCounted(sessions: seq<CalcSession>, t: TypeStats)
  {
    var ofType := WithKey(sessions, WorksheetOf, t.worksheetType);
    && t.attempts == |ofType| >= 1
    && t.correct == |Filter(ofType, IsCorrect)|
    && 0 <= t.correct <= t.attempts
    && t.accuracy == Percent(t.correct, t.attempts)
  }

  /** `sessions[-10:] if sessions else []`: the last ten sessions. */
  function Recent(sessions: seq<CalcSession>): (r: seq<CalcSession>)
    ensures |r| == Min(10, |sessions|)
    ensures r == sessions[|sessions| - |r|..]
  {
    if sessions != [] then
      var r := LastN(sessions, 10);
      assert r == sessions[|sessions| - |r|..];
      r
    else []
  }

  /** GET /api/calculator/stats. */
  method GetCalculatorStats(store: Store, user: UserId) returns (st: CalcStats)
    ensures var sessions := UserSessions(store.calcSessions, user);
            && st.totalAttempts == |sessions|
            && st.totalCorrect == |Filter(sessions, IsCorrect)|
            && st.overallAccuracy == Percent(st.totalCorrect, st.totalAttempts)
            && Distinct(TypeKeys(st.byType))
            && (forall i :: 0 <= i < |sessions| ==> sessions[i].worksheetType in TypeKeys(st.byType))
            && SumAttempts(st.byType) == st.totalAttempts && SumCorrect(st.byType) == st.totalCorrect
            && (forall j :: 0 <= j < |st.byType| ==> TypeCounted(sessions, st.byType[j]))
            && |st.recent| == Min(10, |sessions|)
            && st.recent == sessions[|sessions| - |st.recent|..]
  {
    var sessions := UserSessions(store.calcSessions, user);
    var groups, attempts, correct := CountSessions(sessions);
    var byType := TypeAccuracies(groups);
    assert Distinct(TypeKeys(byType))
           && (forall i :: 0 <= i < |sessions| ==> sessions[i].worksheetType in TypeKeys(byType)) by {
      ByTypeKeys(sessions, groups, byType);
    }
    assert SumAttempts(byType) == attempts && SumCorrect(byType) == correct == |Filter(sessions, IsCorrect)| by {
      ByTypeSums(sessions, groups, byType);
      CorrectPoints(sessions);
    }
    assert forall j :: 0 <= j < |byType| ==> TypeCounted(sessions, byType[j]) by {
      ByTypeCounts(sessions, groups, byType);
    }
    var recent := if sessions != [] then LastN(sessions, 10) else [];
    assert recent == Recent(sessions);
    st := CalcStats(attempts, correct, Percent(correct, attempts), byType, recent);
  }
}
