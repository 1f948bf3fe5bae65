/** Module mastery (backend/routers/progress.py).

    A progress record counts the questions a user has seen and answered
    correctly in one module of one book. Reaching 80% stamps the record
    complete and unlocks the next module of the same book. Records change in
    two ways here: a single answer increments the counts (`update_progress`),
    and a batch uploaded from the browser max-merges them (`sync_progress`),
    after which every record at 80% or more unlocks its successor. */
module Progress {
  import opened Basics
  import opened Seqs
  import opened Models

  /** The one error `update_progress` can raise: a record whose stored
      `questions_seen` is -1 makes the division by the new count (0) fail,
      and nothing is committed. */
  datatype Failure = DivisionByZero

  function RowBook(r: ProgressRow): int { r.key.bookId }

  function RowModule(r: ProgressRow): int { r.key.moduleId }

  function RowSeen(r: ProgressRow): int { r.rec.seen }

  function RowCorrect(r: ProgressRow): int { r.rec.correct }

  /** The module after k in the same book. */
  function NextKey(k: ModuleKey): (n: ModuleKey)
    ensures n != k && n.user == k.user && n.bookId == k.bookId
  {
    ModuleKey(k.user, k.bookId, k.moduleId + 1)
  }

  // ---------------------------------------------------------------------
  // Reading progress.

  /** The body of GET /api/progress. */
  datatype Overall = Overall(
    user: UserId,
    totalSeen: int,
    totalCorrect: int,
    overallMastery: real,
    booksStarted: int,
    books: seq<Group<int, ProgressRow>>)

  /** The books a user has at least one record in. */
  function BooksOf(rows: seq<ProgressRow>): set<int>
  {
    set i | 0 <= i < |rows| :: rows[i].key.bookId
  }

  /** Grouping by book yields one group per book that occurs, so the number
      of groups is the number of distinct books. */
  lemma BookGroupsCount(rows: seq<ProgressRow>)
    ensures |GroupBy(rows, RowBook)| == |BooksOf(rows)|
  {
    var gs := GroupBy(rows, RowBook);
    var ks := GroupKeys(gs);
    GroupByKeys(rows, RowBook);
    ElemsCard(ks);
    forall b | b in Elems(ks)
      ensures b in BooksOf(rows)
    {
      var j :| 0 <= j < |ks| && ks[j] == b;
      GroupByMembers(rows, RowBook, j);
      var x := gs[j].members[0];
      FilterMembership(rows, (y: ProgressRow) => RowBook(y) == b, x);
      var i :| 0 <= i < |rows| && rows[i] == x;
    }
    forall b | b in BooksOf(rows)
      ensures b in Elems(ks)
    {
      var i :| 0 <= i < |rows| && rows[i].key.bookId == b;
      assert RowBook(rows[i]) in ks;
    }
    assert Elems(ks) == BooksOf(rows);
  }

  /** GET /api/progress: the user's records grouped by book in the order the
      scan meets them, with the counts summed per book and over all books. */
  method GetOverallProgress(store: Store, user: UserId) returns (o: Overall, ghost rows: seq<ProgressRow>)
    ensures ScansProgress(rows, store.progress, user)
    ensures o.user == user
    ensures o.books == GroupBy(rows, RowBook)
    ensures forall j :: 0 <= j < |o.books| ==>
              o.books[j].members == WithKey(rows, RowBook, o.books[j].key) && o.books[j].members != []
    ensures o.totalSeen == SumOf(rows, RowSeen) == SumGroups(o.books, RowSeen)
    ensures o.totalCorrect == SumOf(rows, RowCorrect) == SumGroups(o.books, RowCorrect)
    ensures o.overallMastery == Percent(o.totalCorrect, o.totalSeen)
    ensures o.booksStarted == |BooksOf(rows)|
  {
    var all := ListProgress(store, user);
    var books, seen, correct := GroupByBook(all);
    assert SumGroups(books, RowSeen) == seen && SumGroups(books, RowCorrect) == correct by {
      GroupByTotals(all, RowBook, RowSeen);
      GroupByTotals(all, RowBook, RowCorrect);
    }
    forall j | 0 <= j < |books|
      ensures books[j].members == WithKey(all, RowBook, books[j].key) && books[j].members != []
    {
      GroupByMembers(all, RowBook, j);
    }
    assert |books| == |BooksOf(all)| by {
      BookGroupsCount(all);
    }
    o := Overall(user, seen, correct, Percent(correct, seen), |books|, books);
    rows := all;
  }

  /** The loop of `get_overall_progress`: records appended to their book's
      group, counts added up as they go. */
  method GroupByBook(all: seq<ProgressRow>) returns (books: seq<Group<int, ProgressRow>>, seen: int, correct: int)
    ensures books == GroupBy(all, RowBook)
    ensures seen == SumOf(all, RowSeen) && correct == SumOf(all, RowCorrect)
  {
    books := [];
    seen, correct := 0, 0;
    var i := 0;
    while i < |all|
      invariant 0 <= i <= |all|
      invariant books == GroupBy(all[..i], RowBook)
      invariant seen == SumOf(all[..i], RowSeen)
      invariant correct == SumOf(all[..i], RowCorrect)
    {
      assert all[..i + 1][..i] == all[..i];
      var r := all[i];
      books := AddTo(books, r.key.bookId, r);
      seen := seen + r.rec.seen;
      correct := correct + r.rec.correct;
      i := i + 1;
    }
    assert all[..i] == all;
  }

  /** The body of GET /api/progress/book/{book_id}. */
  datatype BookProgress = BookProgress(
    bookId: int,
    user: UserId,
    modules: seq<ProgressRow>,
    totalSeen: int,
    totalCorrect: int,
    bookMastery: real)

  /** `modules` holds each of the user's records in `book` exactly once. */
  ghost predicate ScansBook(modules: seq<ProgressRow>, m: map<ModuleKey, ProgressRec>, user: UserId, book: int)
  {
    && (forall i :: 0 <= i < |modules| ==>
          modules[i].key.user == user && modules[i].key.bookId == book
          && modules[i].key in m && m[modules[i].key] == modules[i].rec)
    && UniqueBy(modules, ProgressRowKey)
    && (forall k :: k in m && k.user == user && k.bookId == book ==> k in ModuleKeysOf(modules))
  }

  /** Keeping one book's rows of a scan of the user's records, in any order,
      scans that book. */
  lemma BookOfScan(rows: seq<ProgressRow>, modules: seq<ProgressRow>, m: map<ModuleKey, ProgressRec>,
                   user: UserId, book: int)
    requires ScansProgress(rows, m, user)
    requires multiset(modules) == multiset(Filter(rows, (r: ProgressRow) => RowBook(r) == book))
    ensures ScansBook(modules, m, user, book)
  {
    var p := (r: ProgressRow) => RowBook(r) == book;
    FilterSubMultiset(rows, p);
    SubMultisetUnique(modules, rows, ProgressRowKey);
    forall i | 0 <= i < |modules|
      ensures modules[i].key.user == user && modules[i].key.bookId == book
      ensures modules[i].key in m && m[modules[i].key] == modules[i].rec
    {
      assert modules[i] in multiset(Filter(rows, p));
      FilterMembership(rows, p, modules[i]);
      var j :| 0 <= j < |rows| && rows[j] == modules[i];
    }
    forall k | k in m && k.user == user && k.bookId == book
      ensures k in ModuleKeysOf(modules)
    {
      assert k in ModuleKeysOf(rows);
      var j :| 0 <= j < |rows| && ModuleKeysOf(rows)[j] == k;
      FilterMembership(rows, p, rows[j]);
      assert rows[j] in multiset(modules);
      var i :| 0 <= i < |modules| && modules[i] == rows[j];
      assert ModuleKeysOf(modules)[i] == k;
    }
  }

  /** The query of `get_book_progress`: one book's records of the user,
      ordered by module id. */
  method BookModules(store: Store, user: UserId, book: int) returns (modules: seq<ProgressRow>)
    ensures ScansBook(modules, store.progress, user, book)
    ensures SortedBy(modules, RowModule)
  {
    var rows := ListProgress(store, user);
    var mine := Filter(rows, (r: ProgressRow) => RowBook(r) == book);
    modules := SortBy(mine, RowModule);
    SortBySorted(mine, RowModule);
    BookOfScan(rows, modules, store.progress, user, book);
  }

  /** GET /api/progress/book/{book_id}: the user's records in that book,
      ordered by module id, and their summed counts. */
  method GetBookProgress(store: Store, user: UserId, book: int) returns (bp: BookProgress)
    ensures bp.bookId == book && bp.user == user
    ensures ScansBook(bp.modules, store.progress, user, book)
    ensures SortedBy(bp.modules, RowModule)
    ensures bp.totalSeen == SumOf(bp.modules, RowSeen) && bp.totalCorrect == SumOf(bp.modules, RowCorrect)
    ensures bp.bookMastery == Percent(bp.totalCorrect, bp.totalSeen)
  {
    var modules := BookModules(store, user, book);
    var seen := SumOf(modules, RowSeen);
    var correct := SumOf(modules, RowCorrect);
    bp := BookProgress(book, user, modules, seen, correct, Percent(correct, seen));
  }

  /** GET /api/progress/module/{book_id}/{module_id}: the stored record, or
      an unsaved empty view that is unlocked only for module 1. */
  method GetModuleProgress(store: Store, user: UserId, book: int, moduleId: int) returns (v: ProgressRec)
    ensures ModuleKey(user, book, moduleId) in store.progress ==> v == store.progress[ModuleKey(user, book, moduleId)]
    ensures ModuleKey(user, book, moduleId) !in store.progress ==>
              v.seen == 0 && v.correct == 0 && v.completedAt.None? && (v.isUnlocked <==> moduleId == 1)
  {
    var k := ModuleKey(user, book, moduleId);
    if k in store.progress {
      v := store.progress[k];
    } else {
      v := ProgressRec(0, 0, moduleId == 1, None);
    }
  }

  // ---------------------------------------------------------------------
  // Unlocking.

  /** `_unlock_next_module`: the next module's record is unlocked, or
      created empty and unlocked. */
  function UnlockNext(p: map<ModuleKey, ProgressRec>, k: ModuleKey): map<ModuleKey, ProgressRec>
  {
    var n := NextKey(k);
    if n in p then p[n := p[n].(isUnlocked := true)]
    else p[n := ProgressRec(0, 0, true, None)]
  }

  /** Only the next module's record is touched; it ends up unlocked, keeps
      its counts and completion stamp if it existed, and is empty otherwise. */
  lemma UnlockNextFacts(p: map<ModuleKey, ProgressRec>, k: ModuleKey)
    ensures var a := UnlockNext(p, k);
            var n := NextKey(k);
            && a.Keys == p.Keys + {n}
            && (forall k' :: k' in p && k' != n ==> a[k'] == p[k'])
            && a[n].isUnlocked
            && (n in p ==> a[n] == p[n].(isUnlocked := true))
            && (n !in p ==> a[n] == ProgressRec(0, 0, true, None))
  {
  }

  method UnlockNextModule(store: Store, k: ModuleKey)
    modifies store
    ensures store.progress == UnlockNext(old(store.progress), k)
    ensures store.errors == old(store.errors)
    ensures store.testResults == old(store.testResults) && store.calcSessions == old(store.calcSessions)
  {
    var n := NextKey(k);
    if n in store.progress {
      store.progress := store.progress[n := store.progress[n].(isUnlocked := true)];
    } else {
      store.progress := store.progress[n := ProgressRec(0, 0, true, None)];
    }
  }

  /** `_check_unlock_next_modules` over the rows its query returned: every
      row at 80% or more unlocks its successor, in scan order. */
  function UnlockAfter(p: map<ModuleKey, ProgressRec>, rows: seq<ProgressRow>): map<ModuleKey, ProgressRec>
    decreases |rows|
  {
    if rows == [] then p
    else
      var q := UnlockAfter(p, rows[..|rows| - 1]);
      var r := rows[|rows| - 1];
      if Completes(r.rec) then UnlockNext(q, r.key) else q
  }

  /** k is the successor of one of the rows at 80% or more. */
  predicate UnlockedBy(rows: seq<ProgressRow>, k: ModuleKey)
  {
    exists i :: 0 <= i < |rows| && Completes(rows[i].rec) && NextKey(rows[i].key) == k
  }

  /** Unlocking never removes a record, never changes a count or a
      completion stamp, never locks anything, creates only empty unlocked
      records, and touches only successors of rows at 80% or more. */
  lemma {:induction false} UnlockAfterKeeps(p: map<ModuleKey, ProgressRec>, rows: seq<ProgressRow>)
    ensures var a := UnlockAfter(p, rows);
            && p.Keys <= a.Keys
            && (forall k :: k in p ==>
                  a[k] == p[k].(isUnlocked := a[k].isUnlocked) && (p[k].isUnlocked ==> a[k].isUnlocked))
            && (forall k :: k in a && k !in p ==> a[k] == ProgressRec(0, 0, true, None))
            && (forall k :: !UnlockedBy(rows, k) ==> (k in a <==> k in p) && (k in p ==> a[k] == p[k]))
    decreases |rows|
  {
    if rows != [] {
      var rows' := rows[..|rows| - 1];
      UnlockAfterKeeps(p, rows');
      forall k | UnlockedBy(rows', k)
        ensures UnlockedBy(rows, k)
      {
        var i :| 0 <= i < |rows'| && Completes(rows'[i].rec) && NextKey(rows'[i].key) == k;
        assert rows[i] == rows'[i];
      }
      var r := rows[|rows| - 1];
      if Completes(r.rec) {
        assert UnlockedBy(rows, NextKey(r.key));
      }
    }
  }

  /** Every row at 80% or more has its successor present and unlocked. */
  lemma {:induction false} UnlockAfterUnlocks(p: map<ModuleKey, ProgressRec>, rows: seq<ProgressRow>)
    ensures var a := UnlockAfter(p, rows);
            forall i :: 0 <= i < |rows| && Completes(rows[i].rec) ==>
              NextKey(rows[i].key) in a && a[NextKey(rows[i].key)].isUnlocked
    decreases |rows|
  {
    if rows != [] {
      var rows' := rows[..|rows| - 1];
      var q := UnlockAfter(p, rows');
      UnlockAfterUnlocks(p, rows');
      var r := rows[|rows| - 1];
      forall i | 0 <= i < |rows| && Completes(rows[i].rec)
        ensures NextKey(rows[i].key) in UnlockAfter(p, rows)
        ensures UnlockAfter(p, rows)[NextKey(rows[i].key)].isUnlocked
      {
        if i < |rows'| {
          assert rows[i] == rows'[i];
        }
      }
    }
  }

  /** When every successor is already unlocked, unlocking changes nothing. */
  lemma {:induction false} UnlockAfterSettled(p: map<ModuleKey, ProgressRec>, rows: seq<ProgressRow>)
    requires forall i :: 0 <= i < |rows| && Completes(rows[i].rec) ==>
               NextKey(rows[i].key) in p && p[NextKey(rows[i].key)].isUnlocked
    ensures UnlockAfter(p, rows) == p
    decreases |rows|
  {
    if rows != [] {
      var rows' := rows[..|rows| - 1];
      assert forall i :: 0 <= i < |rows'| ==> rows'[i] == rows[i];
      UnlockAfterSettled(p, rows');
      var r := rows[|rows| - 1];
      if Completes(r.rec) {
        var n := NextKey(r.key);
        assert p[n := p[n].(isUnlocked := true)] == p;
      }
    }
  }

  /** `_check_unlock_next_modules(user)`: one pass over the user's records
      as the query returned them. The counts it tests are those of the
      scanned records, which unlocking never changes. */
  method CheckUnlockNextModules(store: Store, user: UserId) returns (ghost rows: seq<ProgressRow>)
    modifies store
    ensures ScansProgress(rows, old(store.progress), user)
    ensures store.progress == UnlockAfter(old(store.progress), rows)
    ensures store.errors == old(store.errors)
    ensures store.testResults == old(store.testResults) && store.calcSessions == old(store.calcSessions)
  {
    var all := ListProgress(store, user);
    var i := 0;
    while i < |all|
      invariant 0 <= i <= |all|
      invariant store.progress == UnlockAfter(old(store.progress), all[..i])
      invariant store.errors == old(store.errors)
      invariant store.testResults == old(store.testResults) && store.calcSessions == old(store.calcSessions)
    {
      assert all[..i + 1][..i] == all[..i];
      if Completes(all[i].rec) {
        UnlockNextModule(store, all[i].key);
      }
      i := i + 1;
    }
    assert all[..i] == all;
    rows := all;
  }

  // ---------------------------------------------------------------------
  // Syncing from the browser.

  /** One element of the POST /api/progress/sync body. */
  datatype SyncItem = SyncItem(bookId: int, moduleId: int, seen: int, correct: int)

  function SyncKey(user: UserId, d: SyncItem): ModuleKey
  {
    ModuleKey(user, d.bookId, d.moduleId)
  }

  /** One iteration of the sync loop: an existing record is max-merged; a
      missing one is created unlocked with the reported counts and no
      completion stamp, whatever its mastery. */
  function SyncOne(p: map<ModuleKey, ProgressRec>, k: ModuleKey, d: SyncItem, now: Time): map<ModuleKey, ProgressRec>
  {
    if k in p then p[k := MergeCounts(p[k], d.seen, d.correct, now)]
    else p[k := ProgressRec(d.seen, d.correct, true, None)]
  }

  /** The sync loop. Each query sees the records earlier iterations created,
      as the session flushes pending inserts before querying. */
  function SyncAll(p: map<ModuleKey, ProgressRec>, user: UserId, batch: seq<SyncItem>, now: Time)
    : map<ModuleKey, ProgressRec>
    decreases |batch|
  {
    if batch == [] then p
    else
      var d := batch[|batch| - 1];
      SyncOne(SyncAll(p, user, batch[..|batch| - 1], now), SyncKey(user, d), d, now)
  }

  /** A synced record holds the larger counts, keeps its lock flag, and is
      complete exactly when it was before or the merged counts reach 80%; a
      created record carries the reported counts, is unlocked, and is never
      stamped complete. */
  lemma SyncOneFacts(p: map<ModuleKey, ProgressRec>, k: ModuleKey, d: SyncItem, now: Time)
    ensures var a := SyncOne(p, k, d, now);
            && a.Keys == p.Keys + {k}
            && (forall k' :: k' in p && k' != k ==> a[k'] == p[k'])
            && (k in p ==> && a[k].seen == Max(p[k].seen, d.seen) && a[k].correct == Max(p[k].correct, d.correct)
                           && a[k].isUnlocked == p[k].isUnlocked
                           && (a[k].completedAt.Some? <==> p[k].completedAt.Some? || Completes(a[k]))
                           && (p[k].completedAt.Some? ==> a[k].completedAt == p[k].completedAt))
            && (k !in p ==> a[k] == ProgressRec(d.seen, d.correct, true, None))
  {
  }

  /** The two merges agree on a record that exists, and differ on one that
      does not: a module test at 80% stamps its new record complete, a sync
      at 80% leaves it unstamped. */
  lemma SyncVersusModuleTest(p: map<ModuleKey, ProgressRec>, k: ModuleKey, d: SyncItem, now: Time)
    ensures k in p ==> SyncOne(p, k, d, now)[k] == MergeCounts(p[k], d.seen, d.correct, now)
    ensures k !in p && Completes(ProgressRec(d.seen, d.correct, true, None)) ==>
              SyncOne(p, k, d, now)[k].completedAt.None?
              && MergeCounts(ProgressRec(d.seen, d.correct, true, None), d.seen, d.correct, now).completedAt == Some(now)
  {
  }

  /** After the loop every reported module has a record at least as high
      as each report for it; no record is removed or lowered, and lock
      flags never change. */
  lemma {:induction false} SyncAllCovers(p: map<ModuleKey, ProgressRec>, user: UserId, batch: seq<SyncItem>, now: Time)
    ensures var a := SyncAll(p, user, batch, now);
            && p.Keys <= a.Keys
            && (forall k :: k in p ==>
                  a[k].seen >= p[k].seen && a[k].correct >= p[k].correct && a[k].isUnlocked == p[k].isUnlocked)
            && (forall i :: 0 <= i < |batch| ==>
                  var k := SyncKey(user, batch[i]);
                  k in a && a[k].seen >= batch[i].seen && a[k].correct >= batch[i].correct)
    decreases |batch|
  {
    if batch != [] {
      var batch' := batch[..|batch| - 1];
      SyncAllCovers(p, user, batch', now);
      var prev := SyncAll(p, user, batch', now);
      var d := batch[|batch| - 1];
      SyncOneFacts(prev, SyncKey(user, d), d, now);
      assert SyncAll(p, user, batch, now) == SyncOne(prev, SyncKey(user, d), d, now);
      forall i | 0 <= i < |batch'|
        ensures batch[i] == batch'[i]
      {
      }
    }
  }

  /** A record the loop adds, or changes, is one the batch reports on. */
  lemma {:induction false} SyncAllElsewhere(p: map<ModuleKey, ProgressRec>, user: UserId, batch: seq<SyncItem>,
                                            now: Time, k: ModuleKey)
    requires forall i :: 0 <= i < |batch| ==> SyncKey(user, batch[i]) != k
    ensures var a := SyncAll(p, user, batch, now);
            (k in a <==> k in p) && (k in p ==> a[k] == p[k])
    decreases |batch|
  {
    if batch != [] {
      var batch' := batch[..|batch| - 1];
      assert forall i :: 0 <= i < |batch'| ==> batch'[i] == batch[i];
      SyncAllElsewhere(p, user, batch', now, k);
    }
  }

  /** A batch every report of which is already dominated by the stored
      records leaves keys, counts and lock flags as they are; only
      completion stamps may be added. */
  lemma {:induction false} SyncAllDominated(p: map<ModuleKey, ProgressRec>, user: UserId, batch: seq<SyncItem>, now: Time)
    requires forall i :: 0 <= i < |batch| ==>
               var k := SyncKey(user, batch[i]);
               k in p && p[k].seen >= batch[i].seen && p[k].correct >= batch[i].correct
    ensures SameCounts(SyncAll(p, user, batch, now), p)
    decreases |batch|
  {
    if batch != [] {
      var batch' := batch[..|batch| - 1];
      assert forall i :: 0 <= i < |batch'| ==> batch'[i] == batch[i];
      SyncAllDominated(p, user, batch', now);
    }
  }

  /** Two tables agree on keys, counts and lock flags. */
  predicate SameCounts(a: map<ModuleKey, ProgressRec>, b: map<ModuleKey, ProgressRec>)
  {
    a.Keys == b.Keys
    && forall k :: k in a ==>
         a[k].seen == b[k].seen && a[k].correct == b[k].correct && a[k].isUnlocked == b[k].isUnlocked
  }

  /** The user's records at 80% or more all have an unlocked successor. */
  ghost predicate SuccessorsUnlocked(p: map<ModuleKey, ProgressRec>, user: UserId)
  {
    forall k :: k in p && k.user == user && Completes(p[k]) ==> NextKey(k) in p && p[NextKey(k)].isUnlocked
  }

  /** Unlocking after a scan of the user's records leaves every record at
      80% or more with an unlocked successor. */
  lemma UnlockAfterScan(q: map<ModuleKey, ProgressRec>, user: UserId, rows: seq<ProgressRow>)
    requires ScansProgress(rows, q, user)
    ensures SuccessorsUnlocked(UnlockAfter(q, rows), user)
  {
    var a := UnlockAfter(q, rows);
    UnlockAfterKeeps(q, rows);
    UnlockAfterUnlocks(q, rows);
    forall k | k in a && k.user == user && Completes(a[k])
      ensures NextKey(k) in a && a[NextKey(k)].isUnlocked
    {
      assert k in q;
      assert k in ModuleKeysOf(rows);
      var i :| 0 <= i < |rows| && ModuleKeysOf(rows)[i] == k;
      assert Completes(rows[i].rec);
    }
  }

  /** The whole of `sync_progress` on the stored table, given the rows its
      final unlocking pass scanned. */
  function Synced(p: map<ModuleKey, ProgressRec>, user: UserId, batch: seq<SyncItem>, now: Time,
                  rows: seq<ProgressRow>): map<ModuleKey, ProgressRec>
  {
    UnlockAfter(SyncAll(p, user, batch, now), rows)
  }

  /** Syncing the same batch a second time, on any later day and whatever
      order its scan takes, leaves keys, counts, mastery and lock flags as
      the first sync left them. */
  lemma SyncTwice(p: map<ModuleKey, ProgressRec>, user: UserId, batch: seq<SyncItem>, now: Time, later: Time,
                  rows1: seq<ProgressRow>, rows2: seq<ProgressRow>)
    requires ScansProgress(rows1, SyncAll(p, user, batch, now), user)
    requires ScansProgress(rows2, SyncAll(Synced(p, user, batch, now, rows1), user, batch, later), user)
    ensures SameCounts(Synced(Synced(p, user, batch, now, rows1), user, batch, later, rows2),
                       Synced(p, user, batch, now, rows1))
  {
    var q1 := SyncAll(p, user, batch, now);
    var s1 := UnlockAfter(q1, rows1);
    SyncAllCovers(p, user, batch, now);
    UnlockAfterKeeps(q1, rows1);
    UnlockAfterScan(q1, user, rows1);
    var q2 := SyncAll(s1, user, batch, later);
    SyncAllDominated(s1, user, batch, later);
    forall i | 0 <= i < |rows2| && Completes(rows2[i].rec)
      ensures NextKey(rows2[i].key) in q2 && q2[NextKey(rows2[i].key)].isUnlocked
    {
      var k := rows2[i].key;
      assert k in s1 && Completes(s1[k]);
    }
    UnlockAfterSettled(q2, rows2);
  }

  /** The completion stamp is where a second sync differs: a module first
      reported at 80% is created unstamped, and the same report again
      stamps it. */
  lemma SyncTwiceStamps(user: UserId, book: int, moduleId: int, now: Time, later: Time)
    requires now != later
    ensures var d := SyncItem(book, moduleId, 5, 4);
            var k := ModuleKey(user, book, moduleId);
            var once := SyncOne(map[], k, d, now);
            var twice := SyncOne(once, k, d, later);
            once[k].completedAt.None? && twice[k].completedAt == Some(later)
  {
    var d := SyncItem(book, moduleId, 5, 4);
    var k := ModuleKey(user, book, moduleId);
    var once := SyncOne(map[], k, d, now);
    assert Completes(once[k]);
  }

  /** The loop of `sync_progress`: each report merged into, or creating,
      its module's record; `keys` lists the records in report order. */
  method SyncRecords(store: Store, user: UserId, batch: seq<SyncItem>, now: Time) returns (keys: seq<ModuleKey>)
    modifies store
    ensures store.progress == SyncAll(old(store.progress), user, batch, now)
    ensures |keys| == |batch| && forall j :: 0 <= j < |batch| ==> keys[j] == SyncKey(user, batch[j])
    ensures store.errors == old(store.errors)
    ensures store.testResults == old(store.testResults) && store.calcSessions == old(store.calcSessions)
  {
    keys := [];
    var i := 0;
    while i < |batch|
      invariant 0 <= i <= |batch|
      invariant store.progress == SyncAll(old(store.progress), user, batch[..i], now)
      invariant |keys| == i && forall j :: 0 <= j < i ==> keys[j] == SyncKey(user, batch[j])
      invariant store.errors == old(store.errors)
      invariant store.testResults == old(store.testResults) && store.calcSessions == old(store.calcSessions)
    {
      assert batch[..i + 1][..i] == batch[..i];
      var d := batch[i];
      var k := ModuleKey(user, d.bookId, d.moduleId);
      if k in store.progress {
        var r := store.progress[k];
        r := r.(seen := Max(r.seen, d.seen));
        r := r.(correct := Max(r.correct, d.correct));
        if Completes(r) && r.completedAt.None? {
          r := r.(completedAt := Some(now));
        }
        store.progress := store.progress[k := r];
      } else {
        store.progress := store.progress[k := ProgressRec(d.seen, d.correct, true, None)];
      }
      keys := keys + [k];
      i := i + 1;
    }
    assert batch[..i] == batch;
  }

  /** The records of the given keys, in order. */
  function RowsOf(keys: seq<ModuleKey>, p: map<ModuleKey, ProgressRec>): (rows: seq<ProgressRow>)
    requires forall j :: 0 <= j < |keys| ==> keys[j] in p
    ensures |rows| == |keys|
    ensures forall j :: 0 <= j < |keys| ==> rows[j] == ProgressRow(keys[j], p[keys[j]])
  {
    seq(|keys|, j requires 0 <= j < |keys| => ProgressRow(keys[j], p[keys[j]]))
  }

  /** POST /api/progress/sync. The returned rows are read after the final
      commit, so they show the records as the whole request left them. */
  method SyncProgress(store: Store, user: UserId, batch: seq<SyncItem>, now: Time)
    returns (results: seq<ProgressRow>, ghost rows: seq<ProgressRow>)
    modifies store
    ensures ScansProgress(rows, SyncAll(old(store.progress), user, batch, now), user)
    ensures store.progress == Synced(old(store.progress), user, batch, now, rows)
    ensures SuccessorsUnlocked(store.progress, user)
    ensures |results| == |batch|
    ensures forall i :: 0 <= i < |batch| ==>
              var k := SyncKey(user, batch[i]);
              results[i].key == k && k in store.progress && results[i].rec == store.progress[k]
    ensures store.errors == old(store.errors)
    ensures store.testResults == old(store.testResults) && store.calcSessions == old(store.calcSessions)
  {
    var keys := SyncRecords(store, user, batch, now);
    ghost var q := store.progress;
    SyncAllCovers(old(store.progress), user, batch, now);
    rows := CheckUnlockNextModules(store, user);
    UnlockAfterKeeps(q, rows);
    UnlockAfterScan(q, user, rows);
    results := RowsOf(keys, store.progress);
  }

  // ---------------------------------------------------------------------
  // A single answer.

  /** PUT /api/progress/update on the stored table: the record (created
      unlocked if missing) counts one more question, and one more right
      answer if this one was right. Reaching 80% for the first time stamps
      it complete and unlocks the next module; the ratio is taken without a
      `seen > 0` guard, so a record with a negative count can reach it. A
      stored count of -1 makes the mastery division fail, and the table
      stays as it was. */
  function AfterAnswer(p: map<ModuleKey, ProgressRec>, k: ModuleKey, isCorrect: bool, now: Time)
    : Result<map<ModuleKey, ProgressRec>, Failure>
  {
    var r := if k in p then p[k] else ProgressRec(0, 0, true, None);
    var r := r.(seen := r.seen + 1, correct := if isCorrect then r.correct + 1 else r.correct);
    if r.seen == 0 then Err(DivisionByZero)
    else if RatioReaches80(r) && r.completedAt.None? then Ok(UnlockNext(p[k := r.(completedAt := Some(now))], k))
    else Ok(p[k := r])
  }

  /** What one answer does to the table. */
  lemma AnswerFacts(p: map<ModuleKey, ProgressRec>, k: ModuleKey, isCorrect: bool, now: Time)
    ensures AfterAnswer(p, k, isCorrect, now).Err? <==> k in p && p[k].seen == -1
    ensures AfterAnswer(p, k, isCorrect, now).Ok? ==>
              var a := AfterAnswer(p, k, isCorrect, now).value;
              var old_ := if k in p then p[k] else ProgressRec(0, 0, true, None);
              && k in a && a.Keys <= p.Keys + {k, NextKey(k)}
              && a[k].seen == old_.seen + 1
              && a[k].correct == old_.correct + (if isCorrect then 1 else 0)
              && a[k].isUnlocked == old_.isUnlocked
              && (old_.completedAt.Some? ==> a[k].completedAt == old_.completedAt)
              && (old_.completedAt.None? ==> (a[k].completedAt.Some? <==> RatioReaches80(a[k])))
              && (a[k].seen > 0 ==> (RatioReaches80(a[k]) <==> Completes(a[k])))
              && (a[k].completedAt.Some? && old_.completedAt.None? ==>
                    a[k].completedAt == Some(now) && NextKey(k) in a && a[NextKey(k)].isUnlocked)
              && (forall k' :: k' in p && k' != k && k' != NextKey(k) ==> a[k'] == p[k'])
  {
  }

  /** On a record driven below zero the unguarded ratio completes where
      the guarded one would not: -3 of -3 and a right answer give -2 of -2,
      a ratio of 100%, so the record is stamped and the next module unlocked. */
  lemma NegativeCountsComplete(k: ModuleKey, now: Time)
    ensures var r := ProgressRec(-2, -2, true, Some(now));
            && AfterAnswer(map[k := ProgressRec(-3, -3, true, None)], k, true, now)
               == Ok(UnlockNext(map[k := r], k))
            && !Completes(r)
  {
    var p := map[k := ProgressRec(-3, -3, true, None)];
    assert p[k := ProgressRec(-2, -2, true, Some(now))] == map[k := ProgressRec(-2, -2, true, Some(now))];
  }

  /** Answers keep the right answers within the questions seen, so the
      mastery of an answered record lies between 0 and 100. */
  lemma AnswerKeepsCorrectWithinSeen(p: map<ModuleKey, ProgressRec>, k: ModuleKey, isCorrect: bool, now: Time)
    requires k in p ==> 0 <= p[k].correct <= p[k].seen
    ensures AfterAnswer(p, k, isCorrect, now).Ok?
    ensures var a := AfterAnswer(p, k, isCorrect, now).value;
            0 <= a[k].correct <= a[k].seen
            && 0.0 <= Percent(a[k].correct, a[k].seen) <= 100.0
  {
    var a := AfterAnswer(p, k, isCorrect, now).value;
    assert 0 <= a[k].correct <= a[k].seen by {
      AnswerFacts(p, k, isCorrect, now);
    }
    PercentRange(a[k].correct, a[k].seen);
  }

  /** The first answer to a module nobody has touched creates its record
      unlocked, even for a module other than 1, while the read-only view of
      `GetModuleProgress` shows such a module locked. */
  lemma UnlockDefaults(k: ModuleKey, isCorrect: bool, now: Time)
    requires k.moduleId != 1
    ensures var a := AfterAnswer(map[], k, isCorrect, now);
            a.Ok? && a.value[k].isUnlocked
  {
  }

  method UpdateProgress(store: Store, user: UserId, book: int, moduleId: int, isCorrect: bool, now: Time)
    returns (r: Result<ProgressRec, Failure>)
    modifies store
    ensures var a := AfterAnswer(old(store.progress), ModuleKey(user, book, moduleId), isCorrect, now);
            && (a.Err? ==> r.Err? && store.progress == old(store.progress))
            && (a.Ok? ==> r.Ok? && store.progress == a.value && r.value == a.value[ModuleKey(user, book, moduleId)])
    ensures store.errors == old(store.errors)
    ensures store.testResults == old(store.testResults) && store.calcSessions == old(store.calcSessions)
  {
    var k := ModuleKey(user, book, moduleId);
    var p := if k in store.progress then store.progress[k] else ProgressRec(0, 0, true, None);
    p := p.(seen := p.seen + 1);
    if isCorrect {
      p := p.(correct := p.correct + 1);
    }
    if p.seen == 0 {
      return Err(DivisionByZero);
    }
    if RatioReaches80(p) && p.completedAt.None? {
      p := p.(completedAt := Some(now));
      store.progress := store.progress[k := p];
      UnlockNextModule(store, k);
    } else {
      store.progress := store.progress[k := p];
    }
    r := Ok(p);
  }
}
