/** The glossary (backend/routers/glossary.py).

    Each book has a JSON file of bilingual terms. Listing the whole glossary
    reads the files of books 1 to 10 in turn and tags every term with its
    book; the endpoints page through that list, search it, look a term up
    by id, or pick the terms of one module. The files are an input: a map
    from book id to what reading `book{N}_terms.json` gives. */
module Glossary {
  import opened Basics
  import opened Seqs
  import opened Text
  import Sampling

  /** A term of a glossary file. A key missing from the JSON object reads
      as the empty string for the four searchable texts, and as None for
      the identifiers. */
  datatype Term = Term(
    termId: Option<string>,
    termEn: string,
    termRu: string,
    definitionEn: string,
    definitionRu: string,
    moduleId: Option<int>,
    bookId: Option<int>,
    bookName: Option<string>)

  /** What reading one book's file gives: a parsed object (its optional
      `book_name` and its `terms`, empty when the key is absent), or a
      file that fails to parse. A book without a file reads as a parsed
      object with no terms. */
  datatype GlossaryFile = Parsed(bookName: Option<string>, terms: seq<Term>) | Unreadable

  type Files = map<int, GlossaryFile>

  datatype Failure = NotFound | BrokenFile | QueryTooShort | NegativeSample

  /** `load_glossary_data(book_id)` */
  function LoadFile(files: Files, book: int): GlossaryFile
  {
    if book in files then files[book] else Parsed(None, [])
  }

  /** `data.get("book_name", f"Book {book_id}")` */
  function BookNameOf(f: GlossaryFile, book: int): string
    requires f.Parsed?
  {
    if f.bookName.Some? then f.bookName.value else "Book " + DecimalString(book)
  }

  // ---------------------------------------------------------------------
  // load_all_glossary

  /** The first book and one past the last book the glossary is read from. */
  const FirstBook := 1
  const EndBook := 11

  /** The terms one book contributes: each tagged with the book's id and
      name. A file that fails to parse contributes nothing. */
  function BookTerms(files: Files, book: int): (ts: seq<Term>)
    ensures forall i :: 0 <= i < |ts| ==> ts[i].bookId == Some(book)
  {
    match LoadFile(files, book)
    case Unreadable => []
    case Parsed(_, terms) =>
      var name := BookNameOf(LoadFile(files, book), book);
      seq(|terms|, i requires 0 <= i < |terms| => terms[i].(bookId := Some(book), bookName := Some(name)))
  }

  /** The terms of books `FirstBook` up to, not including, `upto`. */
  function BooksBefore(files: Files, upto: int): seq<Term>
    decreases upto - FirstBook
  {
    if upto <= FirstBook then [] else BooksBefore(files, upto - 1) + BookTerms(files, upto - 1)
  }

  function AllGlossary(files: Files): seq<Term>
  {
    BooksBefore(files, EndBook)
  }

  /** Every listed term carries the id of a book from 1 up to `upto`. */
  lemma {:induction false} BooksBeforeRange(files: Files, upto: int)
    ensures forall i :: 0 <= i < |BooksBefore(files, upto)| ==>
              BooksBefore(files, upto)[i].bookId.Some? && FirstBook <= BooksBefore(files, upto)[i].bookId.value < upto
    decreases upto - FirstBook
  {
    if upto > FirstBook {
      var prev := BooksBefore(files, upto - 1);
      var last := BookTerms(files, upto - 1);
      BooksBeforeRange(files, upto - 1);
      var all := prev + last;
      assert BooksBefore(files, upto) == all;
      forall i | 0 <= i < |all|
        ensures all[i].bookId.Some? && FirstBook <= all[i].bookId.value < upto
      {
        if i < |prev| {
          assert all[i] == prev[i];
        } else {
          assert all[i] == last[i - |prev|];
        }
      }
    }
  }

  /** Every listed term carries the id of a book from 1 to 10, and the
      books come in increasing order. */
  lemma {:induction false} BooksBeforeOrdered(files: Files, upto: int)
    requires upto <= EndBook
    ensures forall i :: 0 <= i < |BooksBefore(files, upto)| ==>
              BooksBefore(files, upto)[i].bookId.Some? && FirstBook <= BooksBefore(files, upto)[i].bookId.value < upto
    ensures forall i, j :: 0 <= i < j < |BooksBefore(files, upto)| ==>
              BooksBefore(files, upto)[i].bookId.value <= BooksBefore(files, upto)[j].bookId.value
    decreases upto - FirstBook
  {
    BooksBeforeRange(files, upto);
    if upto > FirstBook {
      var prev := BooksBefore(files, upto - 1);
      var last := BookTerms(files, upto - 1);
      BooksBeforeOrdered(files, upto - 1);
      var all := prev + last;
      assert BooksBefore(files, upto) == all;
      forall i, j | 0 <= i < j < |all|
        ensures all[i].bookId.value <= all[j].bookId.value
      {
        if j >= |prev| {
          assert all[j] == last[j - |prev|];
        } else {
          assert all[i] == prev[i] && all[j] == prev[j];
        }
      }
    }
  }

  /** A term of a readable file, tagged with its book's id and name. */
  function Tagged(files: Files, b: int, t: Term): Term
  {
    t.(bookId := Some(b), bookName := Some(if LoadFile(files, b).Parsed? then BookNameOf(LoadFile(files, b), b) else ""))
  }

  /** Every term of a readable file of books 1 up to `upto` is listed,
      tagged with its book's id and name. */
  lemma {:induction false} BooksBeforeComplete(files: Files, upto: int)
    ensures forall b, t :: FirstBook <= b < upto && LoadFile(files, b).Parsed? && t in LoadFile(files, b).terms ==>
              Tagged(files, b, t) in BooksBefore(files, upto)
    decreases upto - FirstBook
  {
    if upto > FirstBook {
      var prev := BooksBefore(files, upto - 1);
      var last := BookTerms(files, upto - 1);
      BooksBeforeComplete(files, upto - 1);
      assert BooksBefore(files, upto) == prev + last;
      forall b, t | FirstBook <= b < upto && LoadFile(files, b).Parsed? && t in LoadFile(files, b).terms
        ensures Tagged(files, b, t) in prev + last
      {
        if b == upto - 1 {
          var terms := LoadFile(files, b).terms;
          var k :| 0 <= k < |terms| && terms[k] == t;
          assert last[k] == Tagged(files, b, t);
        } else {
          assert Tagged(files, b, t) in prev;
        }
      }
    }
  }

  /** `load_all_glossary()`: books 1 to 10 in turn, each term tagged as it
      is appended; a file that raises while loading is skipped. */
  method LoadAllGlossary(files: Files) returns (all: seq<Term>)
    ensures all == AllGlossary(files)
  {
    all := [];
    var book := FirstBook;
    while book < EndBook
      invariant FirstBook <= book <= EndBook
      invariant all == BooksBefore(files, book)
    {
      var data := LoadFile(files, book);
      if data.Parsed? {
        var name := if data.bookName.Some? then data.bookName.value else "Book " + DecimalString(book);
        var i := 0;
        ghost var before := all;
        while i < |data.terms|
          invariant 0 <= i <= |data.terms|
          invariant all == before + BookTerms(files, book)[..i]
        {
          var term := data.terms[i];
          term := term.(bookId := Some(book));
          term := term.(bookName := Some(name));
          assert BookTerms(files, book)[..i + 1] == BookTerms(files, book)[..i] + [term];
          all := all + [term];
          i := i + 1;
        }
        assert BookTerms(files, book)[..i] == BookTerms(files, book);
      }
      book := book + 1;
    }
  }

  // ---------------------------------------------------------------------
  // Paging, lookup and module filter.

  /** `all_terms[offset:offset + limit]` with non-negative bounds is the
      window of at most `limit` terms starting at `offset`. */
  lemma PageWindow(all: seq<Term>, offset: int, limit: int)
    requires offset >= 0 && limit >= 0
    ensures PySlice(all, offset, offset + limit)
         == if offset >= |all| then [] else all[offset..Min(offset + limit, |all|)]
  {
  }

  /** Consecutive pages of the same size tile the list. */
  lemma PagesTile(all: seq<Term>, offset: int, limit: int)
    requires offset >= 0 && limit >= 0
    ensures PySlice(all, offset, offset + limit) + PySlice(all, offset + limit, offset + 2 * limit)
         == PySlice(all, offset, offset + 2 * limit)
  {
    PageWindow(all, offset, limit);
    PageWindow(all, offset + limit, limit);
    PageWindow(all, offset, 2 * limit);
  }

  /** GET /api/glossary: the size of the whole glossary and one page of it. */
  method GetAllTerms(files: Files, limit: int, offset: int) returns (total: int, page: seq<Term>)
    ensures total == |AllGlossary(files)|
    ensures page == PySlice(AllGlossary(files), offset, offset + limit)
  {
    var all := LoadAllGlossary(files);
    total := |all|;
    page := PySlice(all, offset, offset + limit);
  }

  /** GET /api/glossary/term/{term_id}: the first term of the whole
      glossary with that id. */
  method GetTerm(files: Files, termId: string) returns (r: Result<Term, Failure>)
    ensures r.Ok? ==> exists i :: 0 <= i < |AllGlossary(files)| && AllGlossary(files)[i] == r.value
                        && r.value.termId == Some(termId)
                        && forall j :: 0 <= j < i ==> AllGlossary(files)[j].termId != Some(termId)
    ensures r.Err? ==> r.error == NotFound
                       && forall i :: 0 <= i < |AllGlossary(files)| ==> AllGlossary(files)[i].termId != Some(termId)
  {
    var all := LoadAllGlossary(files);
    var i := 0;
    while i < |all|
      invariant 0 <= i <= |all|
      invariant forall j :: 0 <= j < i ==> all[j].termId != Some(termId)
    {
      if all[i].termId == Some(termId) {
        return Ok(all[i]);
      }
      i := i + 1;
    }
    r := Err(NotFound);
  }

  function InModule(moduleId: int): Term -> bool
  {
    (t: Term) => t.moduleId == Some(moduleId)
  }

  /** GET /api/glossary/module/{book_id}/{module_id}: the terms of the
      book's file tagged with that module, in file order; a file that fails
      to parse fails the request. */
  function GetModuleTerms(files: Files, book: int, moduleId: int): (r: Result<seq<Term>, Failure>)
    ensures LoadFile(files, book).Unreadable? <==> r.Err?
    ensures r.Ok? ==> var ts := LoadFile(files, book).terms;
                      && (forall t :: t in r.value <==> t in ts && t.moduleId == Some(moduleId))
                      && (forall t: Term :: t.moduleId == Some(moduleId) ==> multiset(r.value)[t] == multiset(ts)[t])
  {
    match LoadFile(files, book)
    case Unreadable => Err(BrokenFile)
    case Parsed(_, ts) =>
      var r := Filter(ts, InModule(moduleId));
      assert forall t :: t in r <==> t in ts && t.moduleId == Some(moduleId) by {
        forall t | true ensures t in r <==> t in ts && t.moduleId == Some(moduleId) {
          FilterMembership(ts, InModule(moduleId), t);
        }
      }
      assert forall t: Term :: t.moduleId == Some(moduleId) ==> multiset(r)[t] == multiset(ts)[t] by {
        forall t: Term | t.moduleId == Some(moduleId) ensures multiset(r)[t] == multiset(ts)[t] {
          FilterCount(ts, InModule(moduleId), t);
        }
      }
      Ok(r)
  }

  // ---------------------------------------------------------------------
  // Search.

  /** The lower-cased query occurs in one of the four lower-cased texts. */
  predicate Matches(t: Term, query: string)
  {
    Contains(Lower(t.termEn), query) || Contains(Lower(t.termRu), query)
    || Contains(Lower(t.definitionEn), query) || Contains(Lower(t.definitionRu), query)
  }

  function MatchesQuery(query: string): Term -> bool
  {
    (t: Term) => Matches(t, query)
  }

  /** What the search loop returns, stated without the loop: for a limit of
      at least one, the first `limit` matching terms (all of them when there
      are fewer); for a limit of zero or less, the first term if it
      matches, since the limit is checked only after a term is appended. */
  function SearchResult(terms: seq<Term>, query: string, limit: int): (r: seq<Term>)
  {
    var hits := Filter(terms, MatchesQuery(query));
    if limit >= 1 then hits[..Min(limit, |hits|)]
    else Filter(terms[..Min(1, |terms|)], MatchesQuery(query))
  }

  /** Every result matches, results keep their order in the glossary, and
      with a positive limit there are exactly min(limit, #matches) of them. */
  lemma SearchResultFacts(terms: seq<Term>, query: string, limit: int)
    ensures var r := SearchResult(terms, query, limit);
            var hits := Filter(terms, MatchesQuery(query));
            && r <= hits
            && (forall t :: t in r ==> t in terms && Matches(t, query))
            && (limit >= 1 ==> |r| == Min(limit, |hits|))
            && (limit < 1 ==> |r| <= 1)
  {
    var hits := Filter(terms, MatchesQuery(query));
    if limit < 1 && terms != [] {
      FilterAppend(terms[..1], terms[1..], MatchesQuery(query));
      assert terms[..1] + terms[1..] == terms;
    }
  }

  /** A limit of zero still returns a matching first term. */
  lemma SearchZeroLimit(t: Term, rest: seq<Term>, query: string)
    requires Matches(t, query)
    ensures SearchResult([t] + rest, query, 0) == [t]
  {
    assert ([t] + rest)[..1] == [t];
    assert Filter([t], MatchesQuery(query)) == Filter([], MatchesQuery(query)) + [t];
  }

  /** The search loop over an already loaded list of terms. */
  method SearchLoop(terms: seq<Term>, query: string, limit: int) returns (results: seq<Term>)
    ensures results == SearchResult(terms, query, limit)
  {
    results := [];
    var i := 0;
    while i < |terms|
      invariant 0 <= i <= |terms|
      invariant results == Filter(terms[..i], MatchesQuery(query))
      invariant i > 0 ==> |results| < limit
    {
      var t := terms[i];
      var termEn := Lower(t.termEn);
      var termRu := Lower(t.termRu);
      var defEn := Lower(t.definitionEn);
      var defRu := Lower(t.definitionRu);
      var hit := Contains(termEn, query) || Contains(termRu, query) || Contains(defEn, query) || Contains(defRu, query);
      assert hit == Matches(t, query);
      SearchStep(terms, query, i);
      if hit {
        results := results + [t];
      }
      if |results| >= limit {
        SearchStops(terms, query, limit, i);
        return;
      }
      i := i + 1;
    }
    assert terms[..i] == terms;
    SearchExhausts(terms, query, limit);
  }

  /** One more term extends the matches by that term exactly when it
      matches. */
  lemma SearchStep(terms: seq<Term>, query: string, i: int)
    requires 0 <= i < |terms|
    ensures Filter(terms[..i + 1], MatchesQuery(query))
         == Filter(terms[..i], MatchesQuery(query)) + if Matches(terms[i], query) then [terms[i]] else []
  {
    assert terms[..i + 1][..i] == terms[..i];
  }

  /** Stopping after term i, the first time the results reach the limit,
      returns the search result. */
  lemma SearchStops(terms: seq<Term>, query: string, limit: int, i: int)
    requires 0 <= i < |terms|
    requires i > 0 ==> |Filter(terms[..i], MatchesQuery(query))| < limit
    requires |Filter(terms[..i + 1], MatchesQuery(query))| >= limit
    ensures Filter(terms[..i + 1], MatchesQuery(query)) == SearchResult(terms, query, limit)
  {
    var p := MatchesQuery(query);
    var done := Filter(terms[..i + 1], p);
    assert terms[..i + 1] + terms[i + 1..] == terms;
    FilterAppend(terms[..i + 1], terms[i + 1..], p);
    if limit >= 1 {
      assert terms[..i + 1][..i] == terms[..i];
      assert |done| == limit;
    } else {
      assert i == 0;
    }
  }

  /** A loop that runs out of terms without reaching the limit has
      returned every match. */
  lemma SearchExhausts(terms: seq<Term>, query: string, limit: int)
    requires terms != [] ==> |Filter(terms, MatchesQuery(query))| < limit
    ensures Filter(terms, MatchesQuery(query)) == SearchResult(terms, query, limit)
  {
    if terms != [] {
      assert limit >= 1;
    }
  }

  /** GET /api/glossary/search. With a truthy `book_id` only that book's
      file is searched, its terms tagged with the book id but no name, and
      a file that fails to parse fails the request; otherwise the whole
      glossary is searched. A query shorter than two characters is
      rejected before anything is read. */
  method SearchTerms(files: Files, q: string, book: Option<int>, limit: int) returns (r: Result<seq<Term>, Failure>)
    ensures |q| < 2 <==> r == Err(QueryTooShort)
    ensures r.Ok? ==> && (Truthy(book) ==> LoadFile(files, book.value).Parsed?)
                      && r.value == SearchResult(SearchedTerms(files, book), Lower(q), limit)
    ensures r.Err? && |q| >= 2 ==> r.error == BrokenFile && Truthy(book) && LoadFile(files, book.value).Unreadable?
  {
    if |q| < 2 {
      return Err(QueryTooShort);
    }
    var query := Lower(q);
    var pool := LoadSearched(files, book);
    if pool.Err? {
      return Err(BrokenFile);
    }
    var results := SearchLoop(pool.value, query, limit);
    r := Ok(results);
  }

  /** `for term in all_terms: term["book_id"] = book_id` */
  function TagBook(terms: seq<Term>, book: int): (r: seq<Term>)
    ensures |r| == |terms|
    ensures forall i :: 0 <= i < |terms| ==> r[i] == terms[i].(bookId := Some(book))
  {
    seq(|terms|, i requires 0 <= i < |terms| => terms[i].(bookId := Some(book)))
  }

  /** Loading the terms a search or a flash-card draw runs over. */
  method LoadSearched(files: Files, book: Option<int>) returns (r: Result<seq<Term>, Failure>)
    ensures r.Err? <==> Truthy(book) && LoadFile(files, book.value).Unreadable?
    ensures r.Ok? ==> r.value == SearchedTerms(files, book)
  {
    if book.Some? && book.value != 0 {
      var data := LoadFile(files, book.value);
      if data.Unreadable? {
        return Err(BrokenFile);
      }
      r := Ok(TagBook(data.terms, book.value));
    } else {
      var all := LoadAllGlossary(files);
      r := Ok(all);
    }
  }

  /** The list a search runs over. */
  function SearchedTerms(files: Files, book: Option<int>): seq<Term>
  {
    if Truthy(book) && LoadFile(files, book.value).Parsed? then TagBook(LoadFile(files, book.value).terms, book.value)
    else if Truthy(book) then []
    else AllGlossary(files)
  }

  // ---------------------------------------------------------------------
  // Book file and flash cards.

  /** GET /api/glossary/book/{book_id}: the file's name (or "Book N") and
      its terms, untagged. */
  function GetBookTerms(files: Files, book: int): (r: Result<(string, seq<Term>), Failure>)
    ensures r.Err? <==> LoadFile(files, book).Unreadable?
    ensures r.Ok? ==> r.value.1 == LoadFile(files, book).terms
    ensures r.Ok? && LoadFile(files, book).bookName.None? ==> r.value.0 == "Book " + DecimalString(book)
    ensures r.Ok? && LoadFile(files, book).bookName.Some? ==> r.value.0 == LoadFile(files, book).bookName.value
  {
    match LoadFile(files, book)
    case Unreadable => Err(BrokenFile)
    case Parsed(_, ts) => Ok((BookNameOf(LoadFile(files, book), book), ts))
  }

  /** A book page of books 1 to 10 agrees with the whole glossary: each of
      its terms, tagged with the book id and the page's book name, is a
      term of `load_all_glossary()`. */
  lemma BookPageInGlossary(files: Files, book: int)
    requires FirstBook <= book < EndBook
    requires GetBookTerms(files, book).Ok?
    ensures var page := GetBookTerms(files, book).value;
            forall t :: t in page.1 ==> t.(bookId := Some(book), bookName := Some(page.0)) in AllGlossary(files)
  {
    BooksBeforeComplete(files, EndBook);
    var page := GetBookTerms(files, book).value;
    forall t | t in page.1
      ensures t.(bookId := Some(book), bookName := Some(page.0)) in AllGlossary(files)
    {
      assert Tagged(files, book, t) == t.(bookId := Some(book), bookName := Some(page.0));
    }
  }

  /** GET /api/glossary/random: up to `count` distinct positions of the
      searched list; an empty list gives no terms, and a negative count on
      a non-empty list makes `random.sample` raise. */
  method GetRandomTerms(files: Files, count: int, book: Option<int>) returns (r: Result<seq<Term>, Failure>)
    ensures r.Err? ==> (r.error == NegativeSample && count < 0 && SearchedTerms(files, book) != [])
                       || (r.error == BrokenFile && Truthy(book) && LoadFile(files, book.value).Unreadable?)
    ensures Truthy(book) && LoadFile(files, book.value).Unreadable? ==> r == Err(BrokenFile)
    ensures r.Ok? ==> var pool := SearchedTerms(files, book);
                      && (pool == [] ==> r.value == [])
                      && (pool != [] ==> count >= 0 && |r.value| == Min(count, |pool|))
                      && multiset(r.value) <= multiset(pool)
  {
    var pool := LoadSearched(files, book);
    if pool.Err? {
      return Err(BrokenFile);
    }
    var all := pool.value;
    if all == [] {
      return Ok([]);
    }
    var n := Min(count, |all|);
    if n < 0 {
      return Err(NegativeSample);
    }
    var picked := Sampling.Sample(all, n);
    r := Ok(picked);
  }
}
