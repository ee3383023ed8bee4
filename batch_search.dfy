/**
 * The edition-search side of the tool (batch_search.py): the fuzzy matcher, the three list
 * filters, the staged narrowing strategy around one remote search, ordering by year, duplicate
 * request detection, and the text of one version block in the saved report.
 *
 * A book record is the dictionary the catalog search returns; every field is text and "" stands
 * for a key that is missing or None, which the source treats alike in every test it makes.
 */
module BatchSearch {
  import opened Maybe
  import opened Text
  import opened Seqs

  datatype Book = Book(
    id: string, hash: string, title: string, author: string, publisher: string,
    year: string, language: string, fileSize: string, pages: string, cover: string)

  /** One search request read from the input array: `{title?, author?, publisher?}`. */
  datatype SearchRequest = SearchRequest(title: string, author: string, publisher: string)

  // ===================== normalize_string / fuzzy_match =====================

  /** `normalize_string`: trimmed and lower-cased. */
  function Normalize(text: string): (r: string)
    ensures |r| <= |text|
    ensures Trimmed(r)
    ensures forall i :: 0 <= i < |r| ==> !IsUpper(r[i])
  {
    if text == "" then "" else
      var s := Strip(text);
      LowerCharSpace(if s == [] then ' ' else s[0]);
      LowerCharSpace(if s == [] then ' ' else s[|s| - 1]);
      Lower(s)
  }

  /** `fuzzy_match(term, target)`: both present and the normalised term occurs in the normalised target. */
  function FuzzyMatch(term: string, target: string): (r: bool)
    ensures r ==> term != "" && target != ""
    ensures term != "" && target != "" && Normalize(term) <= Normalize(target) ==> r
  {
    term != "" && target != "" && Contains(Normalize(target), Normalize(term))
  }

  /** A match is an occurrence of the normalised term at some offset of the normalised target. */
  lemma FuzzyMatchAt(term: string, target: string)
    ensures FuzzyMatch(term, target) <==> (term != "" && target != "" &&
      exists i :: 0 <= i <= |Normalize(target)| && Normalize(term) <= Normalize(target)[i..])
  {
    ContainsAt(Normalize(target), Normalize(term));
  }

  /** A non-empty string matches itself; the empty one matches nothing. */
  lemma FuzzyMatchReflexive(s: string)
    ensures FuzzyMatch(s, s) <==> s != ""
  {
    assert Normalize(s) <= Normalize(s)[0..];
  }

  /** An empty term or an empty target never matches. */
  lemma FuzzyMatchEmpty(s: string)
    ensures !FuzzyMatch("", s) && !FuzzyMatch(s, "")
  {
  }

  /**
   * A whitespace-only term is present for the source's truthiness test but normalises to "",
   * so it matches every non-empty target.
   */
  lemma FuzzyMatchBlankTerm(term: string, target: string)
    requires term != "" && AllSpace(term)
    ensures FuzzyMatch(term, target) <==> target != ""
  {
    StripAllSpace(term);
    assert Normalize(term) == "";
    assert "" <= Normalize(target)[0..];
  }

  /** Matching ignores ASCII case on both sides. */
  lemma FuzzyMatchIgnoresCase(term: string, target: string)
    ensures FuzzyMatch(Lower(term), Lower(target)) == FuzzyMatch(term, target)
  {
    NormalizeLower(term);
    NormalizeLower(target);
  }

  lemma NormalizeLower(s: string)
    ensures Normalize(Lower(s)) == Normalize(s)
  {
    if s != "" {
      StripLower(s);
      LowerIdempotent(Strip(s));
    }
  }

  /** A term occurring inside a longer matching term matches too: shortening a term never loses a book. */
  lemma FuzzyMatchShorterTerm(short: string, long: string, target: string)
    requires short != "" && Contains(Normalize(long), Normalize(short))
    requires FuzzyMatch(long, target)
    ensures FuzzyMatch(short, target)
  {
    ContainsTransitive(Normalize(short), Normalize(long), Normalize(target));
  }

  // ===================== build_search_term =====================

  /** `' '.join(words)`. */
  function JoinWords(words: seq<string>): (r: string)
    ensures words != [] && words[0] != "" ==> words[0] <= r && r != ""
  {
    if words == [] then "" else if |words| == 1 then words[0] else words[0] + " " + JoinWords(words[1..])
  }

  /** `build_search_term`: the present fields joined by one space, in title, author, publisher order. */
  function BuildSearchTerm(req: SearchRequest): string {
    var parts := (if req.title != "" then [req.title] else []) +
      (if req.author != "" then [req.author] else []) +
      (if req.publisher != "" then [req.publisher] else []);
    JoinWords(parts)
  }

  /** The term is empty only without any field, starts with the title, and spells out every present field. */
  lemma BuildSearchTermLaws(req: SearchRequest)
    ensures BuildSearchTerm(req) == "" <==> req.title == "" && req.author == "" && req.publisher == ""
    ensures req.title != "" ==> req.title <= BuildSearchTerm(req)
    ensures req.author == "" && req.publisher == "" ==> BuildSearchTerm(req) == req.title
    ensures req.title == "" && req.author != "" && req.publisher == "" ==> BuildSearchTerm(req) == req.author
    ensures req.title == "" && req.author == "" && req.publisher != "" ==> BuildSearchTerm(req) == req.publisher
    ensures req.title != "" && req.author != "" && req.publisher == "" ==>
      BuildSearchTerm(req) == req.title + " " + req.author
    ensures req.title != "" && req.author == "" && req.publisher != "" ==>
      BuildSearchTerm(req) == req.title + " " + req.publisher
    ensures req.title == "" && req.author != "" && req.publisher != "" ==>
      BuildSearchTerm(req) == req.author + " " + req.publisher
    ensures req.title != "" && req.author != "" && req.publisher != "" ==>
      BuildSearchTerm(req) == req.title + " " + req.author + " " + req.publisher
  {
    var t, a, p := req.title, req.author, req.publisher;
    if t != "" && a != "" && p != "" {
      assert [t] + [a] + [p] == [t, a, p];
      JoinThree(t, a, p);
    } else if t != "" && a != "" {
      assert [t] + [a] + [] == [t, a];
      JoinTwo(t, a);
    } else if t != "" && p != "" {
      assert [t] + [] + [p] == [t, p];
      JoinTwo(t, p);
    } else if a != "" && p != "" {
      assert [] + [a] + [p] == [a, p];
      JoinTwo(a, p);
    }
  }

  lemma JoinTwo(x: string, y: string)
    ensures JoinWords([x, y]) == x + " " + y
  {
    assert [x, y][1..] == [y];
  }

  lemma JoinThree(x: string, y: string, z: string)
    ensures JoinWords([x, y, z]) == x + " " + y + " " + z
  {
    assert [x, y, z][1..] == [y, z];
    JoinTwo(y, z);
  }

  // ===================== the three list filters =====================

  datatype Field = Title | Author | Publisher

  function FieldOf(b: Book, f: Field): string {
    match f
    case Title => b.title
    case Author => b.author
    case Publisher => b.publisher
  }

  function RequestField(req: SearchRequest, f: Field): string {
    match f
    case Title => req.title
    case Author => req.author
    case Publisher => req.publisher
  }

  function MatchesField(f: Field, term: string): Book -> bool {
    (b: Book) => FuzzyMatch(term, FieldOf(b, f))
  }

  /** What `filter_books_by_title/publisher/author` return: the input for an empty constraint, else the matches. */
  function Narrowed(books: seq<Book>, f: Field, term: string): seq<Book> {
    if term == "" then books else Filter(books, MatchesField(f, term))
  }

  /** A filter keeps exactly the books whose field matches, in order, and with no constraint keeps all. */
  lemma NarrowedLaws(books: seq<Book>, f: Field, term: string)
    ensures term == "" ==> Narrowed(books, f, term) == books
    ensures IsSubseq(Narrowed(books, f, term), books)
    ensures forall b :: b in Narrowed(books, f, term) <==>
      b in books && (term == "" || FuzzyMatch(term, FieldOf(b, f)))
  {
    if term == "" {
      SubseqRefl(books);
    } else {
      FilterIsSubseq(books, MatchesField(f, term));
      forall b ensures b in Narrowed(books, f, term) <==> b in books && FuzzyMatch(term, FieldOf(b, f)) {
        FilterMembers(books, MatchesField(f, term), b);
      }
    }
  }

  /** `filter_books_by_title`, `filter_books_by_publisher` and `filter_books_by_author` (one per field). */
  method FilterBooks(books: seq<Book>, f: Field, term: string) returns (filtered: seq<Book>)
    ensures filtered == Narrowed(books, f, term)
    ensures IsSubseq(filtered, books)
  {
    if term == "" {
      SubseqRefl(books);
      return books;
    }
    FilterIsSubseq(books, MatchesField(f, term));
    filtered := KeepMatching(books, MatchesField(f, term));
  }

  /** The loop the three filters share: append each book the test accepts. */
  method KeepMatching(books: seq<Book>, keep: Book -> bool) returns (filtered: seq<Book>)
    ensures filtered == Filter(books, keep)
  {
    filtered := [];
    for i := 0 to |books|
      invariant filtered == Filter(books[..i], keep)
    {
      assert books[..i + 1] == books[..i] + [books[i]];
      FilterSnoc(books[..i], books[i], keep);
      if keep(books[i]) {
        filtered := filtered + [books[i]];
      }
    }
    assert books[..|books|] == books;
  }

  // ===================== search_epub_books_with_strategy =====================

  /** Which request field seeds the single remote search: title, else publisher, else author. */
  function SeedField(req: SearchRequest): (r: Option<Field>)
    ensures r == None <==> req.title == "" && req.author == "" && req.publisher == ""
    ensures r.Some? ==> RequestField(req, r.value) != ""
    ensures req.title != "" ==> r == Some(Title)
    ensures req.title == "" && req.publisher != "" ==> r == Some(Publisher)
  {
    if req.title != "" then Some(Title)
    else if req.publisher != "" then Some(Publisher)
    else if req.author != "" then Some(Author)
    else None
  }

  /** A later stage: runs only on more than one candidate and a present constraint, and falls back when it would leave nothing. */
  function FallbackStage(prev: seq<Book>, f: Field, term: string): seq<Book> {
    if |prev| > 1 && term != "" then
      var narrowed := Narrowed(prev, f, term);
      if |narrowed| == 0 then prev else narrowed
    else prev
  }

  /** The books the strategy keeps from the seed result `found`: title, then publisher, then author. */
  function StrategyBooks(req: SearchRequest, found: seq<Book>): seq<Book> {
    var byTitle := Narrowed(found, Title, req.title);
    var byPublisher := FallbackStage(byTitle, Publisher, req.publisher);
    FallbackStage(byPublisher, Author, req.author)
  }

  /** One line of the strategy's log, without the elapsed-time text. */
  datatype StrategyStep =
    | NoSearchTerms
    | SeedChosen(term: string, source: Field)
    | Searched(term: string, found: nat)
    | NothingFound
    | Filtered(field: Field, term: string, matched: nat)
    | FellBack(field: Field, kept: nat)
    | Finished(count: nat)

  function StageTrace(prev: seq<Book>, f: Field, term: string): seq<StrategyStep> {
    if |prev| > 1 && term != "" then
      var narrowed := Narrowed(prev, f, term);
      [Filtered(f, term, |narrowed|)] + (if |narrowed| == 0 then [FellBack(f, |prev|)] else [])
    else []
  }

  /** The log the strategy writes once a seed field exists. */
  function StrategyTrace(req: SearchRequest, found: seq<Book>): seq<StrategyStep>
    requires SeedField(req).Some?
  {
    var source := SeedField(req).value;
    var term := RequestField(req, source);
    [SeedChosen(term, source), Searched(term, |found|)] +
    if found == [] then [NothingFound] else RefineTrace(req, found)
  }

  /** The log lines of the local narrowing of a non-empty seed result. */
  function RefineTrace(req: SearchRequest, found: seq<Book>): seq<StrategyStep> {
    var byTitle := Narrowed(found, Title, req.title);
    var byPublisher := FallbackStage(byTitle, Publisher, req.publisher);
    (if req.title != "" then [Filtered(Title, req.title, |byTitle|)] else []) +
    StageTrace(byTitle, Publisher, req.publisher) +
    StageTrace(byPublisher, Author, req.author) +
    [Finished(|StrategyBooks(req, found)|)]
  }

  /** The record the strategy returns for a kept book: the same fields, file size "N/A". */
  function AsResult(b: Book): Book {
    b.(fileSize := "N/A")
  }

  /**
   * `search_epub_books_with_strategy`: one remote search on the seed term (`search` stands for
   * the catalog), then local narrowing. Returns the kept records and the strategy log.
   */
  method SearchWithStrategy(req: SearchRequest, search: string -> seq<Book>)
    returns (books: seq<Book>, log: seq<StrategyStep>)
    ensures SeedField(req) == None ==> books == [] && log == [NoSearchTerms]
    ensures SeedField(req).Some? ==>
      var found := search(RequestField(req, SeedField(req).value));
      && books == Map(AsResult, StrategyBooks(req, found))
      && log == StrategyTrace(req, found)
      && IsSubseq(books, Map(AsResult, found))
      && (found == [] ==> books == [])
    ensures forall i :: 0 <= i < |books| ==> books[i].fileSize == "N/A"
  {
    if req.title == "" && req.author == "" && req.publisher == "" {
      return [], [NoSearchTerms];
    }
    var term: string, source: Field;
    if req.title != "" {
      term, source := req.title, Title;
    } else if req.publisher != "" {
      term, source := req.publisher, Publisher;
    } else {
      term, source := req.author, Author;
    }
    assert SeedField(req) == Some(source) && term == RequestField(req, source);
    var found := search(term);
    books, log := NarrowFound(req, found);
  }

  /** The strategy after its one remote search: the log so far and the local narrowing of `found`. */
  method NarrowFound(req: SearchRequest, found: seq<Book>) returns (books: seq<Book>, log: seq<StrategyStep>)
    requires SeedField(req).Some?
    ensures books == Map(AsResult, StrategyBooks(req, found))
    ensures log == StrategyTrace(req, found)
    ensures IsSubseq(books, Map(AsResult, found))
    ensures found == [] ==> books == []
  {
    var source := SeedField(req).value;
    var term := RequestField(req, source);
    log := [SeedChosen(term, source), Searched(term, |found|)];
    if found == [] {
      log := log + [NothingFound];
      assert StrategyBooks(req, found) == [];
      return [], log;
    }
    var finalBooks, steps := Refine(req, found);
    books := ToResults(finalBooks);
    TraceAfterSearch(req, found);
    log := log + steps;
    StrategyIsSubseq(req, found);
    SubseqMap(AsResult, finalBooks, found);
  }

  /** After a non-empty seed search the log is the seed line, the search line and the narrowing lines. */
  lemma TraceAfterSearch(req: SearchRequest, found: seq<Book>)
    requires SeedField(req).Some? && found != []
    ensures StrategyTrace(req, found) ==
      [SeedChosen(RequestField(req, SeedField(req).value), SeedField(req).value),
       Searched(RequestField(req, SeedField(req).value), |found|)] + RefineTrace(req, found)
  {
  }

  /** The narrowing after a non-empty seed search: title, publisher and author stages, then the count. */
  method Refine(req: SearchRequest, found: seq<Book>) returns (kept: seq<Book>, steps: seq<StrategyStep>)
    ensures kept == StrategyBooks(req, found)
    ensures steps == RefineTrace(req, found)
  {
    var byTitle: seq<Book>;
    var titleSteps: seq<StrategyStep> := [];
    if req.title != "" {
      byTitle := FilterBooks(found, Title, req.title);
      titleSteps := [Filtered(Title, req.title, |byTitle|)];
    } else {
      byTitle := found;
    }
    assert byTitle == Narrowed(found, Title, req.title);
    var byPublisher, publisherSteps := NarrowStage(byTitle, Publisher, req.publisher);
    var authorSteps;
    kept, authorSteps := NarrowStage(byPublisher, Author, req.author);
    steps := titleSteps + publisherSteps + authorSteps + [Finished(|kept|)];
  }

  /** The result records built from the kept books, one per book and in order. */
  method ToResults(kept: seq<Book>) returns (results: seq<Book>)
    ensures results == Map(AsResult, kept)
  {
    results := [];
    for i := 0 to |kept|
      invariant |results| == i
      invariant forall k :: 0 <= k < i ==> results[k] == AsResult(kept[k])
    {
      results := results + [AsResult(kept[i])];
    }
  }

  /**
   * The publisher and author stages of the strategy: filter only when more than one book is left
   * and the constraint is present, and keep the previous list when the filter leaves nothing.
   */
  method NarrowStage(prev: seq<Book>, f: Field, term: string) returns (kept: seq<Book>, steps: seq<StrategyStep>)
    ensures kept == FallbackStage(prev, f, term)
    ensures steps == StageTrace(prev, f, term)
  {
    if |prev| <= 1 || term == "" {
      return prev, [];
    }
    var narrowed := FilterBooks(prev, f, term);
    if |narrowed| == 0 {
      return prev, [Filtered(f, term, 0), FellBack(f, |prev|)];
    }
    return narrowed, [Filtered(f, term, |narrowed|)];
  }

  /** A fallback stage deletes books without reordering and never turns a non-empty list into an empty one. */
  lemma FallbackStageLaws(prev: seq<Book>, f: Field, term: string)
    ensures IsSubseq(FallbackStage(prev, f, term), prev)
    ensures FallbackStage(prev, f, term) == [] <==> prev == []
    ensures FallbackStage(prev, f, term) == prev ||
      (|prev| > 1 && term != "" && forall b :: b in FallbackStage(prev, f, term) ==> FuzzyMatch(term, FieldOf(b, f)))
  {
    NarrowedLaws(prev, f, term);
    SubseqRefl(prev);
  }

  /**
   * Fallback law: when a later stage runs and its filter matches nothing, the stage hands on its
   * input unchanged; when something matches, it hands on exactly the matches.
   */
  lemma FallbackStageChoice(prev: seq<Book>, f: Field, term: string)
    requires |prev| > 1 && term != ""
    ensures (forall b :: b in prev ==> !FuzzyMatch(term, FieldOf(b, f))) ==> FallbackStage(prev, f, term) == prev
    ensures (exists b :: b in prev && FuzzyMatch(term, FieldOf(b, f))) ==>
      forall b :: b in FallbackStage(prev, f, term) <==> b in prev && FuzzyMatch(term, FieldOf(b, f))
  {
    NarrowedLaws(prev, f, term);
    if exists b :: b in prev && FuzzyMatch(term, FieldOf(b, f)) {
      var b :| b in prev && FuzzyMatch(term, FieldOf(b, f));
      assert b in Narrowed(prev, f, term);
    }
  }

  /** The kept books are a subsequence of the seed result. */
  lemma StrategyIsSubseq(req: SearchRequest, found: seq<Book>)
    ensures IsSubseq(StrategyBooks(req, found), found)
    ensures |StrategyBooks(req, found)| <= |found|
  {
    var byTitle := Narrowed(found, Title, req.title);
    var byPublisher := FallbackStage(byTitle, Publisher, req.publisher);
    NarrowedLaws(found, Title, req.title);
    FallbackStageLaws(byTitle, Publisher, req.publisher);
    FallbackStageLaws(byPublisher, Author, req.author);
    SubseqTrans(byPublisher, byTitle, found);
    SubseqTrans(StrategyBooks(req, found), byPublisher, found);
    SubseqLength(StrategyBooks(req, found), found);
  }

  /** The title stage has no fallback: the strategy finds nothing exactly when no seed book matches the title. */
  lemma StrategyEmptyIff(req: SearchRequest, found: seq<Book>)
    ensures StrategyBooks(req, found) == [] <==> Narrowed(found, Title, req.title) == []
  {
    var byTitle := Narrowed(found, Title, req.title);
    FallbackStageLaws(byTitle, Publisher, req.publisher);
    FallbackStageLaws(FallbackStage(byTitle, Publisher, req.publisher), Author, req.author);
  }

  /** With a title given, every kept book matches it; the later stages only narrow further. */
  lemma StrategyMatchesTitle(req: SearchRequest, found: seq<Book>)
    requires req.title != ""
    ensures forall b :: b in StrategyBooks(req, found) ==> FuzzyMatch(req.title, b.title)
  {
    var byTitle := Narrowed(found, Title, req.title);
    var byPublisher := FallbackStage(byTitle, Publisher, req.publisher);
    NarrowedLaws(found, Title, req.title);
    FallbackStageLaws(byTitle, Publisher, req.publisher);
    FallbackStageLaws(byPublisher, Author, req.author);
    forall b | b in StrategyBooks(req, found) ensures FuzzyMatch(req.title, b.title) {
      SubseqMembers(StrategyBooks(req, found), byPublisher, b);
      SubseqMembers(byPublisher, byTitle, b);
    }
  }

  /** A stage whose filter matches nothing on several candidates keeps them and logs the fallback. */
  lemma StageFallsBack(prev: seq<Book>, f: Field, term: string)
    requires |prev| > 1 && term != "" && Narrowed(prev, f, term) == []
    ensures FallbackStage(prev, f, term) == prev
    ensures StageTrace(prev, f, term) == [Filtered(f, term, 0), FellBack(f, |prev|)]
  {
  }

  /** Neither a filter nor a fallback stage adds candidates. */
  lemma StagesShrink(req: SearchRequest, found: seq<Book>)
    ensures |FallbackStage(Narrowed(found, Title, req.title), Publisher, req.publisher)| <= |found|
  {
    var byTitle := Narrowed(found, Title, req.title);
    assert |byTitle| <= |found|;
  }

  /** The author stage's lines sit between the publisher stage's lines and the closing count. */
  lemma RefineSplit(req: SearchRequest, found: seq<Book>)
    ensures var byTitle := Narrowed(found, Title, req.title);
      var byPublisher := FallbackStage(byTitle, Publisher, req.publisher);
      var head := (if req.title != "" then [Filtered(Title, req.title, |byTitle|)] else []) +
        StageTrace(byTitle, Publisher, req.publisher);
      RefineTrace(req, found) == head + StageTrace(byPublisher, Author, req.author) +
        [Finished(|StrategyBooks(req, found)|)]
  {
  }

  /** A last-stage author filter that matches nothing keeps the publisher stage's list, and the log says so. */
  lemma StrategyAuthorFallback(req: SearchRequest, found: seq<Book>)
    requires var byPublisher := FallbackStage(Narrowed(found, Title, req.title), Publisher, req.publisher);
      |byPublisher| > 1 && req.author != "" && Narrowed(byPublisher, Author, req.author) == []
    ensures StrategyBooks(req, found) == FallbackStage(Narrowed(found, Title, req.title), Publisher, req.publisher)
    ensures SeedField(req).Some? && FellBack(Author, |StrategyBooks(req, found)|) in StrategyTrace(req, found)
  {
    var byTitle := Narrowed(found, Title, req.title);
    var byPublisher := FallbackStage(byTitle, Publisher, req.publisher);
    StageFallsBack(byPublisher, Author, req.author);
    StagesShrink(req, found);
    RefineSplit(req, found);
    var head := (if req.title != "" then [Filtered(Title, req.title, |byTitle|)] else []) +
      StageTrace(byTitle, Publisher, req.publisher);
    TraceAfterSearch(req, found);
    var source := SeedField(req).value;
    FallbackListed([SeedChosen(RequestField(req, source), source), Searched(RequestField(req, source), |found|)],
      head, req.author, |byPublisher|);
  }

  lemma FallbackListed(pre: seq<StrategyStep>, head: seq<StrategyStep>, term: string, n: nat)
    ensures FellBack(Author, n) in pre + (head + [Filtered(Author, term, 0), FellBack(Author, n)] + [Finished(n)])
  {
    var log := pre + (head + [Filtered(Author, term, 0), FellBack(Author, n)] + [Finished(n)]);
    assert log[|pre| + |head| + 1] == FellBack(Author, n);
  }

  function SampleBook(id: string, title: string, publisher: string): Book {
    Book(id, "h" + id, title, "", publisher, "", "", "", "", "")
  }

  function SampleFound(): seq<Book> {
    [SampleBook("1", "Foo 2", "Bar Co"), SampleBook("2", "foo", "Baz"), SampleBook("3", "Qux", "Bar")]
  }

  /** A value without edge whitespace normalises to its lower-case form. */
  lemma NormalizeTrimmed(s: string)
    requires Trimmed(s)
    ensures Normalize(s) == Lower(s)
  {
    StripTrimmed(s);
  }

  lemma SampleTitleMatches()
    ensures FuzzyMatch("Foo", "Foo 2") && FuzzyMatch("Foo", "foo") && !FuzzyMatch("Foo", "Qux")
  {
    SampleMatchAtStart("Foo", "Foo 2");
    SampleMatchAtStart("Foo", "foo");
    SampleTitleMismatch();
  }

  /** A trimmed target whose lower-cased form starts with the lower-cased trimmed term matches it. */
  lemma SampleMatchAtStart(term: string, target: string)
    requires term != "" && Trimmed(term) && Trimmed(target) && |term| <= |target|
    requires Lower(target)[..|term|] == Lower(term)
    ensures FuzzyMatch(term, target)
  {
    NormalizeTrimmed(term);
    NormalizeTrimmed(target);
  }

  lemma SampleTitleMismatch()
    ensures !FuzzyMatch("Foo", "Qux")
  {
    NormalizeTrimmed("Foo");
    NormalizeTrimmed("Qux");
    assert Lower("Foo") == "foo";
    assert Lower("Qux") == "qux";
  }

  lemma SamplePublisherMatches()
    ensures FuzzyMatch("Bar", "Bar Co") && !FuzzyMatch("Bar", "Baz")
  {
    SampleMatchAtStart("Bar", "Bar Co");
    SamplePublisherMismatch();
  }

  lemma SamplePublisherMismatch()
    ensures !FuzzyMatch("Bar", "Baz")
  {
    NormalizeTrimmed("Bar");
    NormalizeTrimmed("Baz");
    assert Lower("Bar") == "bar";
    assert Lower("Baz") == "baz";
  }

  lemma SampleTitleStage()
    ensures Narrowed(SampleFound(), Title, "Foo") == SampleFound()[..2]
  {
    var found := SampleFound();
    assert found[..2] + [found[2]] == found;
    assert found[..1] + [found[1]] == found[..2];
    assert found[..0] + [found[0]] == found[..1];
    var p := MatchesField(Title, "Foo");
    SampleTitleMatches();
    assert p(found[0]) && p(found[1]) && !p(found[2]);
    FilterSnoc(found[..2], found[2], p);
    FilterSnoc(found[..1], found[1], p);
    FilterSnoc(found[..0], found[0], p);
  }

  lemma SamplePublisherStage()
    ensures Narrowed(SampleFound()[..2], Publisher, "Bar") == SampleFound()[..1]
  {
    var found := SampleFound();
    assert found[..1] + [found[1]] == found[..2];
    assert found[..0] + [found[0]] == found[..1];
    var p := MatchesField(Publisher, "Bar");
    SamplePublisherMatches();
    assert p(found[0]) && !p(found[1]);
    FilterSnoc(found[..1], found[1], p);
    FilterSnoc(found[..0], found[0], p);
  }

  /**
   * Title and publisher given, no author: when the title stage leaves several books and the
   * publisher stage keeps some, the result is the publisher stage's and the log has no fallback.
   */
  lemma StrategyTitleThenPublisher(req: SearchRequest, found: seq<Book>, byTitle: seq<Book>, byPublisher: seq<Book>)
    requires req.title != "" && req.author == "" && req.publisher != "" && found != []
    requires byTitle == Narrowed(found, Title, req.title) && |byTitle| > 1
    requires byPublisher == Narrowed(byTitle, Publisher, req.publisher) && byPublisher != []
    ensures StrategyBooks(req, found) == byPublisher
    ensures StrategyTrace(req, found) ==
      [SeedChosen(req.title, Title), Searched(req.title, |found|), Filtered(Title, req.title, |byTitle|),
       Filtered(Publisher, req.publisher, |byPublisher|), Finished(|byPublisher|)]
  {
    assert FallbackStage(byTitle, Publisher, req.publisher) == byPublisher;
    assert StrategyBooks(req, found) == byPublisher;
    var publisherSteps := StageTrace(byTitle, Publisher, req.publisher);
    var authorSteps := StageTrace(byPublisher, Author, req.author);
    assert publisherSteps == [Filtered(Publisher, req.publisher, |byPublisher|)];
    assert authorSteps == [];
    assert SeedField(req) == Some(Title);
    assert StrategyTrace(req, found) ==
      [SeedChosen(req.title, Title), Searched(req.title, |found|)] +
      ([Filtered(Title, req.title, |byTitle|)] + publisherSteps + authorSteps + [Finished(|byPublisher|)]);
    FiveSteps(SeedChosen(req.title, Title), Searched(req.title, |found|), Filtered(Title, req.title, |byTitle|),
              Filtered(Publisher, req.publisher, |byPublisher|), Finished(|byPublisher|));
  }

  lemma FiveSteps(a: StrategyStep, b: StrategyStep, c: StrategyStep, d: StrategyStep, e: StrategyStep)
    ensures [a, b] + ([c] + [d] + [] + [e]) == [a, b, c, d, e]
  {
  }

  /**
   * The end-to-end example: title "Foo", publisher "Bar", three seed books of which two have
   * "Foo" in the title and one of those has "Bar" in the publisher: one book is kept, the log
   * shows 2 after the title stage, 1 after the publisher stage, and no fallback.
   */
  lemma StrategyExample()
    ensures StrategyBooks(SearchRequest("Foo", "", "Bar"), SampleFound()) == SampleFound()[..1]
    ensures StrategyTrace(SearchRequest("Foo", "", "Bar"), SampleFound()) ==
      [SeedChosen("Foo", Title), Searched("Foo", 3), Filtered(Title, "Foo", 2),
       Filtered(Publisher, "Bar", 1), Finished(1)]
  {
    var found := SampleFound();
    SampleTitleStage();
    SamplePublisherStage();
    StrategyTitleThenPublisher(SearchRequest("Foo", "", "Bar"), found, found[..2], found[..1]);
  }

  // ===================== sort_books_by_year =====================

  /** Four ASCII digits start at `j` (a match of `\d{4}` there). */
  predicate DigitRunAt(s: string, j: int) {
    0 <= j && j + 4 <= |s| && AllDigits(s[j..j + 4])
  }

  /** Leftmost position at or after `from` where four digits start (`re.search(r'\d{4}', s)`). */
  function FourDigitsFrom(s: string, from: nat): (r: Option<nat>)
    requires from <= |s|
    ensures r.Some? ==> from <= r.value && DigitRunAt(s, r.value)
    ensures r.Some? ==> forall j :: from <= j < r.value ==> !DigitRunAt(s, j)
    ensures r.None? ==> forall j :: from <= j ==> !DigitRunAt(s, j)
    decreases |s| - from
  {
    if from + 4 > |s| then None
    else if AllDigits(s[from..from + 4]) then Some(from)
    else FourDigitsFrom(s, from + 1)
  }

  /** The sort key `extract_year`: 0 for "", "N/A" or no four-digit run, else the value of the first run. */
  function YearKey(year: string): (r: nat)
    ensures r <= 9999
    ensures r != 0 ==> exists i :: DigitRunAt(year, i) && r == DecimalValue(year[i..i + 4])
  {
    if year == "" || year == "N/A" then 0
    else match FourDigitsFrom(year, 0)
      case None => 0
      case Some(i) =>
        FourDigitBound(year[i..i + 4]);
        assert DigitRunAt(year, i);
        DecimalValue(year[i..i + 4])
  }

  lemma FourDigitBound(s: string)
    requires |s| == 4 && AllDigits(s)
    ensures DecimalValue(s) <= 9999
  {
    FourDigitValue(s);
  }

  /** Four digits read as thousands, hundreds, tens and units. */
  lemma FourDigitValue(s: string)
    requires |s| == 4 && AllDigits(s)
    ensures DecimalValue(s) == 1000 * DigitValue(s[0]) + 100 * DigitValue(s[1]) + 10 * DigitValue(s[2]) + DigitValue(s[3])
  {
    var a := s[..3];
    var b := a[..2];
    var c := b[..1];
    assert c[..0] == [];
    assert DecimalValue(c) == DigitValue(s[0]);
    assert DecimalValue(b) == 10 * DigitValue(s[0]) + DigitValue(s[1]);
    assert DecimalValue(a) == 100 * DigitValue(s[0]) + 10 * DigitValue(s[1]) + DigitValue(s[2]);
  }

  /** The key is the value of the leftmost four-digit run. */
  lemma YearKeyLeftmost(year: string, i: nat)
    requires DigitRunAt(year, i)
    requires forall j :: 0 <= j < i ==> !DigitRunAt(year, j)
    ensures YearKey(year) == DecimalValue(year[i..i + 4])
  {
    var r := FourDigitsFrom(year, 0);
    assert r.Some? && r.value == i;
  }

  /** A year with no four-digit run sorts as 0. */
  lemma YearKeyNone(year: string)
    requires forall j :: 0 <= j ==> !DigitRunAt(year, j)
    ensures YearKey(year) == 0
  {
  }

  lemma YearKeyPlain()
    ensures YearKey("2021") == 2021
  {
    var s := "2021";
    YearKeyLeftmost(s, 0);
    assert s[0..4] == s;
    FourDigitValue(s);
  }

  /** The first run wins: "c. 1998-2001" sorts as 1998. */
  lemma YearKeyFirstRun()
    ensures YearKey("c. 1998-2001") == 1998
  {
    var s := "c. 1998-2001";
    assert !DigitRunAt(s, 0) by { assert s[0..4][0] == s[0] == 'c'; }
    assert !DigitRunAt(s, 1) by { assert s[1..5][0] == s[1] == '.'; }
    assert !DigitRunAt(s, 2) by { assert s[2..6][0] == s[2] == ' '; }
    assert s[3..7] == "1998";
    YearKeyLeftmost(s, 3);
    FourDigitValue(s[3..7]);
  }

  lemma YearKeyMissing()
    ensures YearKey("N/A") == 0 && YearKey("") == 0 && YearKey("98") == 0
  {
  }

  /** `a` must come strictly before `b`: a larger key when descending, a smaller one when ascending. */
  predicate Before(key: Book -> nat, a: Book, b: Book, descending: bool) {
    if descending then key(a) > key(b) else key(a) < key(b)
  }

  /** Keys in order: non-increasing when descending, non-decreasing otherwise. */
  predicate SortedBy(s: seq<Book>, key: Book -> nat, descending: bool) {
    forall i, j :: 0 <= i < j < |s| ==> !Before(key, s[j], s[i], descending)
  }

  /** Place `x` after every book that must come before it and before all the others. */
  function InsertBy(x: Book, s: seq<Book>, key: Book -> nat, descending: bool): seq<Book> {
    if s == [] || !Before(key, s[0], x, descending) then [x] + s
    else [s[0]] + InsertBy(x, s[1..], key, descending)
  }

  /** Python's stable `sorted(s, key=key, reverse=descending)`, as an insertion sort. */
  function SortBy(s: seq<Book>, key: Book -> nat, descending: bool): seq<Book> {
    if s == [] then [] else InsertBy(s[0], SortBy(s[1..], key, descending), key, descending)
  }

  lemma {:induction false} InsertByPerm(x: Book, s: seq<Book>, key: Book -> nat, descending: bool)
    ensures multiset(InsertBy(x, s, key, descending)) == multiset(s) + multiset{x}
  {
    if s != [] && Before(key, s[0], x, descending) {
      InsertByPerm(x, s[1..], key, descending);
      assert s == [s[0]] + s[1..];
    }
  }

  lemma {:induction false} InsertByMembers(x: Book, s: seq<Book>, key: Book -> nat, descending: bool, y: Book)
    requires y in InsertBy(x, s, key, descending)
    ensures y == x || y in s
  {
    InsertByPerm(x, s, key, descending);
    assert y in multiset(InsertBy(x, s, key, descending));
  }

  lemma {:induction false} InsertBySorted(x: Book, s: seq<Book>, key: Book -> nat, descending: bool)
    requires SortedBy(s, key, descending)
    ensures SortedBy(InsertBy(x, s, key, descending), key, descending)
  {
    var r := InsertBy(x, s, key, descending);
    if s == [] || !Before(key, s[0], x, descending) {
      assert r == [x] + s;
      forall j | 0 < j < |r| ensures !Before(key, r[j], r[0], descending) {
        assert r[j] == s[j - 1];
        if j > 1 {
          assert !Before(key, s[j - 1], s[0], descending);
        }
      }
    } else {
      var rest := InsertBy(x, s[1..], key, descending);
      InsertBySorted(x, s[1..], key, descending);
      assert r == [s[0]] + rest;
      forall j | 0 <= j < |rest| ensures !Before(key, rest[j], s[0], descending) {
        InsertByMembers(x, s[1..], key, descending, rest[j]);
        if rest[j] != x {
          var k :| 0 <= k < |s[1..]| && s[1..][k] == rest[j];
          assert s[k + 1] == rest[j];
        }
      }
      assert forall j :: 0 < j < |r| ==> r[j] == rest[j - 1];
    }
  }

  /** Sorting yields a permutation of its input, ordered by the key. */
  lemma {:induction false} SortByLaws(s: seq<Book>, key: Book -> nat, descending: bool)
    ensures multiset(SortBy(s, key, descending)) == multiset(s)
    ensures SortedBy(SortBy(s, key, descending), key, descending)
  {
    if s != [] {
      SortByLaws(s[1..], key, descending);
      InsertByPerm(s[0], SortBy(s[1..], key, descending), key, descending);
      InsertBySorted(s[0], SortBy(s[1..], key, descending), key, descending);
      assert s == [s[0]] + s[1..];
    }
  }

  function HasKey(key: Book -> nat, k: nat): Book -> bool {
    (b: Book) => key(b) == k
  }

  lemma {:induction false} InsertByStable(x: Book, s: seq<Book>, key: Book -> nat, descending: bool, k: nat)
    ensures Filter(InsertBy(x, s, key, descending), HasKey(key, k)) ==
      (if key(x) == k then [x] else []) + Filter(s, HasKey(key, k))
  {
    if s == [] || !Before(key, s[0], x, descending) {
      assert InsertBy(x, s, key, descending) == [x] + s;
      FilterConcat([x], s, HasKey(key, k));
    } else {
      InsertByStable(x, s[1..], key, descending, k);
      assert InsertBy(x, s, key, descending) == [s[0]] + InsertBy(x, s[1..], key, descending);
      assert key(s[0]) != key(x);
    }
  }

  /** Stability: books with equal keys keep their original relative order. */
  lemma {:induction false} SortByStable(s: seq<Book>, key: Book -> nat, descending: bool, k: nat)
    ensures Filter(SortBy(s, key, descending), HasKey(key, k)) == Filter(s, HasKey(key, k))
  {
    if s != [] {
      SortByStable(s[1..], key, descending, k);
      InsertByStable(s[0], SortBy(s[1..], key, descending), key, descending, k);
    }
  }

  function YearKeyOf(b: Book): nat {
    YearKey(b.year)
  }

  /** `sort_books_by_year`: a permutation of the books, ordered by year key, ties in input order. */
  function SortByYear(books: seq<Book>, descending: bool): (r: seq<Book>)
    ensures multiset(r) == multiset(books)
    ensures SortedBy(r, YearKeyOf, descending)
    ensures forall k: nat :: Filter(r, HasKey(YearKeyOf, k)) == Filter(books, HasKey(YearKeyOf, k))
  {
    SortByLaws(books, YearKeyOf, descending);
    forall k: nat ensures Filter(SortBy(books, YearKeyOf, descending), HasKey(YearKeyOf, k)) == Filter(books, HasKey(YearKeyOf, k)) {
      SortByStable(books, YearKeyOf, descending, k);
    }
    SortBy(books, YearKeyOf, descending)
  }

  // ===================== duplicate detection in load_search_requests =====================

  /** The identity `f"{title}|{author}|{publisher}"`. */
  function RequestKey(req: SearchRequest): string {
    req.title + "|" + req.author + "|" + req.publisher
  }

  /** A later request with an already seen key, with its own and its first occurrence's 1-based index. */
  datatype Duplicate = Duplicate(index: nat, firstIndex: nat, title: string, author: string, publisher: string)

  /** The 1-based index of the first request with `key`. */
  function FirstIndexOf(reqs: seq<SearchRequest>, key: string): (r: Option<nat>)
    ensures r.Some? ==> 1 <= r.value <= |reqs| && RequestKey(reqs[r.value - 1]) == key
    ensures r.Some? ==> forall j :: 0 <= j < r.value - 1 ==> RequestKey(reqs[j]) != key
    ensures r.None? ==> forall j :: 0 <= j < |reqs| ==> RequestKey(reqs[j]) != key
  {
    if reqs == [] then None
    else
      var prefix := reqs[..|reqs| - 1];
      var p := FirstIndexOf(prefix, key);
      if p.Some? then p
      else if RequestKey(reqs[|reqs| - 1]) == key then Some(|reqs|)
      else None
  }

  /** The duplicate report for `reqs`, in input order. */
  function DuplicatesOf(reqs: seq<SearchRequest>): seq<Duplicate> {
    if reqs == [] then []
    else
      var prefix := reqs[..|reqs| - 1];
      var last := reqs[|reqs| - 1];
      DuplicatesOf(prefix) +
      match FirstIndexOf(prefix, RequestKey(last))
      case Some(first) => [Duplicate(|reqs|, first, last.title, last.author, last.publisher)]
      case None => []
  }

  /**
   * The duplicate detection of `load_search_requests` over the decoded JSON array: the array is
   * returned unchanged and each repeated key is reported with its first occurrence.
   */
  method LoadSearchRequests(requests: seq<SearchRequest>) returns (loaded: seq<SearchRequest>, duplicates: seq<Duplicate>)
    ensures loaded == requests
    ensures duplicates == DuplicatesOf(requests)
  {
    var seen: map<string, nat> := map[];
    duplicates := [];
    var idx := 0;
    while idx < |requests|
      invariant 0 <= idx <= |requests|
      invariant forall k :: FirstIndexOf(requests[..idx], k) == if k in seen then Some(seen[k]) else None
      invariant duplicates == DuplicatesOf(requests[..idx])
    {
      seen, duplicates := NoteRequest(requests, idx, seen, duplicates);
      idx := idx + 1;
    }
    assert requests[..|requests|] == requests;
    loaded := requests;
  }

  /** One pass of the loading loop: report the request if its key was seen, else remember where it first occurs. */
  method NoteRequest(requests: seq<SearchRequest>, idx: nat, seen: map<string, nat>, duplicates: seq<Duplicate>)
    returns (seen': map<string, nat>, duplicates': seq<Duplicate>)
    requires idx < |requests|
    requires forall k :: FirstIndexOf(requests[..idx], k) == if k in seen then Some(seen[k]) else None
    requires duplicates == DuplicatesOf(requests[..idx])
    ensures forall k :: FirstIndexOf(requests[..idx + 1], k) == if k in seen' then Some(seen'[k]) else None
    ensures duplicates' == DuplicatesOf(requests[..idx + 1])
  {
    var req := requests[idx];
    var key := RequestKey(req);
    PrefixStep(requests, idx);
    seen', duplicates' := seen, duplicates;
    if key in seen {
      duplicates' := duplicates + [Duplicate(idx + 1, seen[key], req.title, req.author, req.publisher)];
    } else {
      seen' := seen[key := idx + 1];
    }
  }

  /** How the first occurrences and the duplicate report grow by one request. */
  lemma PrefixStep(reqs: seq<SearchRequest>, i: nat)
    requires i < |reqs|
    ensures forall k ::
              FirstIndexOf(reqs[..i + 1], k) ==
              (if FirstIndexOf(reqs[..i], k).Some? then FirstIndexOf(reqs[..i], k)
               else if RequestKey(reqs[i]) == k then Some(i + 1) else None)
    ensures DuplicatesOf(reqs[..i + 1]) == DuplicatesOf(reqs[..i]) +
      match FirstIndexOf(reqs[..i], RequestKey(reqs[i]))
      case Some(first) => [Duplicate(i + 1, first, reqs[i].title, reqs[i].author, reqs[i].publisher)]
      case None => []
  {
    assert reqs[..i + 1][..i] == reqs[..i];
  }

  /** Every reported duplicate names a later request whose key first occurred at `firstIndex`. */
  lemma {:induction false} DuplicatesSound(reqs: seq<SearchRequest>, d: Duplicate)
    requires d in DuplicatesOf(reqs)
    ensures 1 <= d.firstIndex < d.index <= |reqs|
    ensures RequestKey(reqs[d.index - 1]) == RequestKey(reqs[d.firstIndex - 1])
    ensures FirstIndexOf(reqs, RequestKey(reqs[d.index - 1])) == Some(d.firstIndex)
    ensures d.title == reqs[d.index - 1].title && d.author == reqs[d.index - 1].author
      && d.publisher == reqs[d.index - 1].publisher
  {
    var prefix := reqs[..|reqs| - 1];
    var last := reqs[|reqs| - 1];
    if d in DuplicatesOf(prefix) {
      DuplicatesSound(prefix, d);
      FirstIndexPrefix(reqs, RequestKey(reqs[d.index - 1]));
    } else {
      FirstIndexPrefix(reqs, RequestKey(last));
    }
  }

  lemma FirstIndexPrefix(reqs: seq<SearchRequest>, key: string)
    requires reqs != []
    requires FirstIndexOf(reqs[..|reqs| - 1], key).Some?
    ensures FirstIndexOf(reqs, key) == FirstIndexOf(reqs[..|reqs| - 1], key)
  {
  }

  /** A request is reported exactly when its key already occurred earlier. */
  lemma {:induction false} DuplicatesComplete(reqs: seq<SearchRequest>, i: nat)
    requires i < |reqs|
    ensures (exists d :: d in DuplicatesOf(reqs) && d.index == i + 1) <==>
      FirstIndexOf(reqs[..i], RequestKey(reqs[i])).Some?
  {
    var prefix := reqs[..|reqs| - 1];
    if i < |reqs| - 1 {
      assert prefix[..i] == reqs[..i] && prefix[i] == reqs[i];
      DuplicatesComplete(prefix, i);
    } else {
      assert reqs[..i] == prefix;
      forall d | d in DuplicatesOf(prefix) ensures d.index <= |prefix| {
        DuplicatesSound(prefix, d);
      }
    }
  }

  // ===================== the version block of save_results_to_file =====================

  /** `format_file_size`: "N/A" for a missing size. */
  function FormatFileSize(size: string): string {
    if size == "" then "N/A" else size
  }

  /** `value or 'N/A'`. */
  function OrNA(s: string): string {
    if s == "" then "N/A" else s
  }

  /** The header line of the `index`-th version: two spaces, then `【版本 <index>】`. */
  function HeaderText(index: nat): string {
    "  " + VersionLabel(index)
  }

  /** The header's text after its indent: `【版本 {idx}】`. */
  function VersionLabel(index: nat): string {
    "【版本 " + NatToString(index) + "】"
  }

  /** The labels and values of the nine field lines of a version block, in the order they are written. */
  function BlockFields(b: Book): seq<(string, string)> {
    [ ("书名:", b.title), ("作者:", OrNA(b.author)), ("出版社:", OrNA(b.publisher)),
      ("年份:", OrNA(b.year)), ("语言:", OrNA(b.language)), ("页数:", OrNA(b.pages)),
      ("文件大小:", FormatFileSize(b.fileSize)), ("ID:", b.id), ("Hash:", b.hash) ]
  }

  /** A field line of a version block: four spaces, the label, one space, the value. */
  function FieldText(field: (string, string)): string {
    "    " + field.0 + " " + field.1
  }

  /** The ten lines (without their '\n') written for the `index`-th version of a found book. */
  function VersionBlock(index: nat, b: Book): (r: seq<string>)
    ensures |r| == 10
  {
    [HeaderText(index)] + Map(FieldText, BlockFields(b))
  }

  /** The version blocks for `books`, numbered from `first` (the report numbers from 1). */
  function VersionBlocks(books: seq<Book>, first: nat): seq<string> {
    if books == [] then [] else VersionBlock(first, books[0]) + VersionBlocks(books[1..], first + 1)
  }
}
