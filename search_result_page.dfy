/** The search results page: the query read back from the location, and the stable,
    case-insensitive substring filter over the fixed list of subjects. */
module SearchResultPage {
  import opened Wrappers
  import opened Text
  import SearchParams
  import UriComponent
  import Hero

  /** A subject the page can list. */
  datatype Subject = Subject(title: string, description: string)

  /** The fixed data set the page searches, in the order it lists matches. */
  const DummySubjects: seq<Subject> := [
    Subject("한국사", "조선시대부터 현대사까지 체계적인 한국사 학습"),
    Subject("국어", "문법, 독해, 작문까지 국어 실력 향상"),
    Subject("수학", "기초부터 심화까지 단계별 수학 학습 코칭"),
    Subject("영어", "회화, 문법, 독해 등 영어 실력 완성"),
    Subject("코딩", "프론트엔드부터 백엔드까지 실무형 코딩 학습")
  ]

  /** The message shown instead of a list when nothing matches. */
  const NoResultsMessage := "검색 결과가 없습니다."

  /** `useQuery().get("query") || ""`: the value of the first `query` parameter of the
      location's search string. A missing parameter and an empty one both give "". */
  function QueryOf(search: string): (q: string)
    ensures var params := SearchParams.Parse(search);
      (forall k :: 0 <= k < |params| ==> params[k].name != "query") ==> q == ""
    ensures var params := SearchParams.Parse(search);
      q != "" ==> exists k :: 0 <= k < |params| && params[k] == SearchParams.Param("query", q)
    ensures var params := SearchParams.Parse(search);
      forall k :: SearchParams.IsFirstNamed(params, "query", k) ==> q == params[k].value
  {
    var params := SearchParams.Parse(search);
    assert forall k :: SearchParams.IsFirstNamed(params, "query", k) ==>
      SearchParams.Get(params, "query") == Some(params[k].value)
    by {
      forall k | SearchParams.IsFirstNamed(params, "query", k)
        ensures SearchParams.Get(params, "query") == Some(params[k].value)
      {
        SearchParams.GetFirst(params, "query", k);
      }
    }
    SearchParams.Get(params, "query").GetOr("")
  }

  /** The filter's test: the lower-cased query occurs in the lower-cased title or in the
      lower-cased description. */
  predicate Matches(subject: Subject, query: string)
    ensures query == "" ==> Matches(subject, query)
    ensures Matches(subject, query) ==> |query| <= |subject.title| || |query| <= |subject.description|
  {
    Includes(Lower(subject.title), Lower(query)) || Includes(Lower(subject.description), Lower(query))
  }

  /** `subjects.filter(...)`: the subjects that match the query, in their original order. */
  function FilterSubjects(query: string, subjects: seq<Subject>): (result: seq<Subject>)
    ensures |result| <= |subjects|
    ensures forall k :: 0 <= k < |result| ==> result[k] in subjects && Matches(result[k], query)
  {
    if subjects == [] then []
    else (if Matches(subjects[0], query) then [subjects[0]] else []) + FilterSubjects(query, subjects[1..])
  }

  /** `a` is `b` with some elements left out, the rest kept in order. */
  ghost predicate IsSubsequence<T>(a: seq<T>, b: seq<T>)
    decreases |b|
  {
    a == [] || (b != [] && ((a[0] == b[0] && IsSubsequence(a[1..], b[1..])) || IsSubsequence(a, b[1..])))
  }

  /** The filter keeps the original order: its result is a subsequence of its input. */
  lemma {:induction false} FilterIsSubsequence(query: string, subjects: seq<Subject>)
    ensures IsSubsequence(FilterSubjects(query, subjects), subjects)
  {
    if subjects != [] {
      var rest := FilterSubjects(query, subjects[1..]);
      FilterIsSubsequence(query, subjects[1..]);
      if Matches(subjects[0], query) {
        assert FilterSubjects(query, subjects) == [subjects[0]] + rest;
        assert ([subjects[0]] + rest)[1..] == rest;
      } else {
        assert FilterSubjects(query, subjects) == rest;
      }
    }
  }

  /** A subject is in the result exactly when it is in the input and matches the query. */
  lemma {:induction false} FilterMembership(query: string, subjects: seq<Subject>, s: Subject)
    ensures s in FilterSubjects(query, subjects) <==> s in subjects && Matches(s, query)
  {
    if subjects != [] {
      FilterMembership(query, subjects[1..], s);
      assert subjects == [subjects[0]] + subjects[1..];
    }
  }

  /** Every matching subject is kept as often as it occurs, every other one is dropped. */
  lemma {:induction false} FilterCount(query: string, subjects: seq<Subject>, s: Subject)
    ensures multiset(FilterSubjects(query, subjects))[s] == if Matches(s, query) then multiset(subjects)[s] else 0
  {
    if subjects != [] {
      var x := subjects[0];
      var rest := FilterSubjects(query, subjects[1..]);
      FilterCount(query, subjects[1..], s);
      assert subjects == [x] + subjects[1..];
      CountOfCons(x, subjects[1..], s);
      if Matches(x, query) {
        assert FilterSubjects(query, subjects) == [x] + rest;
        CountOfCons(x, rest, s);
      } else {
        assert FilterSubjects(query, subjects) == [] + rest;
        assert [] + rest == rest;
      }
    }
  }

  /** How often `s` occurs in a sequence that starts with `x`. */
  lemma CountOfCons<T>(x: T, xs: seq<T>, s: T)
    ensures multiset([x] + xs)[s] == (if x == s then 1 else 0) + multiset(xs)[s]
  {
    assert multiset([x] + xs) == multiset([x]) + multiset(xs);
  }

  /** When every subject matches, the filter returns its input unchanged. */
  lemma {:induction false} FilterKeepsAll(query: string, subjects: seq<Subject>)
    requires forall k :: 0 <= k < |subjects| ==> Matches(subjects[k], query)
    ensures FilterSubjects(query, subjects) == subjects
  {
    if subjects != [] {
      FilterKeepsAll(query, subjects[1..]);
    }
  }

  /** The empty query matches every subject, so it lists the whole data set in order. */
  lemma EmptyQueryKeepsAll(subjects: seq<Subject>)
    ensures FilterSubjects("", subjects) == subjects
  {
    forall k | 0 <= k < |subjects| ensures Matches(subjects[k], "") {
      assert Lower("") == "";
      assert "" <= Lower(subjects[k].title);
    }
    FilterKeepsAll("", subjects);
  }

  /** Searching is case-insensitive: a query and its lower case find the same subjects. */
  lemma {:induction false} FilterIgnoresQueryCase(query: string, subjects: seq<Subject>)
    ensures FilterSubjects(query, subjects) == FilterSubjects(Lower(query), subjects)
  {
    LowerIsIdempotent(query);
    if subjects != [] {
      FilterIgnoresQueryCase(query, subjects[1..]);
    }
  }

  /** What the page shows below its heading. */
  datatype Body = Listing(items: seq<Subject>) | NoResults(message: string)

  datatype ResultPage = ResultPage(query: string, body: Body)

  /** The page for a location's search string: the query it read, and either the list of
      matching subjects or, when there are none, the no-results message. */
  function ResultsPage(search: string): (page: ResultPage)
    ensures page.query == QueryOf(search)
    ensures page.body.Listing? ==> page.body.items != [] && page.body.items == FilterSubjects(page.query, DummySubjects)
    ensures page.body.NoResults? <==> FilterSubjects(page.query, DummySubjects) == []
    ensures page.body.NoResults? ==> page.body.message == NoResultsMessage
  {
    var query := QueryOf(search);
    var result := FilterSubjects(query, DummySubjects);
    ResultPage(query, if |result| > 0 then Listing(result) else NoResults(NoResultsMessage))
  }

  /** A location whose `query` parameter is missing or empty searches for "" and so lists
      every subject. */
  lemma MissingQueryListsAll(search: string)
    requires SearchParams.Get(SearchParams.Parse(search), "query").None?
          || SearchParams.Get(SearchParams.Parse(search), "query") == Some("")
    ensures ResultsPage(search) == ResultPage("", Listing(DummySubjects))
  {
    EmptyQueryKeepsAll(DummySubjects);
  }

  /** A location with no search string lists every subject. */
  lemma NoSearchListsAll()
    ensures ResultsPage("") == ResultPage("", Listing(DummySubjects))
  {
    MissingQueryListsAll("");
  }

  /** A location whose only parameter has another name lists every subject. */
  lemma OtherParameterListsAll(name: string, value: string)
    requires name != "" && name != "query" && SearchParams.IsPlainName(name)
    ensures ResultsPage("?" + (name + "=" + UriComponent.Encode(value))) == ResultPage("", Listing(DummySubjects))
  {
    SearchParams.ParseEncodedParam(name, value);
    MissingQueryListsAll("?" + (name + "=" + UriComponent.Encode(value)));
  }

  /** A location whose `query` parameter is present but empty lists every subject. */
  lemma EmptyQueryParameterListsAll()
    ensures ResultsPage("?" + ("query" + "=" + UriComponent.Encode(""))) == ResultPage("", Listing(DummySubjects))
  {
    QueryNameIsPlain();
    SearchParams.ParseEncodedParam("query", "");
    SearchParams.GetOnly("query", "");
    MissingQueryListsAll("?" + ("query" + "=" + UriComponent.Encode("")));
  }

  /** The hero section's search path prefix is the results page's path, one `?`, and the
      start of the `query` parameter. */
  lemma SearchPathParts()
    ensures Hero.SearchPath == "/search" + "?" + ("query" + "=")
  {
  }

  /** The search path of the hero section is `/search`, one `?` and the `query` parameter,
      which holds no fragment. */
  lemma SearchHrefParts(fullText: string)
    ensures var param := "query" + "=" + UriComponent.Encode(fullText);
      Hero.SearchHref(fullText) == "/search" + "?" + param && '#' !in param
  {
    var encoded := UriComponent.Encode(fullText);
    var param := "query" + "=" + encoded;
    SearchPathParts();
    assert Hero.SearchHref(fullText) == "/search" + "?" + param;
    forall k | 0 <= k < |param| ensures param[k] != '#' {
      if k >= 6 {
        assert param[k] == encoded[k - 6];
      }
    }
  }

  /** The path of the results page has no query and no fragment of its own. */
  lemma ResultsPathIsBare()
    ensures '?' !in "/search" && '#' !in "/search"
  {
  }

  /** The parameter name `query` reads back as itself. */
  lemma QueryNameIsPlain()
    ensures SearchParams.IsPlainName("query")
  {
  }

  /** The hero section's search path carries its query text to the results page unchanged. */
  lemma SearchHrefRoundTrip(fullText: string)
    ensures QueryOf(SearchParams.SearchOf(Hero.SearchHref(fullText))) == fullText
  {
    var param := "query" + "=" + UriComponent.Encode(fullText);
    SearchHrefParts(fullText);
    ResultsPathIsBare();
    SearchParams.SearchOfQueryPath("/search", param);
    QueryNameIsPlain();
    SearchParams.ParseEncodedParam("query", fullText);
    SearchParams.GetOnly("query", fullText);
  }

  /** A search with something to send navigates exactly once, and the results page reads
      back exactly the trimmed, space-joined query the hero section composed. */
  lemma ComposedQueryReachesPage(base: string, fileText: string)
    ensures var q := Hero.QueryText(base, fileText);
      q != "" ==> |Hero.Navigation(q)| == 1 && QueryOf(SearchParams.SearchOf(Hero.Navigation(q)[0])) == q
  {
    SearchHrefRoundTrip(Hero.QueryText(base, fileText));
  }

  /** A string without ASCII capitals, which lower-casing leaves as it is. */
  predicate IsCaseless(s: string) {
    forall k :: 0 <= k < |s| ==> !('A' <= s[k] <= 'Z')
  }

  predicate IsCaselessSubject(subject: Subject) {
    IsCaseless(subject.title) && IsCaseless(subject.description)
  }

  /** Strings without ASCII capitals are their own lower case. */
  lemma LowerOfCaseless(s: string)
    requires IsCaseless(s)
    ensures Lower(s) == s
  {
  }

  /** A query with a code point that neither the title nor the description holds does not
      match, when lower-casing changes none of them. */
  lemma MissingCharDoesNotMatch(subject: Subject, query: string, c: char)
    requires IsCaselessSubject(subject) && IsCaseless(query)
    requires c in query && c !in subject.title && c !in subject.description
    ensures !Matches(subject, query)
  {
    LowerOfCaseless(subject.title);
    LowerOfCaseless(subject.description);
    LowerOfCaseless(query);
    MissingCharExcludes(subject.title, query, c);
    MissingCharExcludes(subject.description, query, c);
  }

  // No subject of the data set holds an ASCII capital.
  lemma Caseless0() ensures IsCaselessSubject(DummySubjects[0]) { }
  lemma Caseless1() ensures IsCaselessSubject(DummySubjects[1]) { }
  lemma Caseless2() ensures IsCaselessSubject(DummySubjects[2]) { }
  lemma Caseless3() ensures IsCaselessSubject(DummySubjects[3]) { }
  lemma Caseless4() ensures IsCaselessSubject(DummySubjects[4]) { }

  /** A subject whose description holds the query at index `i` matches it. */
  lemma MatchesAt(subject: Subject, query: string, i: nat)
    requires OccursAt(subject.description, query, i)
    ensures Matches(subject, query)
  {
    LowerOccursAt(subject.description, query, i);
    IncludesIff(Lower(subject.description), Lower(query));
  }

  /** The elements of `s` whose flag in `keep` is set, in order. */
  function Select<T>(s: seq<T>, keep: seq<bool>): seq<T>
    requires |keep| == |s|
  {
    if s == [] then [] else (if keep[0] then [s[0]] else []) + Select(s[1..], keep[1..])
  }

  /** The first `n` flags of `keep` say which of the first `n` subjects match the query. */
  ghost predicate FlagsUpTo(query: string, subjects: seq<Subject>, keep: seq<bool>, n: nat) {
    n <= |subjects| && n <= |keep| && forall k :: 0 <= k < n ==> keep[k] == Matches(subjects[k], query)
  }

  lemma ExtendFlags(query: string, subjects: seq<Subject>, keep: seq<bool>, n: nat)
    requires FlagsUpTo(query, subjects, keep, n)
    requires n < |subjects| && n < |keep| && keep[n] == Matches(subjects[n], query)
    ensures FlagsUpTo(query, subjects, keep, n + 1)
  {
  }

  /** The filter is the selection by each subject's match flag. */
  lemma {:induction false} FilterBySelect(query: string, subjects: seq<Subject>, keep: seq<bool>)
    requires |keep| == |subjects| && FlagsUpTo(query, subjects, keep, |subjects|)
    ensures FilterSubjects(query, subjects) == Select(subjects, keep)
  {
    if subjects != [] {
      FilterBySelect(query, subjects[1..], keep[1..]);
    }
  }

  /** Only the last of five elements selected. */
  lemma SelectLast<T>(s: seq<T>)
    requires |s| == 5
    ensures Select(s, [false, false, false, false, true]) == [s[4]]
  {
    assert s[4..][1..] == [];
    assert Select(s[4..], [true]) == [s[4]];
    assert s[3..][1..] == s[4..];
    assert Select(s[3..], [false, true]) == [s[4]];
    assert s[2..][1..] == s[3..];
    assert Select(s[2..], [false, false, true]) == [s[4]];
    assert s[1..][1..] == s[2..];
    assert Select(s[1..], [false, false, false, true]) == [s[4]];
  }

  /** Every other element of five, from the first. */
  lemma SelectAlternate<T>(s: seq<T>)
    requires |s| == 5
    ensures Select(s, [true, false, true, false, true]) == [s[0], s[2], s[4]]
  {
    assert s[4..][1..] == [];
    assert Select(s[4..], [true]) == [s[4]];
    assert s[3..][1..] == s[4..];
    assert Select(s[3..], [false, true]) == [s[4]];
    assert s[2..][1..] == s[3..];
    assert Select(s[2..], [true, false, true]) == [s[2], s[4]];
    assert s[1..][1..] == s[2..];
    assert Select(s[1..], [false, true, false, true]) == [s[2], s[4]];
    assert Select(s, [true, false, true, false, true]) == [s[0]] + [s[2], s[4]];
  }

  /** No element of five selected. */
  lemma SelectNone<T>(s: seq<T>)
    requires |s| == 5
    ensures Select(s, [false, false, false, false, false]) == []
  {
    assert s[4..][1..] == [];
    assert Select(s[4..], [false]) == [];
    assert s[3..][1..] == s[4..];
    assert Select(s[3..], [false, false]) == [];
    assert s[2..][1..] == s[3..];
    assert Select(s[2..], [false, false, false]) == [];
    assert s[1..][1..] == s[2..];
    assert Select(s[1..], [false, false, false, false]) == [];
  }

  // The scenarios below gather one match fact per subject, each in a lemma of its own, so
  // that no proof has to consider more than one subject of the data set at a time.

  lemma CodingSkips0() ensures !Matches(DummySubjects[0], "코딩")
  {
    Caseless0();
    MissingCharDoesNotMatch(DummySubjects[0], "코딩", '딩');
  }
  lemma CodingSkips1() ensures !Matches(DummySubjects[1], "코딩")
  {
    Caseless1();
    MissingCharDoesNotMatch(DummySubjects[1], "코딩", '딩');
  }
  lemma CodingSkips2() ensures !Matches(DummySubjects[2], "코딩")
  {
    Caseless2();
    MissingCharDoesNotMatch(DummySubjects[2], "코딩", '딩');
  }
  lemma CodingSkips3() ensures !Matches(DummySubjects[3], "코딩")
  {
    Caseless3();
    MissingCharDoesNotMatch(DummySubjects[3], "코딩", '딩');
  }
  lemma CodingFinds4() ensures Matches(DummySubjects[4], "코딩")
  {
    MatchesAt(DummySubjects[4], "코딩", 18);
  }

  lemma CodingFlags1() ensures FlagsUpTo("코딩", DummySubjects, [false, false, false, false, true], 1)
  {
    CodingSkips0();
    ExtendFlags("코딩", DummySubjects, [false, false, false, false, true], 0);
  }

  lemma CodingFlags2() ensures FlagsUpTo("코딩", DummySubjects, [false, false, false, false, true], 2)
  {
    CodingFlags1(); CodingSkips1();
    ExtendFlags("코딩", DummySubjects, [false, false, false, false, true], 1);
  }

  lemma CodingFlags3() ensures FlagsUpTo("코딩", DummySubjects, [false, false, false, false, true], 3)
  {
    CodingFlags2(); CodingSkips2();
    ExtendFlags("코딩", DummySubjects, [false, false, false, false, true], 2);
  }

  lemma CodingFlags4() ensures FlagsUpTo("코딩", DummySubjects, [false, false, false, false, true], 4)
  {
    CodingFlags3(); CodingSkips3();
    ExtendFlags("코딩", DummySubjects, [false, false, false, false, true], 3);
  }

  lemma CodingFlags5() ensures FlagsUpTo("코딩", DummySubjects, [false, false, false, false, true], 5)
  {
    CodingFlags4(); CodingFinds4();
    ExtendFlags("코딩", DummySubjects, [false, false, false, false, true], 4);
  }

  /** "코딩" finds only the subject 코딩. */
  lemma CodingScenario()
    ensures FilterSubjects("코딩", DummySubjects) == [DummySubjects[4]]
  {
    CodingFlags5();
    FilterBySelect("코딩", DummySubjects, [false, false, false, false, true]);
    SelectLast(DummySubjects);
  }

  lemma StudyFinds0() ensures Matches(DummySubjects[0], "학습")
  {
    MatchesAt(DummySubjects[0], "학습", 22);
  }
  lemma StudySkips1() ensures !Matches(DummySubjects[1], "학습")
  {
    Caseless1();
    MissingCharDoesNotMatch(DummySubjects[1], "학습", '습');
  }
  lemma StudyFinds2() ensures Matches(DummySubjects[2], "학습")
  {
    MatchesAt(DummySubjects[2], "학습", 17);
  }
  lemma StudySkips3() ensures !Matches(DummySubjects[3], "학습")
  {
    Caseless3();
    MissingCharDoesNotMatch(DummySubjects[3], "학습", '습');
  }
  lemma StudyFinds4() ensures Matches(DummySubjects[4], "학습")
  {
    MatchesAt(DummySubjects[4], "학습", 21);
  }

  lemma StudyFlags1() ensures FlagsUpTo("학습", DummySubjects, [true, false, true, false, true], 1)
  {
    StudyFinds0();
    ExtendFlags("학습", DummySubjects, [true, false, true, false, true], 0);
  }

  lemma StudyFlags2() ensures FlagsUpTo("학습", DummySubjects, [true, false, true, false, true], 2)
  {
    StudyFlags1(); StudySkips1();
    ExtendFlags("학습", DummySubjects, [true, false, true, false, true], 1);
  }

  lemma StudyFlags3() ensures FlagsUpTo("학습", DummySubjects, [true, false, true, false, true], 3)
  {
    StudyFlags2(); StudyFinds2();
    ExtendFlags("학습", DummySubjects, [true, false, true, false, true], 2);
  }

  lemma StudyFlags4() ensures FlagsUpTo("학습", DummySubjects, [true, false, true, false, true], 4)
  {
    StudyFlags3(); StudySkips3();
    ExtendFlags("학습", DummySubjects, [true, false, true, false, true], 3);
  }

  lemma StudyFlags5() ensures FlagsUpTo("학습", DummySubjects, [true, false, true, false, true], 5)
  {
    StudyFlags4(); StudyFinds4();
    ExtendFlags("학습", DummySubjects, [true, false, true, false, true], 4);
  }

  /** "학습" finds the three subjects whose description mentions it, in list order. */
  lemma StudyScenario()
    ensures FilterSubjects("학습", DummySubjects) == [DummySubjects[0], DummySubjects[2], DummySubjects[4]]
  {
    StudyFlags5();
    FilterBySelect("학습", DummySubjects, [true, false, true, false, true]);
    SelectAlternate(DummySubjects);
  }

  lemma NothingSkips0() ensures !Matches(DummySubjects[0], "zzz")
  {
    Caseless0();
    MissingCharDoesNotMatch(DummySubjects[0], "zzz", 'z');
  }
  lemma NothingSkips1() ensures !Matches(DummySubjects[1], "zzz")
  {
    Caseless1();
    MissingCharDoesNotMatch(DummySubjects[1], "zzz", 'z');
  }
  lemma NothingSkips2() ensures !Matches(DummySubjects[2], "zzz")
  {
    Caseless2();
    MissingCharDoesNotMatch(DummySubjects[2], "zzz", 'z');
  }
  lemma NothingSkips3() ensures !Matches(DummySubjects[3], "zzz")
  {
    Caseless3();
    MissingCharDoesNotMatch(DummySubjects[3], "zzz", 'z');
  }
  lemma NothingSkips4() ensures !Matches(DummySubjects[4], "zzz")
  {
    Caseless4();
    MissingCharDoesNotMatch(DummySubjects[4], "zzz", 'z');
  }

  lemma NothingFlags1() ensures FlagsUpTo("zzz", DummySubjects, [false, false, false, false, false], 1)
  {
    NothingSkips0();
    ExtendFlags("zzz", DummySubjects, [false, false, false, false, false], 0);
  }

  lemma NothingFlags2() ensures FlagsUpTo("zzz", DummySubjects, [false, false, false, false, false], 2)
  {
    NothingFlags1(); NothingSkips1();
    ExtendFlags("zzz", DummySubjects, [false, false, false, false, false], 1);
  }

  lemma NothingFlags3() ensures FlagsUpTo("zzz", DummySubjects, [false, false, false, false, false], 3)
  {
    NothingFlags2(); NothingSkips2();
    ExtendFlags("zzz", DummySubjects, [false, false, false, false, false], 2);
  }

  lemma NothingFlags4() ensures FlagsUpTo("zzz", DummySubjects, [false, false, false, false, false], 4)
  {
    NothingFlags3(); NothingSkips3();
    ExtendFlags("zzz", DummySubjects, [false, false, false, false, false], 3);
  }

  lemma NothingFlags5() ensures FlagsUpTo("zzz", DummySubjects, [false, false, false, false, false], 5)
  {
    NothingFlags4(); NothingSkips4();
    ExtendFlags("zzz", DummySubjects, [false, false, false, false, false], 4);
  }

  /** A query no subject holds empties the filter. */
  lemma NothingScenario()
    ensures FilterSubjects("zzz", DummySubjects) == []
  {
    NothingFlags5();
    FilterBySelect("zzz", DummySubjects, [false, false, false, false, false]);
    SelectNone(DummySubjects);
  }

  /** Searching from the hero section for a word no subject holds lands on the page with
      the no-results message. */
  lemma NoResultsScenario()
    ensures ResultsPage(SearchParams.SearchOf(Hero.SearchHref("zzz"))) == ResultPage("zzz", NoResults(NoResultsMessage))
  {
    SearchHrefRoundTrip("zzz");
    NothingScenario();
  }

  /** Searching from the hero section for "코딩" lands on the page listing that one subject. */
  lemma CodingPageScenario()
    ensures ResultsPage(SearchParams.SearchOf(Hero.SearchHref("코딩"))) == ResultPage("코딩", Listing([DummySubjects[4]]))
  {
    SearchHrefRoundTrip("코딩");
    CodingScenario();
  }
}
