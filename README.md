# Search flow of a study-subject landing page

This project models the search flow of a small React web application in Dafny. The landing page's hero section composes a query from two sources: the keyword typed into its search box and the text of an uploaded plain-text file. It then navigates to `/search?query=<encoded query>`. The results page reads the `query` parameter back and filters a fixed list of five subjects. A subject matches when the query occurs, ignoring case, in its title or its description. A shared store holds the trending keywords that the hero section shows as one-click search buttons.

Modules:

- `Text`: models `String.prototype.trim`, `toLowerCase` and `includes`.
- `UriComponent`: models `encodeURIComponent` and the value decoding of `URLSearchParams`.
- `SearchParams`: models `location.search`, `new URLSearchParams(..)` and `.get`.
- `Hero`: the hero section. It is a class whose fields are the component's state: the keyword, the file text, the preview text and the log of navigations. Its handlers are methods.
- `SearchResultPage`: the data set, the filter and the page.
- `Store`: the trending-keyword store, a class.
- `Wrappers`: `Option`.

A React event handler reads the state of the render it was created in. The model therefore passes that snapshot to `Hero.HeroSection.Search` explicitly.

## Model

| member | source | states |
|---|---|---|
| Text.Trim | src/components/HeroSection.tsx:17 | `trim` gives a string with no white space at either end, cut out of the input with only white space removed around it; the result is empty exactly when the input is all white space |
| Text.TrimStart | src/components/HeroSection.tsx:17 | leading white space removed: the result is a suffix of the input, and all it dropped is white space |
| Text.TrimEnd | src/components/HeroSection.tsx:17 | trailing white space removed: the result is a prefix of the input, and all it dropped is white space |
| Text.TrimIgnoresWhitespaceSuffix | src/components/HeroSection.tsx:17 | appending white space never changes what `trim` returns |
| Text.TrimIgnoresWhitespacePrefix | src/components/HeroSection.tsx:17 | prepending white space never changes what `trim` returns |
| Text.TrimOfTrimmed | src/components/HeroSection.tsx:17 | `trim` leaves a string without white space at its ends unchanged |
| Text.LowerChar | src/pages/SearchResultPage.tsx:20-21 | ASCII capitals become the letter 32 code points higher; every other character is kept |
| Text.Lower | src/pages/SearchResultPage.tsx:20-21 | `toLowerCase` keeps the length and lower-cases each character |
| Text.LowerIsIdempotent | src/pages/SearchResultPage.tsx:20-21 | lower-casing twice is the same as lower-casing once |
| Text.LowerOccursAt | src/pages/SearchResultPage.tsx:20-21 | an occurrence of the needle at an index is still there, at the same index, after both strings are lower-cased |
| Text.Includes | src/pages/SearchResultPage.tsx:20-21 | the empty needle is included in every string, and an included needle is never longer than the haystack |
| Text.IncludesIff | src/pages/SearchResultPage.tsx:20-21 | `includes` holds exactly when the needle occurs at some index of the haystack |
| Text.MissingCharExcludes | src/pages/SearchResultPage.tsx:20-21 | a needle holding a character the haystack lacks is not included |
| UriComponent.EncodeChar | src/components/HeroSection.tsx:19 | unreserved and non-ASCII characters are kept; any other character becomes `%` and two hex digits whose value is its code |
| UriComponent.Decode | src/pages/SearchResultPage.tsx:12-16 | decoding never makes a text longer, and keeps the length of a text without `%` |
| UriComponent.Encode | src/components/HeroSection.tsx:19 | no character of the encoded text is `&`, `=`, `#`, `+` or `?`, so the query parameter cannot be split or cut short |
| UriComponent.DecodeEncode | src/pages/SearchResultPage.tsx:11-16 | decoding the encoded text gives back the original text |
| UriComponent.DecodePlain | src/pages/SearchResultPage.tsx:11-16 | text without `+` or `%` decodes to itself |
| SearchParams.Split | src/pages/SearchResultPage.tsx:12 | the query string cut at `&` gives at least one piece, and no piece contains `&` |
| SearchParams.JoinSplit | src/pages/SearchResultPage.tsx:12 | cutting at `&` loses nothing: joining the pieces again gives the input back |
| SearchParams.SplitWithoutSeparator | src/pages/SearchResultPage.tsx:12 | a string without `&` is a single piece |
| SearchParams.ParsePair | src/pages/SearchResultPage.tsx:12 | a piece without `=` is a name with the empty value; otherwise the value is the decoded text after the first `=` |
| SearchParams.ParsePieces | src/pages/SearchResultPage.tsx:12 | empty pieces are skipped: pieces that are all non-empty give one parameter each, in order, and pieces that are all empty give none; with `ParsePiecesConcat` this fixes the result for mixed pieces too |
| SearchParams.ParsePiecesConcat | src/pages/SearchResultPage.tsx:12 | the parameters of two runs of pieces are those of each run, in order, so every piece is read independently of its neighbours |
| SearchParams.ParsePiecesSkipsEmpty | src/pages/SearchResultPage.tsx:12 | an empty piece anywhere, as a trailing or doubled `&` leaves, adds no parameter and drops none of the others |
| SearchParams.Parse | src/pages/SearchResultPage.tsx:12 | an empty search string, or `?` alone, has no parameters |
| SearchParams.Get | src/pages/SearchResultPage.tsx:16 | `get` returns nothing exactly when no parameter has that name; otherwise it returns the value of the first parameter with that name |
| SearchParams.SearchOf | src/pages/SearchResultPage.tsx:12 | `location.search` is either empty or starts with `?`, and it never contains the fragment |
| SearchParams.SearchOfQueryPath | src/pages/SearchResultPage.tsx:12 | for a path with one `?` and no fragment, `location.search` is everything from the `?` on |
| SearchParams.ParseSinglePiece | src/pages/SearchResultPage.tsx:12 | a query string without `&` parses to the one parameter its body names |
| SearchParams.ParseEncodedPair | src/pages/SearchResultPage.tsx:11-16 | `name=` followed by an encoded value parses to that name and the original value |
| SearchParams.GetFirst | src/pages/SearchResultPage.tsx:16 | `get` returns the value of the first parameter with the asked-for name, whatever follows it |
| SearchParams.GetOnly | src/pages/SearchResultPage.tsx:16 | `get` on a single parameter with the asked-for name returns its value |
| SearchParams.ParseEncodedParam | src/pages/SearchResultPage.tsx:11-16 | `?name=` followed by an encoded value parses to exactly that one parameter, with the original value |
| Hero.QueryText | src/components/HeroSection.tsx:16-17 | the composed query has no white space at either end |
| Hero.QueryTextEmptyIff | src/components/HeroSection.tsx:15-18 | the composed query is empty exactly when both the keyword and the file text are empty or white space |
| Hero.QueryTextWithoutFile | src/components/HeroSection.tsx:16-17 | with no file text, the query is the trimmed keyword |
| Hero.QueryTextWithoutKeyword | src/components/HeroSection.tsx:16-17 | with no keyword, the query is the trimmed file text |
| Hero.QueryTextJoins | src/components/HeroSection.tsx:17 | a trimmed, non-empty keyword and file text are joined with exactly one space |
| Hero.SearchHref | src/components/HeroSection.tsx:19 | every search path starts with `/search?query=` |
| Hero.Navigation | src/components/HeroSection.tsx:18-19 | an empty query navigates nowhere; any other query navigates exactly once, to its search path |
| Hero.Preview | src/components/HeroSection.tsx:38 | the preview is a prefix of the text of at most 500 characters: the whole text when it is that short, exactly 500 characters otherwise |
| Hero.HeroSection.constructor | src/components/HeroSection.tsx:8-10 | a fresh hero section has an empty keyword, file text and preview, has not navigated, and has no read in flight |
| Hero.HeroSection.Search | src/components/HeroSection.tsx:15-20 | the override keyword, if given, replaces the keyword of the render; the navigation log grows by the navigation of the trimmed, joined query; the other state is unchanged |
| Hero.HeroSection.HandleSearch | src/components/HeroSection.tsx:15-20 | a search from the current state, as the search button at line 89 runs it |
| Hero.HeroSection.HandleKeyDown | src/components/HeroSection.tsx:22-24 | Enter searches for the current keyword and file text; any other key changes nothing |
| Hero.HeroSection.HandleKeywordChange | src/components/HeroSection.tsx:83 | typing replaces the keyword and changes nothing else |
| Hero.UploadOutcomeOf | src/components/HeroSection.tsx:30-46 | with no file, nothing happens; a `text/plain` first file is read; any other first file is refused with the alert text |
| Hero.HeroSection.HandleFileUpload | src/components/HeroSection.tsx:30-46 | the outcome is that of the picked files; only an accepted file adds its read to the reads in flight, and no visible field changes |
| Hero.HeroSection.OnLoad | src/components/HeroSection.tsx:35-39 | only a read in flight can finish; it sets the file text to the read text and the preview to its first 500 characters, and is no longer in flight; the keyword and the navigations are unchanged |
| Hero.HeroSection.HandleKeywordClick | src/components/HeroSection.tsx:48-52 | the keyword becomes the word and the file text is cleared, but the search joins the word with the file text from before the click |
| Hero.HeroSection.HandleKeywordClickFixed | src/components/HeroSection.tsx:48-52 | the corrected click handler: the keyword becomes the word, the file text is cleared, and the search is for the trimmed word alone |
| Hero.NavigationOfTrimmedWord | src/components/HeroSection.tsx:17-19 | a trimmed, non-empty word navigates once, to its own search path |
| Hero.StaleClickQuery | src/components/HeroSection.tsx:48-52 | a click on 영어 while the file text 문법 노트 is loaded composes 영어 문법 노트 |
| Hero.TypedQuery | src/components/HeroSection.tsx:15-17 | the keyword 수학 without a file composes 수학 |
| Hero.EmptyQueryNavigatesNowhere | src/components/HeroSection.tsx:15-18 | a keyword and a file text that are both empty or white space navigate nowhere |
| Hero.TrimmedKeywordNavigates | src/components/HeroSection.tsx:15-19 | a trimmed, non-empty keyword without a file navigates once, to its own search path |
| Hero.QueryTextOfTrimmedKeyword | src/components/HeroSection.tsx:16-17 | a trimmed keyword without a file is the query as it is |
| Hero.LoadTextFile | src/components/HeroSection.tsx:30-46 | picking a plain-text file whose read completes sets the file text to its text and the preview to its start, and leaves the reads in flight as they were |
| Hero.StaleFileTextScenario | src/components/HeroSection.tsx:30-52 | upload 문법 노트, then click 영어: the keyword is 영어 and the file text is empty, yet the one navigation is for 영어 문법 노트 |
| Hero.FixedClickScenario | src/components/HeroSection.tsx:48-52 | the same steps with the corrected handler navigate for 영어 alone |
| Hero.TypeAndEnterScenario | src/components/HeroSection.tsx:22-24 | Enter on an empty box navigates nowhere; after typing any trimmed, non-empty word, Shift does nothing and Enter navigates once, for that word |
| Hero.LaterLoadWins | src/components/HeroSection.tsx:30-46 | two plain-text uploads whose reads complete in the opposite order: the earlier upload's text, whose read completes last, is the file text and the preview |
| Hero.RejectedUploadScenario | src/components/HeroSection.tsx:41-45 | a non-text upload is refused with the alert, and the loaded file text and preview stay as they were |
| SearchResultPage.Matches | src/pages/SearchResultPage.tsx:19-21 | the empty query matches every subject, and a matching query is no longer than the title or than the description |
| SearchResultPage.FilterSubjects | src/pages/SearchResultPage.tsx:18-22 | the result is no longer than the input, and each of its subjects is from the input and matches the query |
| SearchResultPage.FilterIsSubsequence | src/pages/SearchResultPage.tsx:18-22 | the filter keeps the input order: its result is a subsequence of the input |
| SearchResultPage.FilterMembership | src/pages/SearchResultPage.tsx:18-22 | a subject is in the result exactly when it is in the input and matches |
| SearchResultPage.FilterCount | src/pages/SearchResultPage.tsx:18-22 | each matching subject is kept as often as it occurs in the input, and every other subject is dropped |
| SearchResultPage.FilterBySelect | src/pages/SearchResultPage.tsx:18-22 | when the match of each subject is known, the filter keeps exactly the subjects that match, in order |
| SearchResultPage.FilterKeepsAll | src/pages/SearchResultPage.tsx:18-22 | when every subject matches, the result is the input unchanged |
| SearchResultPage.EmptyQueryKeepsAll | src/pages/SearchResultPage.tsx:16-22 | the empty query lists every subject, in order |
| SearchResultPage.FilterIgnoresQueryCase | src/pages/SearchResultPage.tsx:20-21 | a query and its lower case find the same subjects |
| SearchResultPage.ResultsPage | src/pages/SearchResultPage.tsx:15-38 | the page shows the query it read, then either the non-empty list of matches or, exactly when nothing matches, the no-results message |
| SearchResultPage.QueryOf | src/pages/SearchResultPage.tsx:16 | the query is the value of the first `query` parameter of the location, or "" when there is none; a non-empty query always comes from a `query` parameter |
| SearchResultPage.MissingQueryListsAll | src/pages/SearchResultPage.tsx:16-22 | any location whose `query` parameter is missing or empty shows the query "" and lists every subject, in order |
| SearchResultPage.NoSearchListsAll | src/pages/SearchResultPage.tsx:16-22 | a location with no search string lists every subject |
| SearchResultPage.OtherParameterListsAll | src/pages/SearchResultPage.tsx:12-22 | a location whose only parameter has another name lists every subject |
| SearchResultPage.EmptyQueryParameterListsAll | src/pages/SearchResultPage.tsx:12-22 | a location with `?query=` and nothing after it lists every subject |
| SearchResultPage.SearchHrefRoundTrip | src/pages/SearchResultPage.tsx:11-16 | the results page reads back exactly the text the hero section put into its search path |
| SearchResultPage.ComposedQueryReachesPage | src/components/HeroSection.tsx:15-19 | a non-empty composed query navigates exactly once, and the results page reads that query back unchanged |
| SearchResultPage.MissingCharDoesNotMatch | src/pages/SearchResultPage.tsx:18-22 | for a subject and a query without ASCII capitals, a query holding a character that neither the title nor the description has does not match |
| SearchResultPage.MatchesAt | src/pages/SearchResultPage.tsx:18-22 | a subject whose description holds the query at some index matches it |
| SearchResultPage.CodingScenario | src/pages/SearchResultPage.tsx:3-22 | the query 코딩 finds only the 코딩 subject |
| SearchResultPage.StudyScenario | src/pages/SearchResultPage.tsx:3-22 | the query 학습 finds the 한국사, 수학 and 코딩 subjects, in list order |
| SearchResultPage.NothingScenario | src/pages/SearchResultPage.tsx:3-22 | the query zzz finds nothing |
| SearchResultPage.NoResultsScenario | src/pages/SearchResultPage.tsx:16-38 | a search from the hero section for zzz lands on the page showing the no-results message |
| SearchResultPage.CodingPageScenario | src/pages/SearchResultPage.tsx:16-38 | a search from the hero section for 코딩 lands on the page listing that one subject |
| Store.KeywordStore.constructor | src/store/useKeywordStore.ts:10 | the store starts with no trending keywords |
| Store.KeywordStore.SetTrendingKeywords | src/store/useKeywordStore.ts:11 | the list is replaced as a whole by the given one |
| Store.LastWriteWins | src/store/useKeywordStore.ts:11 | after two updates only the later list remains, and repeating an update changes nothing |
| Store.ClickTrending | src/components/HeroSection.tsx:122-134 | the button at an index of the store's list runs the click handler with that keyword, and the store is unchanged |
| Store.TrendingClickScenario | src/components/HeroSection.tsx:126-129 | with no file loaded, a click on the trending keyword 영어 shows 영어 in the box and navigates once, for 영어 |

## Left out

- Rendering and styling of both components are not modelled, nor the categories grid. The page's content is modelled as `SearchResultPage.ResultPage`.
- The file picker button (`handleFileButtonClick`) is not modelled. It only opens the browser's file dialog.
- `FileReader` runs asynchronously. The model splits an upload in two: `HandleFileUpload` starts the read and `OnLoad` completes it. The ghost multiset `pendingReads` holds the texts of the reads in flight, and `OnLoad` may only complete one of them. Any interleaving of completions is a sequence of `OnLoad` calls. A failed read never calls `onload`, so it changes nothing; there is no error callback in the source.
- The decoding of a file's bytes as text is not modelled. A `File` carries the text its read delivers.
- `alert` is returned as the `Rejected` outcome rather than shown.
- `navigate` appends the path to the `navigations` log. Router internals and the page change itself are not modelled.
- The zustand internals are not modelled: subscription and re-rendering. The store is one object that the caller passes in.
- Text.Lower: lower-cases ASCII letters only. Full Unicode case mapping is not modelled. The data set and the scenario queries are Hangul and lower-case ASCII, which this covers.
- UriComponent.Encode: does not percent-encode non-ASCII characters as UTF-8 bytes; they pass through unchanged. The decoder leaves them alone too, so the round trip holds in the model as it does in the browser.
- UriComponent.Decode: decodes only `%HH` escapes with HH below 0x80. Multi-byte UTF-8 sequences are not decoded.
- Hero.Preview: counts characters as code points. JavaScript's `slice` counts UTF-16 code units, so a text with characters outside the Basic Multilingual Plane can get a different cut.
- SearchParams.SearchOf: models a path as the router passes it, with no scheme, host or percent-normalisation.
- `useQuery` builds a new `URLSearchParams` on every render. The model reads the query once per page.

## Findings

| source | as written | input that shows it | evidently intended | confidence | as-written member | corrected member |
|---|---|---|---|---|---|---|
| src/components/HeroSection.tsx:48-52 | `handleKeywordClick` calls `setFileText("")`, then `handleSearch(word)`. The search still reads the `fileText` of the current render, so the old file text ends up in the query. | Upload a file containing 문법 노트, then click the trending keyword 영어. The one navigation is for 영어 문법 노트. | The click searches for the keyword alone (영어), as the comment at line 50 says: the file text is cleared. | high, not executed | Hero.StaleFileTextScenario | Hero.HeroSection.HandleKeywordClickFixed |
