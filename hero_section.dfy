/** The query composer of the landing page's hero section: the typed keyword, the text of
    an uploaded file with its preview, and the searches they start. */
module Hero {
  import opened Wrappers
  import opened Text
  import UriComponent

  /** The path prefix every search navigates to; the query follows, encoded. */
  const SearchPath := "/search?query="

  /** The only media type an upload is read for. */
  const PlainText := "text/plain"

  /** The alert shown for an upload of any other type. */
  const UploadRejectedMessage := "텍스트 파일(.txt)만 업로드 가능합니다."

  /** How many characters of an uploaded file the preview shows. */
  const PreviewLength: nat := 500

  /** The query text of a search: the keyword and the file text joined by one space, trimmed. */
  function QueryText(base: string, fileText: string): (q: string)
    ensures IsTrimmed(q)
  {
    Trim(base + " " + fileText)
  }

  /** A search has nothing to send exactly when both the keyword and the file text are empty
      or white space. */
  lemma QueryTextEmptyIff(base: string, fileText: string)
    ensures QueryText(base, fileText) == "" <==> AllWhitespace(base) && AllWhitespace(fileText)
  {
    AllWhitespaceConcat(base, " ");
    AllWhitespaceConcat(base + " ", fileText);
  }

  /** Without file text the query is the trimmed keyword. */
  lemma QueryTextWithoutFile(base: string, fileText: string)
    requires AllWhitespace(fileText)
    ensures QueryText(base, fileText) == Trim(base)
  {
    AllWhitespaceConcat(" ", fileText);
    assert base + " " + fileText == base + (" " + fileText);
    TrimIgnoresWhitespaceSuffix(base, " " + fileText);
  }

  /** Without a keyword the query is the trimmed file text. */
  lemma QueryTextWithoutKeyword(base: string, fileText: string)
    requires AllWhitespace(base)
    ensures QueryText(base, fileText) == Trim(fileText)
  {
    AllWhitespaceConcat(base, " ");
    TrimIgnoresWhitespacePrefix(base + " ", fileText);
  }

  /** A keyword and a file text that are already trimmed and not empty are joined with
      exactly one space between them. */
  lemma QueryTextJoins(base: string, fileText: string)
    requires base != "" && fileText != "" && IsTrimmed(base) && IsTrimmed(fileText)
    ensures QueryText(base, fileText) == base + " " + fileText
  {
    var joined := base + " " + fileText;
    assert joined[0] == base[0];
    assert joined[|joined| - 1] == fileText[|fileText| - 1];
    TrimOfTrimmed(joined);
  }

  /** The path a search for `fullText` navigates to. */
  function SearchHref(fullText: string): (href: string)
    ensures |href| >= |SearchPath| && href[..|SearchPath|] == SearchPath
  {
    SearchPath + UriComponent.Encode(fullText)
  }

  /** The navigations one search for `fullText` issues: none for an empty query, else one. */
  function Navigation(fullText: string): (navs: seq<string>)
    ensures |navs| <= 1
    ensures navs == [] <==> fullText == ""
    ensures navs != [] ==> navs[0] == SearchHref(fullText)
  {
    if fullText == "" then [] else [SearchHref(fullText)]
  }

  /** The preview of a file's text (`text.slice(0, 500)`): its first 500 characters, or all of
      it when it is shorter. */
  function Preview(text: string): (preview: string)
    ensures |preview| <= PreviewLength && preview <= text
    ensures |text| <= PreviewLength ==> preview == text
    ensures |text| > PreviewLength ==> |preview| == PreviewLength
  {
    if |text| <= PreviewLength then text else text[..PreviewLength]
  }

  /** A file the user picked: its declared media type, and the text a `FileReader` reading
      it as text delivers. */
  datatype File = File(mimeType: string, text: string)

  /** What a change of the file input does at once: nothing when no file was picked, an
      alert for a file of the wrong type, otherwise a read of the file as text. */
  datatype UploadOutcome = NoFile | Rejected(alert: string) | Reading(file: File)

  /** The outcome of `handleFileUpload` for the picked files: only the first one counts, and
      only a `text/plain` one is read. */
  function UploadOutcomeOf(files: Option<seq<File>>): (outcome: UploadOutcome)
    ensures outcome == NoFile <==> files.None? || files.value == []
    ensures outcome.Reading? <==> files.Some? && files.value != [] && files.value[0].mimeType == PlainText
    ensures outcome.Reading? ==> outcome.file == files.value[0]
    ensures outcome.Rejected? ==> outcome.alert == UploadRejectedMessage
  {
    if files.None? || files.value == [] then NoFile
    else if files.value[0].mimeType == PlainText then Reading(files.value[0])
    else Rejected(UploadRejectedMessage)
  }

  class HeroSection {
    /** The search box's text. */
    var keyword: string
    /** The full text of the last uploaded file that finished loading. */
    var fileText: string
    /** What the preview box shows of that text. */
    var previewText: string
    /** Every path given to `navigate`, oldest first. */
    var navigations: seq<string>
    /** The texts of the reads started by `readAsText` whose `onload` has not run yet. */
    ghost var pendingReads: multiset<string>

    /** The state of a fresh hero section: everything empty, nowhere navigated, no read
        in flight. */
    constructor()
      ensures keyword == "" && fileText == "" && previewText == "" && navigations == []
      ensures pendingReads == multiset{}
    {
      keyword, fileText, previewText := "", "", "";
      navigations := [];
      pendingReads := multiset{};
    }

    /** `handleSearch` as the closure of a render whose state held `renderedKeyword` and
        `renderedFileText`: the override keyword, if given, replaces the keyword; an empty
        query navigates nowhere, any other navigates once to its search path. */
    method Search(customKeyword: Option<string>, renderedKeyword: string, renderedFileText: string)
      modifies this`navigations
      ensures navigations == old(navigations) + Navigation(QueryText(customKeyword.GetOr(renderedKeyword), renderedFileText))
    {
      var fullText := QueryText(customKeyword.GetOr(renderedKeyword), renderedFileText);
      navigations := navigations + Navigation(fullText);
    }

    /** `handleSearch(customKeyword)` called from the current render: the search button, the
        Enter key. */
    method HandleSearch(customKeyword: Option<string>)
      modifies this`navigations
      ensures navigations == old(navigations) + Navigation(QueryText(customKeyword.GetOr(keyword), fileText))
    {
      Search(customKeyword, keyword, fileText);
    }

    /** `handleKeyDown`: Enter searches for the typed keyword, any other key does nothing. */
    method HandleKeyDown(key: string)
      modifies this`navigations
      ensures key == "Enter" ==> navigations == old(navigations) + Navigation(QueryText(keyword, fileText))
      ensures key != "Enter" ==> navigations == old(navigations)
    {
      if key == "Enter" {
        HandleSearch(None);
      }
    }

    /** The search box's `onChange`: the keyword becomes what was typed. */
    method HandleKeywordChange(value: string)
      modifies this`keyword
      ensures keyword == value
    {
      keyword := value;
    }

    /** `handleFileUpload`: nothing happens without a file, a file that is not plain text is
        refused with an alert, and a plain-text file starts a read. No visible field changes
        until the read completes (`OnLoad`). */
    method HandleFileUpload(files: Option<seq<File>>) returns (outcome: UploadOutcome)
      modifies this`pendingReads
      ensures outcome == UploadOutcomeOf(files)
      ensures pendingReads == old(pendingReads) + if outcome.Reading? then multiset{outcome.file.text} else multiset{}
    {
      if files.None? || files.value == [] {
        return NoFile;
      }
      var file := files.value[0];
      if file.mimeType == PlainText {
        outcome := Reading(file);
        pendingReads := pendingReads + multiset{file.text};
      } else {
        outcome := Rejected(UploadRejectedMessage);
      }
    }

    /** The reader's `onload` for a read in flight: the file's text becomes the file text,
        and its first 500 characters the preview. */
    method OnLoad(text: string)
      requires text in pendingReads
      modifies this`fileText, this`previewText, this`pendingReads
      ensures fileText == text && previewText == Preview(text)
      ensures |previewText| <= PreviewLength && previewText <= fileText
      ensures pendingReads == old(pendingReads) - multiset{text}
    {
      fileText := text;
      previewText := Preview(text);
      pendingReads := pendingReads - multiset{text};
    }

    /** `handleKeywordClick(word)` as written: the keyword becomes `word` and the file text is
        cleared, but the search runs in the same render and so still sees the file text from
        before the click. */
    method HandleKeywordClick(word: string)
      modifies this`keyword, this`fileText, this`navigations
      ensures keyword == word && fileText == ""
      ensures navigations == old(navigations) + Navigation(QueryText(word, old(fileText)))
    {
      var renderedKeyword, renderedFileText := keyword, fileText;
      keyword := word;
      fileText := "";
      Search(Some(word), renderedKeyword, renderedFileText);
    }

    /** `handleKeywordClick(word)` as its comments intend: the search sees the cleared file
        text, so its query is the trimmed word alone. */
    method HandleKeywordClickFixed(word: string)
      modifies this`keyword, this`fileText, this`navigations
      ensures keyword == word && fileText == ""
      ensures navigations == old(navigations) + Navigation(Trim(word))
    {
      keyword := word;
      fileText := "";
      Search(Some(word), keyword, fileText);
      QueryTextWithoutFile(word, "");
    }
  }

  /** A search for a trimmed, non-empty word goes to that word's search path. */
  lemma NavigationOfTrimmedWord(word: string)
    requires word != "" && IsTrimmed(word)
    ensures Navigation(Trim(word)) == [SearchHref(word)]
  {
    TrimOfTrimmed(word);
  }

  /** A click on "영어" while the file text "문법 노트" is loaded searches for both. */
  lemma StaleClickQuery()
    ensures QueryText("영어", "문법 노트") == "영어 문법 노트"
  {
    QueryTextJoins("영어", "문법 노트");
  }

  lemma StaleClickNavigation()
    ensures Navigation(QueryText("영어", "문법 노트")) == [SearchHref("영어 문법 노트")]
  {
    StaleClickQuery();
  }

  lemma WordNavigation()
    ensures Navigation(Trim("영어")) == [SearchHref("영어")]
  {
    NavigationOfTrimmedWord("영어");
  }

  /** A trimmed keyword with no file text is the query as it is. */
  lemma QueryTextOfTrimmedKeyword(word: string)
    requires IsTrimmed(word)
    ensures QueryText(word, "") == word
  {
    QueryTextWithoutFile(word, "");
    TrimOfTrimmed(word);
  }

  /** A keyword and a file text that are both empty or white space navigate nowhere. */
  lemma EmptyQueryNavigatesNowhere(base: string, fileText: string)
    requires AllWhitespace(base) && AllWhitespace(fileText)
    ensures Navigation(QueryText(base, fileText)) == []
  {
    QueryTextEmptyIff(base, fileText);
  }

  /** A trimmed, non-empty keyword with no file text navigates once, to its own search path. */
  lemma TrimmedKeywordNavigates(word: string)
    requires word != "" && IsTrimmed(word)
    ensures Navigation(QueryText(word, "")) == [SearchHref(word)]
  {
    QueryTextOfTrimmedKeyword(word);
  }

  /** "수학" typed with no file loaded searches for "수학". */
  lemma TypedQuery()
    ensures QueryText("수학", "") == "수학"
  {
    QueryTextOfTrimmedKeyword("수학");
  }

  /** A plain-text file is picked and its read completes: the file text is the file's text,
      the preview shows its start, and the reads in flight are left as they were. */
  method LoadTextFile(hero: HeroSection, text: string)
    modifies hero`pendingReads, hero`fileText, hero`previewText
    ensures hero.fileText == text && hero.previewText == Preview(text)
    ensures hero.pendingReads == old(hero.pendingReads)
  {
    var outcome := hero.HandleFileUpload(Some([File(PlainText, text)]));
    hero.OnLoad(text);
  }

  /** A file is uploaded, then the trending keyword "영어" is clicked: the search still carries
      the file's text. */
  method StaleFileTextScenario() returns (keyword: string, fileText: string, navigated: seq<string>)
    ensures keyword == "영어" && fileText == ""
    ensures navigated == [SearchHref("영어 문법 노트")]
  {
    var hero := new HeroSection();
    LoadTextFile(hero, "문법 노트");
    hero.HandleKeywordClick("영어");
    StaleClickNavigation();
    keyword, fileText, navigated := hero.keyword, hero.fileText, hero.navigations;
  }

  /** The same clicks with the corrected handler search for "영어" alone. */
  method FixedClickScenario() returns (keyword: string, fileText: string, navigated: seq<string>)
    ensures keyword == "영어" && fileText == ""
    ensures navigated == [SearchHref("영어")]
  {
    var hero := new HeroSection();
    LoadTextFile(hero, "문법 노트");
    hero.HandleKeywordClickFixed("영어");
    WordNavigation();
    keyword, fileText, navigated := hero.keyword, hero.fileText, hero.navigations;
  }

  /** Enter on an empty search box navigates nowhere; typing a trimmed word and pressing
      Shift, then Enter, searches once, for that word. */
  method TypeAndEnterScenario(word: string) returns (beforeTyping: seq<string>, navigated: seq<string>)
    requires word != "" && IsTrimmed(word)
    ensures beforeTyping == []
    ensures navigated == [SearchHref(word)]
  {
    var hero := new HeroSection();
    EmptyQueryNavigatesNowhere(hero.keyword, hero.fileText);
    hero.HandleKeyDown("Enter");
    beforeTyping := hero.navigations;
    hero.HandleKeywordChange(word);
    hero.HandleKeyDown("Shift");
    assert hero.keyword == word && hero.fileText == "" && hero.navigations == [];
    TrimmedKeywordNavigates(word);
    hero.HandleKeyDown("Enter");
    navigated := hero.navigations;
  }

  /** Two plain-text uploads whose reads complete in the opposite order: the read of the
      upload started first completes last, so its text is kept, not the later upload's. */
  method LaterLoadWins(first: string, second: string) returns (fileText: string, previewText: string)
    ensures fileText == first && previewText == Preview(first)
  {
    var hero := new HeroSection();
    var started := hero.HandleFileUpload(Some([File(PlainText, first)]));
    var startedNext := hero.HandleFileUpload(Some([File(PlainText, second)]));
    assert hero.pendingReads == multiset{first, second};
    hero.OnLoad(second);
    hero.OnLoad(first);
    fileText, previewText := hero.fileText, hero.previewText;
  }

  /** An upload of a file that is not plain text changes nothing. */
  method RejectedUploadScenario() returns (fileText: string, previewText: string, outcome: UploadOutcome)
    ensures outcome == Rejected(UploadRejectedMessage)
    ensures fileText == "노트" && previewText == "노트"
  {
    var hero := new HeroSection();
    LoadTextFile(hero, "노트");
    outcome := hero.HandleFileUpload(Some([File("application/pdf", "%PDF"), File(PlainText, "메모")]));
    fileText, previewText := hero.fileText, hero.previewText;
  }
}
