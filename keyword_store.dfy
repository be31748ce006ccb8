/** The shared store of trending keywords that the hero section shows as buttons. */
module Store {
  import Hero

  class KeywordStore {
    /** The keywords shown under the search box, in display order. */
    var trendingKeywords: seq<string>

    /** The store as created: no trending keywords, so no buttons are shown. */
    constructor()
      ensures trendingKeywords == []
    {
      trendingKeywords := [];
    }

    /** `setTrendingKeywords`: the list is replaced as a whole, not merged. */
    method SetTrendingKeywords(keywords: seq<string>)
      modifies this`trendingKeywords
      ensures trendingKeywords == keywords
    {
      trendingKeywords := keywords;
    }
  }

  /** Two updates in a row: the later list wins, nothing of the earlier one remains, and
      setting the same list again changes nothing. */
  method LastWriteWins(first: seq<string>, second: seq<string>) returns (afterFirst: seq<string>, afterSecond: seq<string>, afterRepeat: seq<string>)
    ensures afterFirst == first
    ensures afterSecond == second
    ensures afterRepeat == afterSecond
  {
    var store := new KeywordStore();
    store.SetTrendingKeywords(first);
    afterFirst := store.trendingKeywords;
    store.SetTrendingKeywords(second);
    afterSecond := store.trendingKeywords;
    store.SetTrendingKeywords(second);
    afterRepeat := store.trendingKeywords;
  }

  /** A click on the trending keyword button at `index`: the hero section renders one button
      per keyword in the store, and each runs `handleKeywordClick` with its own keyword. */
  method ClickTrending(store: KeywordStore, hero: Hero.HeroSection, index: nat)
    requires index < |store.trendingKeywords|
    modifies hero`keyword, hero`fileText, hero`navigations
    ensures hero.keyword == store.trendingKeywords[index] && hero.fileText == ""
    ensures hero.navigations == old(hero.navigations)
      + Hero.Navigation(Hero.QueryText(store.trendingKeywords[index], old(hero.fileText)))
    ensures store.trendingKeywords == old(store.trendingKeywords)
  {
    hero.HandleKeywordClick(store.trendingKeywords[index]);
  }

  /** With no file loaded, the store's keywords set to 영어 and 수학 and the first button
      clicked, the page searches for 영어 and the search box shows it. */
  method TrendingClickScenario() returns (keyword: string, navigated: seq<string>)
    ensures keyword == "영어"
    ensures navigated == [Hero.SearchHref("영어")]
  {
    var store := new KeywordStore();
    var hero := new Hero.HeroSection();
    store.SetTrendingKeywords(["영어", "수학"]);
    ClickTrending(store, hero, 0);
    Hero.QueryTextWithoutFile("영어", "");
    Hero.WordNavigation();
    keyword, navigated := hero.keyword, hero.navigations;
  }
}
