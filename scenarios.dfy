/** Sequences of operations on the store and the home page together: a load, then
    user actions, then what the page derives from the resulting state. */
module Scenarios {
  import opened Types
  import opened HomePage
  import opened ArticleStore

  /** The page body for the store's current state. */
  function ContentOf(s: Store): Content
    reads s
  {
    HomeContent(s.articles, s.searchQuery, s.selectedTopic, s.loading, s.error)
  }

  /** Before any load completes the page shows the placeholders. */
  method InitialScenario() returns (content: Content, topics: seq<string>)
    ensures content == Skeletons(SkeletonCount)
    ensures topics == []
  {
    var s := new Store();
    content := ContentOf(s);
    topics := Topics(s.articles);
  }

  const Intro := Article("Intro to AI", "AI", "u1")
  const Deep := Article("Deep AI", "AI", "u2")
  const Web := Article("Web Basics", "Web", "u3")

  lemma SampleTopics()
    ensures Topics([Intro, Deep, Web]) == ["All", "AI", "Web"]
  {
    var rows := [Intro, Deep, Web];
    assert Text.LexLess("AI", "Web");
    forall t
      ensures t in ["AI", "Web"] <==> HasTopic(rows, t)
    {
      if t in ["AI", "Web"] {
        assert rows[0].topic == "AI" && rows[2].topic == "Web";
      }
    }
    TopicsUnique(rows, ["AI", "Web"]);
  }

  lemma SampleLowered()
    ensures Text.ToLower("") == ""
    ensures Text.ToLower("deep") == "deep"
    ensures Text.ToLower("Deep AI") == "deep ai"
  {
  }

  lemma IntroDoesNotMatchDeep()
    ensures !SearchMatch(Intro, "deep")
  {
    SampleLowered();
    var l := Text.ToLower("Intro to AI");
    forall i | 0 <= i < |l|
      ensures l[i] != 'd'
    {
      assert "Intro to AI"[i] != 'd' && "Intro to AI"[i] != 'D';
    }
    Text.MissingFirstCharNotIncluded(l, "deep");
  }

  lemma SampleFilters()
    ensures FilterArticles([Intro, Deep, Web], "AI", "") == [Intro, Deep]
    ensures FilterArticles([Intro, Deep, Web], "AI", "deep") == [Deep]
  {
    SampleLowered();
    Text.IncludesEmpty(Text.ToLower(Intro.title));
    Text.IncludesEmpty(Text.ToLower(Deep.title));
    assert Keep(Intro, "AI", "") && Keep(Deep, "AI", "") && !Keep(Web, "AI", "");
    IntroDoesNotMatchDeep();
    assert Text.IsPrefix("deep", "deep ai");
    assert Keep(Deep, "AI", "deep") && !Keep(Web, "AI", "deep");
    assert [Intro, Deep, Web][1..] == [Deep, Web];
    assert [Deep, Web][1..] == [Web];
    assert [Web][1..] == [];
    assert FilterArticles([Web], "AI", "") == [];
    assert FilterArticles([Deep, Web], "AI", "") == [Deep];
    assert FilterArticles([Web], "AI", "deep") == [];
    assert FilterArticles([Deep, Web], "AI", "deep") == [Deep];
  }

  /** Three rows with topics AI, AI, Web: choosing AI shows the first two;
      then searching "deep" shows only the second. */
  method TopicThenSearchScenario() returns (byTopic: seq<Article>, byTopicAndSearch: seq<Article>, topics: seq<string>)
    ensures byTopic == [Intro, Deep]
    ensures byTopicAndSearch == [Deep]
    ensures topics == ["All", "AI", "Web"]
  {
    var s := new Store();
    s.FetchArticles(Parsed([Intro, Deep, Web]));
    SampleTopics();
    SampleFilters();
    topics := Topics(s.articles);
    s.SetSelectedTopic("AI");
    byTopic := FilterArticles(s.articles, s.selectedTopic, s.searchQuery);
    s.SetSearchQuery("deep");
    byTopicAndSearch := FilterArticles(s.articles, s.selectedTopic, s.searchQuery);
  }

  /** A non-ok response from a fresh store: the error view with the fetch
      failure message, and still no articles. */
  method NotOkScenario() returns (content: Content, articles: seq<Article>)
    ensures content == ErrorView(FetchFailedMessage)
    ensures articles == []
  {
    var s := new Store();
    s.FetchArticles(NotOk);
    content := ContentOf(s);
    articles := s.articles;
  }

  /** A load that parses to no rows, with no filter: the empty-state view,
      not the error view. */
  method EmptyLoadScenario() returns (content: Content)
    ensures content == NoArticlesFound
  {
    var s := new Store();
    s.FetchArticles(Parsed([]));
    content := ContentOf(s);
  }
}
