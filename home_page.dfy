/** The view derivations of the home page: the topic buttons, the filtered
    article list, and which content the page body shows. Each is a pure
    function of the store's state. */
module HomePage {
  import opened Types
  import opened Text

  /** The sentinel topic meaning "no topic filter". */
  const AllTopics: string := "All"

  /** Number of placeholder cards shown while loading. */
  const SkeletonCount: nat := 6

  /** `articles.map((article) => article.topic)` */
  function TopicsOf(articles: seq<Article>): (ts: seq<string>)
    ensures |ts| == |articles|
    ensures forall i :: 0 <= i < |articles| ==> ts[i] == articles[i].topic
  {
    seq(|articles|, i requires 0 <= i < |articles| => articles[i].topic)
  }

  /** The topic buttons: none when there are no articles, otherwise the
      sentinel followed by the distinct topics in ascending order. */
  function Topics(articles: seq<Article>): seq<string>
  {
    if |articles| == 0 then [] else [AllTopics] + SortedDistinct(TopicsOf(articles))
  }

  /** Some article of `articles` carries topic `t`. */
  predicate HasTopic(articles: seq<Article>, t: string)
  {
    exists k :: 0 <= k < |articles| && articles[k].topic == t
  }

  /** The topic list is empty exactly when there are no articles (it is
      never the sentinel alone). */
  lemma TopicsEmptyIff(articles: seq<Article>)
    ensures Topics(articles) == [] <==> articles == []
  {
  }

  /** With at least one article the list is the sentinel, then strictly
      ascending distinct topics, each the topic of some article, and every
      article's topic is among them. */
  lemma TopicsShape(articles: seq<Article>)
    requires articles != []
    ensures |Topics(articles)| >= 2 && Topics(articles)[0] == AllTopics
    ensures StrictlySorted(Topics(articles)[1..])
    ensures forall i, j :: 1 <= i < j < |Topics(articles)| ==> Topics(articles)[i] != Topics(articles)[j]
    ensures forall a :: a in articles ==> a.topic in Topics(articles)[1..]
    ensures forall t :: t in Topics(articles)[1..] <==> HasTopic(articles, t)
  {
    var ts := TopicsOf(articles);
    var rest := SortedDistinct(ts);
    assert Topics(articles)[1..] == rest;
    assert ts[0] in rest;
    StrictlySortedDistinct(rest);
    forall t
      ensures t in rest <==> HasTopic(articles, t)
    {
      if t in rest {
        var k :| 0 <= k < |ts| && ts[k] == t;
        assert articles[k].topic == t;
      }
      if HasTopic(articles, t) {
        var k :| 0 <= k < |articles| && articles[k].topic == t;
        assert ts[k] == t;
      }
    }
    forall a | a in articles
      ensures a.topic in rest
    {
      var k :| 0 <= k < |articles| && articles[k] == a;
      assert HasTopic(articles, a.topic);
    }
  }

  /** The topic list is the only list of that shape: any strictly ascending
      list of exactly the articles' topics, after the sentinel, equals it. */
  lemma TopicsUnique(articles: seq<Article>, sorted: seq<string>)
    requires articles != []
    requires StrictlySorted(sorted)
    requires forall t :: t in sorted <==> HasTopic(articles, t)
    ensures Topics(articles) == [AllTopics] + sorted
  {
    TopicsShape(articles);
    StrictlySortedUnique(Topics(articles)[1..], sorted);
  }

  /** The topic half of the filter predicate. */
  predicate TopicMatch(a: Article, selectedTopic: string)
  {
    selectedTopic == AllTopics || a.topic == selectedTopic
  }

  /** The search half: case-insensitive substring test on the title. */
  predicate SearchMatch(a: Article, searchQuery: string)
  {
    Includes(ToLower(a.title), ToLower(searchQuery))
  }

  /** The search is case-insensitive in the query: lower-casing the query
      first does not change which titles match. */
  lemma SearchMatchLowerQuery(a: Article, searchQuery: string)
    ensures SearchMatch(a, ToLower(searchQuery)) == SearchMatch(a, searchQuery)
  {
    ToLowerIdempotent(searchQuery);
  }

  /** The search is case-insensitive in the title: an article whose title
      is lower-cased matches the same queries. */
  lemma SearchMatchLowerTitle(a: Article, searchQuery: string)
    ensures SearchMatch(a.(title := ToLower(a.title)), searchQuery) == SearchMatch(a, searchQuery)
  {
    ToLowerIdempotent(a.title);
  }

  /** Whether an article passes the filter. */
  predicate Keep(a: Article, selectedTopic: string, searchQuery: string)
  {
    TopicMatch(a, selectedTopic) && SearchMatch(a, searchQuery)
  }

  /** `articles.filter(...)` with the predicate `Keep`. */
  function FilterArticles(articles: seq<Article>, selectedTopic: string, searchQuery: string): (r: seq<Article>)
    ensures |r| <= |articles|
  {
    if articles == [] then []
    else if Keep(articles[0], selectedTopic, searchQuery) then
      [articles[0]] + FilterArticles(articles[1..], selectedTopic, searchQuery)
    else
      FilterArticles(articles[1..], selectedTopic, searchQuery)
  }

  /** An article is shown exactly when it is loaded and passes both the
      topic test and the search test. */
  lemma {:induction false} FilterMembership(articles: seq<Article>, selectedTopic: string, searchQuery: string, a: Article)
    ensures a in FilterArticles(articles, selectedTopic, searchQuery)
        <==> a in articles && TopicMatch(a, selectedTopic) && SearchMatch(a, searchQuery)
  {
    if articles != [] {
      FilterMembership(articles[1..], selectedTopic, searchQuery, a);
      assert articles == [articles[0]] + articles[1..];
    }
  }

  /** Filtering neither drops a kept article nor duplicates one: each
      article occurs in the result as often as in the input if it passes,
      and not at all otherwise. */
  lemma {:induction false} FilterCount(articles: seq<Article>, selectedTopic: string, searchQuery: string, a: Article)
    ensures multiset(FilterArticles(articles, selectedTopic, searchQuery))[a]
         == if Keep(a, selectedTopic, searchQuery) then multiset(articles)[a] else 0
  {
    if articles != [] {
      FilterCount(articles[1..], selectedTopic, searchQuery, a);
      assert articles == [articles[0]] + articles[1..];
    }
  }

  /** `sub` is obtained from `s` by deleting elements, keeping the order. */
  predicate IsSubsequence(sub: seq<Article>, s: seq<Article>)
    decreases |s|
  {
    if sub == [] then true
    else if s == [] then false
    else (sub[0] == s[0] && IsSubsequence(sub[1..], s[1..])) || IsSubsequence(sub, s[1..])
  }

  /** Filtering never reorders: the result is a subsequence of the input. */
  lemma {:induction false} FilterIsSubsequence(articles: seq<Article>, selectedTopic: string, searchQuery: string)
    ensures IsSubsequence(FilterArticles(articles, selectedTopic, searchQuery), articles)
  {
    if articles != [] {
      FilterIsSubsequence(articles[1..], selectedTopic, searchQuery);
    }
  }

  /** The sentinel topic with an empty query shows every article in order. */
  lemma {:induction false} FilterNothingSelected(articles: seq<Article>)
    ensures FilterArticles(articles, AllTopics, "") == articles
  {
    if articles != [] {
      IncludesEmpty(ToLower(articles[0].title));
      FilterNothingSelected(articles[1..]);
      assert articles == [articles[0]] + articles[1..];
    }
  }

  /** Filtering an already filtered list by the same criteria changes
      nothing. */
  lemma {:induction false} FilterIdempotent(articles: seq<Article>, selectedTopic: string, searchQuery: string)
    ensures var once := FilterArticles(articles, selectedTopic, searchQuery);
            FilterArticles(once, selectedTopic, searchQuery) == once
  {
    if articles != [] {
      FilterIdempotent(articles[1..], selectedTopic, searchQuery);
    }
  }

  /** Topic first, then query, gives the combined filter. */
  lemma {:induction false} FilterByQueryAfterTopic(articles: seq<Article>, selectedTopic: string, searchQuery: string)
    ensures FilterArticles(FilterArticles(articles, selectedTopic, ""), AllTopics, searchQuery)
         == FilterArticles(articles, selectedTopic, searchQuery)
  {
    if articles != [] {
      IncludesEmpty(ToLower(articles[0].title));
      FilterByQueryAfterTopic(articles[1..], selectedTopic, searchQuery);
    }
  }

  /** Query first, then topic, gives the combined filter. */
  lemma {:induction false} FilterByTopicAfterQuery(articles: seq<Article>, selectedTopic: string, searchQuery: string)
    ensures FilterArticles(FilterArticles(articles, AllTopics, searchQuery), selectedTopic, "")
         == FilterArticles(articles, selectedTopic, searchQuery)
  {
    if articles != [] {
      IncludesEmpty(ToLower(articles[0].title));
      FilterByTopicAfterQuery(articles[1..], selectedTopic, searchQuery);
    }
  }

  /** Topic and search are independent filters combined with AND: the
      combined result is the topic-only result filtered by the query, and
      the query-only result filtered by the topic, and as a set it is the
      intersection of the two single-criterion results. */
  lemma FilterConjunction(articles: seq<Article>, selectedTopic: string, searchQuery: string)
    ensures FilterArticles(articles, selectedTopic, searchQuery)
         == FilterArticles(FilterArticles(articles, selectedTopic, ""), AllTopics, searchQuery)
         == FilterArticles(FilterArticles(articles, AllTopics, searchQuery), selectedTopic, "")
    ensures forall a ::
              (a in FilterArticles(articles, selectedTopic, searchQuery)
               <==> a in FilterArticles(articles, selectedTopic, "") && a in FilterArticles(articles, AllTopics, searchQuery))
  {
    FilterByQueryAfterTopic(articles, selectedTopic, searchQuery);
    FilterByTopicAfterQuery(articles, selectedTopic, searchQuery);
    forall a
      ensures a in FilterArticles(articles, selectedTopic, searchQuery)
          <==> a in FilterArticles(articles, selectedTopic, "") && a in FilterArticles(articles, AllTopics, searchQuery)
    {
      FilterMembership(articles, selectedTopic, searchQuery, a);
      FilterMembership(articles, selectedTopic, "", a);
      FilterMembership(articles, AllTopics, searchQuery, a);
      IncludesEmpty(ToLower(a.title));
    }
  }

  /** Choosing any topic button while the search box is empty shows at
      least one article. */
  lemma TopicButtonNonEmpty(articles: seq<Article>, t: string)
    requires t in Topics(articles)
    ensures FilterArticles(articles, t, "") != []
  {
    var k: nat := 0;
    if t != AllTopics {
      var ts := Topics(articles);
      var i :| 0 <= i < |ts| && ts[i] == t;
      assert t in ts[1..] by {
        assert i != 0;
        assert ts[1..][i - 1] == t;
      }
      TopicsShape(articles);
      k :| k < |articles| && articles[k].topic == t;
    }
    IncludesEmpty(ToLower(articles[k].title));
    FilterMembership(articles, t, "", articles[k]);
  }

  /** One article card: rendered under key `url` at position `index`. */
  datatype Card = Card(key: string, article: Article, index: nat)

  /** What the page body shows. */
  datatype Content =
    | Skeletons(count: nat)
    | ErrorView(message: string)
    | NoArticlesFound
    | Grid(cards: seq<Card>)

  /** JavaScript truthiness of `error`: `null` and the empty string are
      both false. */
  predicate ErrorShown(error: Option<string>)
  {
    error.Some? && error.value != ""
  }

  /** `renderContent()`: loading, then error, then the empty state, then
      one card per filtered article. */
  function RenderContent(loading: bool, error: Option<string>, filtered: seq<Article>): (c: Content)
    ensures c.Skeletons? <==> loading
    ensures c.Skeletons? ==> c.count == SkeletonCount
    ensures c.ErrorView? <==> !loading && ErrorShown(error)
    ensures c.ErrorView? ==> error == Some(c.message)
    ensures c.NoArticlesFound? <==> !loading && !ErrorShown(error) && filtered == []
    ensures c.Grid? <==> !loading && !ErrorShown(error) && filtered != []
    ensures c.Grid? ==> |c.cards| == |filtered|
    ensures c.Grid? ==> forall i :: 0 <= i < |filtered| ==>
              c.cards[i].article == filtered[i] && c.cards[i].key == filtered[i].url && c.cards[i].index == i
  {
    if loading then Skeletons(SkeletonCount)
    else if ErrorShown(error) then ErrorView(error.value)
    else if |filtered| == 0 then NoArticlesFound
    else Grid(seq(|filtered|, i requires 0 <= i < |filtered| => Card(filtered[i].url, filtered[i], i)))
  }

  /** The page body for a given store state. */
  function HomeContent(articles: seq<Article>, searchQuery: string, selectedTopic: string,
                       loading: bool, error: Option<string>): Content
  {
    RenderContent(loading, error, FilterArticles(articles, selectedTopic, searchQuery))
  }

  /** The cards shown are exactly the loaded articles that pass the filter,
      each once per occurrence and in load order. */
  lemma GridShowsFiltered(articles: seq<Article>, searchQuery: string, selectedTopic: string, error: Option<string>)
    requires !ErrorShown(error)
    ensures var c := HomeContent(articles, searchQuery, selectedTopic, false, error);
            (c.Grid? || c.NoArticlesFound?) &&
            (c.Grid? ==> forall a :: (exists i :: 0 <= i < |c.cards| && c.cards[i].article == a)
                                 <==> a in articles && Keep(a, selectedTopic, searchQuery))
  {
    var f := FilterArticles(articles, selectedTopic, searchQuery);
    var c := HomeContent(articles, searchQuery, selectedTopic, false, error);
    if c.Grid? {
      forall a
        ensures (exists i :: 0 <= i < |c.cards| && c.cards[i].article == a)
            <==> a in articles && Keep(a, selectedTopic, searchQuery)
      {
        FilterMembership(articles, selectedTopic, searchQuery, a);
        if a in f {
          var i :| 0 <= i < |f| && f[i] == a;
          assert c.cards[i].article == a;
        }
      }
    }
  }
}
