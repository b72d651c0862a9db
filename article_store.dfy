/** The application state store: the loaded articles, the load status and
    the two filter criteria, with the operations that change them. */
module ArticleStore {
  import opened Types

  const FetchFailedMessage: string := "Failed to fetch articles.csv"
  const ParseFailedMessage: string := "Failed to parse articles data."
  const UnknownErrorMessage: string := "An unknown error occurred."

  /** A value thrown while fetching: an `Error` object carrying a message,
      or anything else. */
  datatype Thrown = ErrorInstance(message: string) | NonErrorValue

  /** How a load ends, standing in for the network request and the CSV
      parser: the response was not ok; the request or the body read
      threw; the parser reported an error; or the parser produced rows. */
  datatype FetchOutcome =
    | NotOk
    | Rejected(thrown: Thrown)
    | ParseFailed
    | Parsed(rows: seq<Article>)

  /** The message the `catch` block stores for a thrown value. */
  function CaughtMessage(t: Thrown): (m: string)
    ensures t.ErrorInstance? ==> m == t.message
    ensures t.NonErrorValue? ==> m == UnknownErrorMessage
  {
    match t
    case ErrorInstance(message) => message
    case NonErrorValue => UnknownErrorMessage
  }

  class Store {
    var articles: seq<Article>
    var searchQuery: string
    var selectedTopic: string
    var loading: bool
    var error: Option<string>

    /** While a load is in flight no error is recorded. */
    ghost predicate Valid()
      reads this
    {
      loading ==> error == None
    }

    /** In every state the store reaches, exactly one of "loading",
        "failed" (an error is recorded) and "ready" holds. */
    lemma StatusExactlyOne()
      requires Valid()
      ensures (if loading then 1 else 0) + (if error.Some? then 1 else 0)
            + (if !loading && error.None? then 1 else 0) == 1
    {
    }

    /** The initial state: nothing loaded, no filter, loading. */
    constructor ()
      ensures Valid()
      ensures articles == [] && searchQuery == "" && selectedTopic == "All"
      ensures loading && error == None
    {
      articles := [];
      searchQuery := "";
      selectedTopic := "All";
      loading := true;
      error := None;
    }

    /** The first step of `fetchArticles`: mark loading and clear the error. */
    method BeginFetch()
      modifies this`loading, this`error
      ensures Valid()
      ensures loading && error == None
      ensures articles == old(articles)
      ensures searchQuery == old(searchQuery) && selectedTopic == old(selectedTopic)
    {
      loading := true;
      error := None;
    }

    /** The rest of `fetchArticles`, once the request has settled: every
        path clears `loading`; a failure records its message and keeps the
        old articles; parsed rows replace the articles and leave the error
        as it was. The filters are never touched. */
    method SettleFetch(outcome: FetchOutcome)
      modifies this`articles, this`loading, this`error
      ensures Valid()
      ensures !loading
      ensures outcome.NotOk? ==> error == Some(FetchFailedMessage)
      ensures outcome.Rejected? ==> error == Some(CaughtMessage(outcome.thrown))
      ensures outcome.ParseFailed? ==> error == Some(ParseFailedMessage)
      ensures outcome.Parsed? ==> error == old(error)
      ensures articles == if outcome.Parsed? then outcome.rows else old(articles)
      ensures searchQuery == old(searchQuery) && selectedTopic == old(selectedTopic)
    {
      match outcome {
        case NotOk =>
          var thrown := ErrorInstance(FetchFailedMessage);
          error := Some(CaughtMessage(thrown));
          loading := false;
        case Rejected(thrown) =>
          error := Some(CaughtMessage(thrown));
          loading := false;
        case ParseFailed =>
          error := Some(ParseFailedMessage);
          loading := false;
        case Parsed(rows) =>
          articles := rows;
          loading := false;
      }
    }

    /** `fetchArticles()` run to completion with the given outcome. */
    method FetchArticles(outcome: FetchOutcome)
      modifies this`articles, this`loading, this`error
      ensures Valid()
      ensures !loading
      ensures outcome.NotOk? ==> error == Some(FetchFailedMessage)
      ensures outcome.Rejected? ==> error == Some(CaughtMessage(outcome.thrown))
      ensures outcome.ParseFailed? ==> error == Some(ParseFailedMessage)
      ensures outcome.Parsed? ==> error == None
      ensures articles == if outcome.Parsed? then outcome.rows else old(articles)
      ensures searchQuery == old(searchQuery) && selectedTopic == old(selectedTopic)
    {
      BeginFetch();
      SettleFetch(outcome);
    }

    /** `setSearchQuery(query)`: any string, no other field changes. */
    method SetSearchQuery(query: string)
      modifies this`searchQuery
      ensures Valid() == old(Valid())
      ensures searchQuery == query
      ensures articles == old(articles) && selectedTopic == old(selectedTopic)
      ensures loading == old(loading) && error == old(error)
    {
      searchQuery := query;
    }

    /** `setSelectedTopic(topic)`: any string, no other field changes. */
    method SetSelectedTopic(topic: string)
      modifies this`selectedTopic
      ensures Valid() == old(Valid())
      ensures selectedTopic == topic
      ensures articles == old(articles) && searchQuery == old(searchQuery)
      ensures loading == old(loading) && error == old(error)
    {
      selectedTopic := topic;
    }
  }
}
