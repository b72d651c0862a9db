# Article browser: verified model of the store and the home-page derivations

A single-page article browser loads a CSV file of articles (title, topic,
url), keeps them in a small state store together with a search query, a
selected topic, a loading flag and an optional error message, and derives
from that state the list of topic buttons, the filtered article list and
which body the page shows (placeholders, error, "No Articles Found", or
one card per article).

This project models, in Dafny:

- `types.dfy` (`Types`): the `Article` record and `Option` for `string | null`.
- `text.dfy` (`Text`): `toLowerCase` (per character), `String.prototype.includes`
  (substring containment), the default `Array.sort` comparison (lexicographic
  order on characters) and the sorted set of distinct values
  (`Array.from(new Set(xs)).sort()`), with the order laws and the fact that a
  strictly sorted list is determined by its set of values.
- `home_page.dfy` (`HomePage`): the `topics` memo, the `filteredArticles` memo
  and `renderContent`, as pure functions of the store state, with their
  properties as lemmas.
- `article_store.dfy` (`ArticleStore`): the store as a class `Store` whose
  fields are updated in place by `FetchArticles`, `SetSearchQuery` and
  `SetSelectedTopic`. The network request and the CSV parser are replaced by
  an outcome parameter: `NotOk`, `Rejected(thrown)` (an `Error` with a
  message, or some other thrown value), `ParseFailed`, `Parsed(rows)`.
  `fetchArticles` is split at its first `await` into `BeginFetch` (mark
  loading, clear the error) and `SettleFetch(outcome)`, so the state seen
  while the request is in flight is stated too; `FetchArticles` runs both.
  The class keeps the invariant `loading ==> error == None`.
- `scenarios.dfy` (`Scenarios`): sequences of operations on the store and the
  page together, traced from the initial state, a non-ok response, an empty
  load, and a three-article load followed by a topic choice and a search.

Two details of the source are modelled as written:

- The page tests `if (error)`, so an error message that is the empty string
  (an `Error` thrown with an empty message) does not show the error view;
  `ErrorShown` is JavaScript truthiness of `string | null`.
- The sentinel `"All"` is prepended to the topic list unconditionally, so an
  article whose topic is literally `"All"` yields that value twice in the
  list, and choosing it means "no topic filter".

## Model

| member | source | states |
|---|---|---|
| `Text.ToLower` | src/pages/HomePage.tsx:32 | lower-casing keeps the length, lowers each character in place, and leaves no upper-case letter A-Z in the result |
| `Text.ToLowerIdempotent` | src/pages/HomePage.tsx:32 | lower-casing an already lower-cased string changes nothing |
| `Text.IncludesIff` | src/pages/HomePage.tsx:32 | `Includes(s, sub)` holds exactly when `sub` occurs in `s` at some position, both directions |
| `Text.IncludesEmpty` | src/pages/HomePage.tsx:32 | every string includes the empty string, so an empty query matches every title |
| `Text.MissingFirstCharNotIncluded` | src/pages/HomePage.tsx:32 | a string that lacks the first character of `sub` does not include `sub` |
| `Text.LexLessIrreflexive` | src/pages/HomePage.tsx:27 | the sort comparison never puts a string before itself |
| `Text.LexLessTransitive` | src/pages/HomePage.tsx:27 | the sort comparison is transitive |
| `Text.LexLessTotal` | src/pages/HomePage.tsx:27 | any two different strings are ordered one way or the other |
| `Text.LexLessAsymmetric` | src/pages/HomePage.tsx:27 | if `a` sorts before `b` then `b` does not sort before `a` |
| `Text.InsertUnique` | src/pages/HomePage.tsx:26-27 | adding a value to a strictly sorted list keeps it strictly sorted and its values are the old ones plus the new one |
| `Text.SortedDistinct` | src/pages/HomePage.tsx:26-27 | the result is strictly ascending (so duplicate-free) and holds exactly the values of the input |
| `Text.StrictlySortedDistinct` | src/pages/HomePage.tsx:26-27 | a strictly ascending list has no repeated value |
| `Text.StrictlySortedUnique` | src/pages/HomePage.tsx:26-27 | two strictly ascending lists with the same values are equal |
| `HomePage.TopicsOf` | src/pages/HomePage.tsx:26 | the mapped list has one entry per article, the i-th being the i-th article's topic |
| `HomePage.TopicsEmptyIff` | src/pages/HomePage.tsx:25 | the topic list is empty exactly when there are no articles (never `["All"]` alone) |
| `HomePage.TopicsShape` | src/pages/HomePage.tsx:24-28 | with articles, the list starts with "All", the rest is strictly ascending and duplicate-free, holds every article's topic and only articles' topics |
| `HomePage.TopicsUnique` | src/pages/HomePage.tsx:26-27 | any strictly ascending list of exactly the articles' topics, after "All", is the topic list |
| `HomePage.FilterArticles` | src/pages/HomePage.tsx:29-35 | filtering never lengthens the list |
| `HomePage.FilterMembership` | src/pages/HomePage.tsx:30-33 | an article is in the result iff it is loaded, its topic matches (or "All" is selected), and its lower-cased title includes the lower-cased query |
| `HomePage.SearchMatchLowerQuery` | src/pages/HomePage.tsx:32 | the search ignores the query's case: a lower-cased query matches exactly the titles the original query matches |
| `HomePage.SearchMatchLowerTitle` | src/pages/HomePage.tsx:32 | the search ignores the title's case: an article with its title lower-cased matches exactly the same queries |
| `HomePage.FilterCount` | src/pages/HomePage.tsx:29-34 | each article occurs in the result as often as in the input if it passes the filter and not at all otherwise (no duplication, no loss) |
| `HomePage.FilterIsSubsequence` | src/pages/HomePage.tsx:29-34 | the result is an order-preserving subsequence of the articles |
| `HomePage.FilterNothingSelected` | src/pages/HomePage.tsx:31-32 | topic "All" with an empty query gives exactly the articles, in order |
| `HomePage.FilterIdempotent` | src/pages/HomePage.tsx:29-35 | filtering the filtered list again by the same criteria changes nothing |
| `HomePage.FilterByQueryAfterTopic` | src/pages/HomePage.tsx:29-35 | topic-only filtering followed by query-only filtering equals the combined filter |
| `HomePage.FilterByTopicAfterQuery` | src/pages/HomePage.tsx:29-35 | query-only filtering followed by topic-only filtering equals the combined filter |
| `HomePage.FilterConjunction` | src/pages/HomePage.tsx:29-35 | the combined filter equals both compositions of the single-criterion filters, and its members are the intersection of the two single-criterion results |
| `HomePage.TopicButtonNonEmpty` | src/pages/HomePage.tsx:126-130 | choosing any topic from the topic list with an empty query leaves at least one article shown |
| `HomePage.RenderContent` | src/pages/HomePage.tsx:36-75 | priority loading, then a truthy error, then an empty filtered list, then cards: loading gives exactly 6 placeholders; the error view carries the stored message; the grid has one card per filtered article, in filtered order, keyed by its url, at its index |
| `HomePage.GridShowsFiltered` | src/pages/HomePage.tsx:55-75 | when not loading and no error is shown, the page shows the empty state or a grid whose cards are exactly the loaded articles that pass the filter |
| `ArticleStore.CaughtMessage` | src/hooks/useArticleStore.ts:42 | a thrown `Error` contributes its own message, any other thrown value the fixed "An unknown error occurred." |
| `ArticleStore.Store.StatusExactlyOne` | src/hooks/useArticleStore.ts:15-45 | in every state the store's operations keep (loading implies no error), exactly one of loading, failed (an error recorded) and ready holds |
| `ArticleStore.Store.constructor` | src/hooks/useArticleStore.ts:15-20 | initial state: no articles, empty query, topic "All", loading, no error |
| `ArticleStore.Store.BeginFetch` | src/hooks/useArticleStore.ts:22 | starting a load sets loading and clears the error, leaving articles and both filters unchanged |
| `ArticleStore.Store.SettleFetch` | src/hooks/useArticleStore.ts:23-44 | every outcome clears loading; non-ok records "Failed to fetch articles.csv", a thrown value its caught message, a parse error "Failed to parse articles data.", each keeping the articles; parsed rows replace the articles wholesale and leave the error as it was; filters untouched |
| `ArticleStore.Store.FetchArticles` | src/hooks/useArticleStore.ts:21-45 | the whole load: ends not loading, with the outcome's error message or, on parse success, no error and exactly the parsed rows; failures keep the articles; query and topic never change |
| `ArticleStore.Store.SetSearchQuery` | src/hooks/useArticleStore.ts:46 | any string becomes the query; no other field changes |
| `ArticleStore.Store.SetSelectedTopic` | src/hooks/useArticleStore.ts:47 | any string becomes the selected topic; no other field changes |
| `Scenarios.InitialScenario` | src/hooks/useArticleStore.ts:16-20 | a fresh store renders 6 placeholders and no topic buttons |
| `Scenarios.TopicThenSearchScenario` | src/pages/HomePage.tsx:24-35 | after loading ("Intro to AI", AI), ("Deep AI", AI), ("Web Basics", Web), the topics are All, AI, Web; topic AI shows the first two; adding the query "deep" shows only the second |
| `Scenarios.NotOkScenario` | src/hooks/useArticleStore.ts:25-26 | a non-ok response from a fresh store shows the error view with "Failed to fetch articles.csv" and leaves no articles |
| `Scenarios.EmptyLoadScenario` | src/pages/HomePage.tsx:55-63 | a load parsing to no rows, with no filter, shows "No Articles Found", not the error view |

## Left out

- The network request (`fetch('/articles.csv')`, `response.text()`) is I/O; it is replaced by the `FetchOutcome` parameter.
- The CSV parser (Papa Parse) is a third-party library whose source is not part of this model; only its two callbacks are modelled, as the `Parsed(rows)` and `ParseFailed` outcomes. How rows are built from CSV text (headers, blank lines, extra columns) is not modelled.
- `FetchOutcome.Parsed`: parsed rows are assumed complete, each with a string title, topic and url. With a header row, a short row or a missing column leaves that field `undefined` in the source; `article.title.toLowerCase()` then throws during rendering and `.sort()` places an undefined topic last. That crash and that ordering are not modelled.
- `Store.FetchArticles`: the asynchronous interleaving of two loads in flight at once (last write wins) is not modelled as one call; `BeginFetch` and `SettleFetch` are separate methods, so a caller may interleave setters between them, but concurrent loads are not explored.
- `Text.LowerChar`: only ASCII A-Z are lowered; full Unicode case mapping (including mappings that change a string's length) is not modelled.
- `Text.LexLessTotal`: the order compares whole characters (code points); JavaScript's default sort compares UTF-16 code units, which differs only for characters outside the Basic Multilingual Plane.
- The 300 ms debounce of the search box (`useDebounce`, `localSearch`) is timer-driven UI plumbing and is not modelled; the model uses the committed query.
- Zustand subscription and notification, React memoisation and effects, and `console.error` logging are not modelled.
- Markup, class names and animation, including `src/components/ArticleCard.tsx` (the stagger delay is float arithmetic); a card is modelled as its key, article and index only.
