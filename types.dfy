/** Shared value types of the article browser: one parsed row of the
    dataset, and the optional value used for `string | null`. */
module Types {

  /** One row of the articles dataset (title, topic and link target). The
      `url` is the key under which the card for the row is rendered. */
  datatype Article = Article(title: string, topic: string, url: string)

  /** `T | null` in the source. */
  datatype Option<T> = None | Some(value: T)
}
