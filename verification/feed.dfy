/**
 The records the feed screen works on: a channel as delivered by the
 channels-with-items request, one news item of a channel, and one page of
 the swipeable slider (a category caption plus the items shown under it).
 */
module Feed {

  /** A value that may be absent: Kotlin's nullable reference. */
  datatype Option<T> = None | Some(value: T)

  /** One news entry. `published` is the ordering key the screen sorts on. */
  datatype Item = Item(title: Option<string>, description: string, published: int)

  /** One feed source; both its title and its item list may be null. */
  datatype Channel = Channel(id: string, title: Option<string>, items: Option<seq<Item>>)

  /**
   One slider page. A freshly created page has no item list, so `items`
   stays `None` until the screen assigns one.
   */
  datatype Page = Page(category: string, items: Option<seq<Item>>)

  /**
   The caption shown for a channel without a title. The application reads
   it from its string resources; no property of the model depends on the
   text itself.
   */
  const EmptyContent: string := "empty_content"

  /** The caption of a channel: its title, or the placeholder when null. */
  function Label(c: Channel): string
  {
    match c.title
    case Some(t) => t
    case None => EmptyContent
  }

  /** True when every position in `xs` is below `n`. */
  predicate InRange(xs: seq<nat>, n: nat)
  {
    forall k :: 0 <= k < |xs| ==> xs[k] < n
  }

  /** True when no value occurs twice in `xs`. */
  predicate NoDuplicates<T(==)>(xs: seq<T>)
  {
    forall i, j :: 0 <= i < j < |xs| ==> xs[i] != xs[j]
  }
}
