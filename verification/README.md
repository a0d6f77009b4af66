# RSS viewer feed screen: a Dafny model

This project models the data handling of the feed screen (`FeedActivity`) of an
Android RSS reader. Only the pure data transformations inside the screen's
callbacks are modelled:

- **Subscription string** (`subscription.dfy`, module `Subscription`). The
  subscribed channel ids are stored as one string, with the ids separated by `/`.
  The dialog's confirm button builds that string (`Encode`). The screen reads it
  back with Kotlin's `split("/")` (`Decode`). An empty stored string leaves the
  in-memory list as it is.
- **Channel selector** (`selector.dfy`, module `Selector`). The dialog starts
  from one caption, one id and one check box per channel. It also builds the
  list of checked positions (`InitialState`). Each tap adds or removes one
  position (`Toggle`).
- **Page building** (`pages.dfy`, module `Pages`). Each channel yields one slider
  page. An untitled channel gets the placeholder caption and no items. A titled
  channel's items are sorted newest first by a stable sort, in place, so the
  stored channel list changes too (`Refresh`).
- **Search** (`search.dfy`, module `Search`). Every channel keeps a page. That
  page shows the items whose lower-cased title or description contains the
  lower-cased query (`SearchFilter`).
- **Refresh and search together** (`screen.dfy`, module `Screen`). This relates
  a search with an empty query to the pages of the last refresh.

The records are in `feed.dfy` (module `Feed`). `Channel` has an id, a nullable
title and a nullable item list. `Item` has a nullable title, a description and a
`published` key, modelled as an `int`. `Page` is a caption plus an item list,
and that list is absent until the screen assigns one. Kotlin's `null` is
modelled as `Option.None`.

Subscribing does not filter the channels. The subscribed list is used only to
pre-tick the dialog's check boxes, and a refresh still shows every channel. The
model does the same.

## Model

| member | source | states |
|---|---|---|
| Subscription.Split | app/src/main/java/com/github/poscat/rss/viewer/activity/FeedActivity.kt:155 | splitting gives one piece more than there are separators, and no piece contains a separator |
| Subscription.JoinSplit | app/src/main/java/com/github/poscat/rss/viewer/activity/FeedActivity.kt:155 | joining the pieces of any stored string with `/` gives back that string |
| Subscription.SplitJoin | app/src/main/java/com/github/poscat/rss/viewer/activity/FeedActivity.kt:195-200 | splitting a non-empty joined list of separator-free ids gives back exactly that list |
| Subscription.Encode | app/src/main/java/com/github/poscat/rss/viewer/activity/FeedActivity.kt:194-202 | the confirm loop's new subscribed list holds the ids at the selected positions, in selection order; its stored string is those ids with a single `/` between neighbours and none at either end (`""` for an empty selection) |
| Subscription.Decode | app/src/main/java/com/github/poscat/rss/viewer/activity/FeedActivity.kt:152-157 | an empty stored string leaves the subscribed list unchanged; any other string becomes the unique list of separator-free pieces that joins back to it |
| Subscription.DecodeEncode | app/src/main/java/com/github/poscat/rss/viewer/activity/FeedActivity.kt:194-204 | decoding the encoding of a non-empty list of non-empty, separator-free ids returns that list, whatever the previous list was |
| Subscription.Commit | app/src/main/java/com/github/poscat/rss/viewer/activity/FeedActivity.kt:190-204 | after the confirm button, the stored string encodes the selected ids; when no selected id contains `/`, re-reading the subscribed list gives exactly the selected ids, in selection order, including for an empty selection |
| Selector.Hits | app/src/main/java/com/github/poscat/rss/viewer/activity/FeedActivity.kt:170-175 | one channel's scan records only its own position, once for every subscribed entry equal to its id: at least once exactly when its id is subscribed, and at most once when the subscribed list has no repeats |
| Selector.InitialState | app/src/main/java/com/github/poscat/rss/viewer/activity/FeedActivity.kt:162-176 | there is one caption, id and check box per channel; the caption is the title or the placeholder; a box is ticked exactly when the channel's id occurs in the subscribed list |
| Selector.SelectionSound | app/src/main/java/com/github/poscat/rss/viewer/activity/FeedActivity.kt:166-176 | every recorded position is a valid channel position whose id is subscribed |
| Selector.SelectionComplete | app/src/main/java/com/github/poscat/rss/viewer/activity/FeedActivity.kt:166-176 | every channel whose id is subscribed has its position recorded |
| Selector.SelectionOrdered | app/src/main/java/com/github/poscat/rss/viewer/activity/FeedActivity.kt:166-176 | recorded positions are in ascending order, and strictly ascending when the subscribed list has no repeats |
| Selector.InitialStateConsistent | app/src/main/java/com/github/poscat/rss/viewer/activity/FeedActivity.kt:164-176 | a box is ticked exactly when its position is in the selection list; the list holds only valid positions in ascending order; with a repeat-free subscribed list, each ticked position occurs exactly once |
| Selector.RemoveFirst | app/src/main/java/com/github/poscat/rss/viewer/activity/FeedActivity.kt:185 | removing an element by value takes away one occurrence of it and nothing else, and leaves a list without that element unchanged |
| Selector.RemoveFirstIsFirst | app/src/main/java/com/github/poscat/rss/viewer/activity/FeedActivity.kt:185 | the occurrence removed is the first one, and the elements before and after it keep their order |
| Selector.Toggle | app/src/main/java/com/github/poscat/rss/viewer/activity/FeedActivity.kt:179-187 | ticking a box appends its position when it is absent and leaves the list unchanged when it is present; unticking a listed position removes exactly one occurrence, fully so when there are no repeats, and unticking an unlisted one changes nothing; no other position's count changes; the other positions keep their relative order; "no repeats" is preserved |
| Selector.ToggleInRange | app/src/main/java/com/github/poscat/rss/viewer/activity/FeedActivity.kt:179-187 | a tap on a valid position keeps every listed position valid |
| Selector.ToggleIdempotent | app/src/main/java/com/github/poscat/rss/viewer/activity/FeedActivity.kt:179-187 | on a list without repeats, the same tap applied twice gives the same list as applying it once |
| Selector.ToggleUndo | app/src/main/java/com/github/poscat/rss/viewer/activity/FeedActivity.kt:180-186 | ticking an unlisted position and then unticking it restores the original list |
| Pages.SortPermutes | app/src/main/java/com/github/poscat/rss/viewer/activity/FeedActivity.kt:101 | sorting by `published` keeps every item, with the same number of occurrences |
| Pages.SortOrdered | app/src/main/java/com/github/poscat/rss/viewer/activity/FeedActivity.kt:101 | the sorted items are in non-increasing `published` order |
| Pages.SortStable | app/src/main/java/com/github/poscat/rss/viewer/activity/FeedActivity.kt:101 | items with equal `published` keep their original relative order |
| Pages.Refresh | app/src/main/java/com/github/poscat/rss/viewer/activity/FeedActivity.kt:92-104 | there is one page per channel, in order; an untitled channel gets the placeholder caption and no item list, and its stored entry is untouched; a titled channel's caption is its title and its page shows its stored item list, which is present exactly when the delivered list was |
| Pages.RefreshSortsPages | app/src/main/java/com/github/poscat/rss/viewer/activity/FeedActivity.kt:101-103 | a titled channel's page shows a permutation of its items in non-increasing `published` order, and items with equal timestamps keep their relative order |
| Search.ContainsOccurs | app/src/main/java/com/github/poscat/rss/viewer/activity/FeedActivity.kt:249-251 | the substring test holds exactly when the query occurs at some position of the text |
| Search.FilterItems | app/src/main/java/com/github/poscat/rss/viewer/activity/FeedActivity.kt:246-253 | every kept item passes the title-or-description test, and no more items are kept than there were |
| Search.FilterIsSubsequence | app/src/main/java/com/github/poscat/rss/viewer/activity/FeedActivity.kt:246-253 | the kept items are a subsequence of the channel's items: some of them, in their original order |
| Search.FilterCounts | app/src/main/java/com/github/poscat/rss/viewer/activity/FeedActivity.kt:246-253 | an item is kept exactly as many times as it occurs when it passes the test, and never when it fails it |
| Search.FilterEmptyQuery | app/src/main/java/com/github/poscat/rss/viewer/activity/FeedActivity.kt:249-252 | an empty query keeps every item |
| Search.FilterIdempotent | app/src/main/java/com/github/poscat/rss/viewer/activity/FeedActivity.kt:246-253 | filtering the result again with the same query changes nothing |
| Search.SearchFilter | app/src/main/java/com/github/poscat/rss/viewer/activity/FeedActivity.kt:236-261 | there is one page per channel, in order (none for no channels); each caption is the title or the placeholder; every page has an item list, which is empty for a channel with no items, and no longer than the channel's own |
| Search.SearchSelects | app/src/main/java/com/github/poscat/rss/viewer/activity/FeedActivity.kt:237-253 | a page shows an item exactly when the item belongs to the channel and its lower-cased title (if any) or description contains the lower-cased query; shown items keep their original order |
| Search.SearchEmptyQuery | app/src/main/java/com/github/poscat/rss/viewer/activity/FeedActivity.kt:236-261 | an empty query shows each channel's items unchanged, and an empty list for a channel without items |
| Screen.EmptySearchAfterRefresh | app/src/main/java/com/github/poscat/rss/viewer/activity/FeedActivity.kt:240-255 | after a refresh, an empty search gives back the same page for every titled channel with items; an untitled channel's page instead gains the channel's items, which the refresh had not shown |

## Left out

- Network and concurrency: the Retrofit client, the two HTTP requests and the
  RxJava `zip` with its scheduler hops are left out. `Refresh` takes the zipped
  channel list as its input. `createZipper` only pairs the two lists.
- Preference storage: the reads and writes of "channelId" are left out. `Decode`
  takes the stored string as a parameter, and `Encode`/`Commit` return the string
  to be stored.
- View and UI wiring is left out: the status bar, the RecyclerView, the FAB
  scroll listener, the progress bar, the dialog's title and buttons, and the
  SearchView listener. Handing pages to the adapter is modelled as returning them.
- `NewsPageAdapter` and `ImageFilter` are left out. They are view binding, image
  loading and a bitmap filter done by Android and third-party libraries.
- Lower-casing maps only the ASCII letters `A`-`Z`. The JVM's locale- and
  Unicode-aware `toLowerCase` is not reproduced.
- The placeholder caption is a fixed stand-in string. The app reads the real
  text from its resources, and no property depends on it.
- `Item` keeps only the fields the screen reads. The author, link and enclosures
  are used only by the page adapter. `published` is an `int` standing in for the
  DTO's ordered key.
- Subscription.Encode and Subscription.Commit require every selected position to
  be a valid channel position. In the app this always holds, because positions
  come from the dialog's own list (see `Selector.ToggleInRange`). An invalid
  position would make the app throw an index error, and that path is not
  modelled.
- Kotlin's `sortByDescending` is a library merge sort. It is modelled as a
  stable insertion sort with the same result, because any stable sort by the
  same key produces the same list.
