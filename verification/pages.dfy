/**
 Building the slider pages once the channel list has arrived: one page per
 channel, the untitled ones captioned with the placeholder and left without
 items, the titled ones showing their items newest first. The sort is
 done in place in the app, so the stored channel list afterwards holds
 the sorted item lists too.
 */
module Pages {
  import opened Feed

  /** The screen after a refresh: the stored channel list and the pages shown. */
  datatype FeedState = FeedState(channelList: seq<Channel>, pages: seq<Page>)

  /** No item is followed by a strictly newer one. */
  predicate NewestFirst(items: seq<Item>)
  {
    forall i, j :: 0 <= i < j < |items| ==> items[i].published >= items[j].published
  }

  /** The items published at `key`, in their order in `items`. */
  function PublishedAt(items: seq<Item>, key: int): seq<Item>
  {
    if |items| == 0 then []
    else (if items[0].published == key then [items[0]] else []) + PublishedAt(items[1..], key)
  }

  /** Places `x` before the first item that is not newer than it. */
  function Insert(x: Item, sorted: seq<Item>): seq<Item>
  {
    if |sorted| == 0 || x.published >= sorted[0].published then [x] + sorted
    else [sorted[0]] + Insert(x, sorted[1..])
  }

  /**
   Kotlin's `sortByDescending { it.published }`: a stable sort, newest
   first, written here as an insertion sort.
   */
  function SortByNewest(items: seq<Item>): seq<Item>
  {
    if |items| == 0 then [] else Insert(items[0], SortByNewest(items[1..]))
  }

  lemma {:induction false} PublishedAtAppend(a: seq<Item>, b: seq<Item>, key: int)
    ensures PublishedAt(a + b, key) == PublishedAt(a, key) + PublishedAt(b, key)
    decreases |a|
  {
    if |a| == 0 {
      assert a + b == b;
    } else {
      assert (a + b)[1..] == a[1..] + b;
      PublishedAtAppend(a[1..], b, key);
    }
  }

  lemma {:induction false} InsertPermutes(x: Item, sorted: seq<Item>)
    ensures multiset(Insert(x, sorted)) == multiset(sorted) + multiset{x}
    decreases |sorted|
  {
    if |sorted| > 0 && x.published < sorted[0].published {
      InsertPermutes(x, sorted[1..]);
      assert sorted == [sorted[0]] + sorted[1..];
    }
  }

  lemma {:induction false} InsertOrdered(x: Item, sorted: seq<Item>)
    requires NewestFirst(sorted)
    ensures NewestFirst(Insert(x, sorted))
    ensures |Insert(x, sorted)| > 0
    ensures Insert(x, sorted)[0] == x || (|sorted| > 0 && Insert(x, sorted)[0] == sorted[0])
    decreases |sorted|
  {
    if |sorted| > 0 && x.published < sorted[0].published {
      InsertOrdered(x, sorted[1..]);
      var t := Insert(x, sorted[1..]);
      forall i, j | 0 <= i < j < |[sorted[0]] + t|
        ensures ([sorted[0]] + t)[i].published >= ([sorted[0]] + t)[j].published
      {
        if i == 0 {
          InsertBounded(x, sorted[1..], sorted[0].published, j - 1);
        }
      }
    }
  }

  /** Inserting into items no newer than `bound` keeps them no newer, given `x` is not. */
  lemma {:induction false} InsertBounded(x: Item, sorted: seq<Item>, bound: int, k: int)
    requires NewestFirst(sorted)
    requires x.published <= bound
    requires forall i :: 0 <= i < |sorted| ==> sorted[i].published <= bound
    requires 0 <= k < |Insert(x, sorted)|
    ensures Insert(x, sorted)[k].published <= bound
    decreases |sorted|
  {
    if |sorted| > 0 && x.published < sorted[0].published && k > 0 {
      InsertBounded(x, sorted[1..], bound, k - 1);
    }
  }

  lemma {:induction false} InsertStable(x: Item, sorted: seq<Item>, key: int)
    ensures PublishedAt(Insert(x, sorted), key) == PublishedAt([x], key) + PublishedAt(sorted, key)
    decreases |sorted|
  {
    if |sorted| == 0 || x.published >= sorted[0].published {
      PublishedAtAppend([x], sorted, key);
    } else {
      InsertStable(x, sorted[1..], key);
      PublishedAtAppend([sorted[0]], Insert(x, sorted[1..]), key);
      PublishedAtAppend([sorted[0]], sorted[1..], key);
      assert [sorted[0]] + sorted[1..] == sorted;
    }
  }

  /** The sort only reorders: every item is kept, as often as it occurred. */
  lemma {:induction false} SortPermutes(items: seq<Item>)
    ensures multiset(SortByNewest(items)) == multiset(items)
    decreases |items|
  {
    if |items| > 0 {
      SortPermutes(items[1..]);
      InsertPermutes(items[0], SortByNewest(items[1..]));
      assert items == [items[0]] + items[1..];
    }
  }

  /** The sorted items never go from older to newer. */
  lemma {:induction false} SortOrdered(items: seq<Item>)
    ensures NewestFirst(SortByNewest(items))
    decreases |items|
  {
    if |items| > 0 {
      SortOrdered(items[1..]);
      InsertOrdered(items[0], SortByNewest(items[1..]));
    }
  }

  /** Items with the same timestamp keep their original relative order. */
  lemma {:induction false} SortStable(items: seq<Item>, key: int)
    ensures PublishedAt(SortByNewest(items), key) == PublishedAt(items, key)
    decreases |items|
  {
    if |items| > 0 {
      SortStable(items[1..], key);
      InsertStable(items[0], SortByNewest(items[1..]), key);
      PublishedAtAppend([items[0]], items[1..], key);
      assert [items[0]] + items[1..] == items;
    }
  }

  /** The item list a titled channel keeps after the in-place sort. */
  function SortedItems(items: Option<seq<Item>>): Option<seq<Item>>
  {
    match items
    case None => None
    case Some(xs) => Some(SortByNewest(xs))
  }

  /** The page shown for one channel of the stored list. */
  function PageOf(c: Channel): Page
  {
    match c.title
    case None => Page(EmptyContent, None)
    case Some(t) => Page(t, c.items)
  }

  /**
   The refresh callback: titled channels get their items sorted, the
   untitled ones are left as they are, and each channel yields one page.
   */
  function Refresh(channels: seq<Channel>): (s: FeedState)
    ensures |s.channelList| == |s.pages| == |channels|
    ensures forall i :: 0 <= i < |channels| && channels[i].title.None? ==>
              s.channelList[i] == channels[i] && s.pages[i] == Page(EmptyContent, None)
    ensures forall i :: 0 <= i < |channels| && channels[i].title.Some? ==>
              && s.channelList[i].id == channels[i].id
              && s.channelList[i].title == channels[i].title
              && s.pages[i].category == channels[i].title.value
              && s.pages[i].items == s.channelList[i].items
              && s.pages[i].items.Some? == channels[i].items.Some?
  {
    var sorted := seq(|channels|, i requires 0 <= i < |channels| =>
      if channels[i].title.None? then channels[i]
      else channels[i].(items := SortedItems(channels[i].items)));
    FeedState(sorted, seq(|sorted|, i requires 0 <= i < |sorted| => PageOf(sorted[i])))
  }

  /**
   Every page of a titled channel with items shows those items, and only
   those, newest first, with equal timestamps in their original order.
   */
  lemma RefreshSortsPages(channels: seq<Channel>, i: nat)
    requires i < |channels|
    requires channels[i].title.Some? && channels[i].items.Some?
    ensures var page := Refresh(channels).pages[i];
            && page.items.Some?
            && multiset(page.items.value) == multiset(channels[i].items.value)
            && NewestFirst(page.items.value)
            && forall key :: PublishedAt(page.items.value, key) == PublishedAt(channels[i].items.value, key)
  {
    var xs := channels[i].items.value;
    SortPermutes(xs);
    SortOrdered(xs);
    forall key
      ensures PublishedAt(SortByNewest(xs), key) == PublishedAt(xs, key)
    {
      SortStable(xs, key);
    }
  }
}
