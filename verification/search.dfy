/**
 The search box: every channel keeps its page, but only the items whose
 title or description contains the query, compared in lower case.
 Lower-casing is modelled for ASCII letters only.
 */
module Search {
  import opened Feed

  function LowerChar(c: char): char
  {
    if 'A' <= c <= 'Z' then (c as int + 32) as char else c
  }

  function Lower(s: string): string
  {
    if |s| == 0 then "" else [LowerChar(s[0])] + Lower(s[1..])
  }

  /** True when `s` starts with `p`. */
  predicate StartsWith(s: string, p: string)
  {
    |p| <= |s| && s[..|p|] == p
  }

  /** Kotlin's `String.contains`: `p` starts somewhere in `s`; the empty string is everywhere. */
  predicate Contains(s: string, p: string)
    decreases |s|
  {
    StartsWith(s, p) || (|s| > 0 && Contains(s[1..], p))
  }

  /** `p` occurs in `s` starting at position `i`. */
  predicate OccursAt(s: string, p: string, i: int)
  {
    0 <= i <= |s| - |p| && s[i..i + |p|] == p
  }

  /** `Contains` holds exactly when `p` occurs at some position of `s`. */
  lemma {:induction false} ContainsOccurs(s: string, p: string)
    ensures Contains(s, p) <==> exists i :: OccursAt(s, p, i)
    decreases |s|
  {
    if Contains(s, p) {
      if !StartsWith(s, p) {
        ContainsOccurs(s[1..], p);
        var i :| OccursAt(s[1..], p, i);
        assert s[i + 1..i + 1 + |p|] == s[1..][i..i + |p|];
        assert OccursAt(s, p, i + 1);
      } else {
        assert OccursAt(s, p, 0);
      }
    }
    if exists i :: OccursAt(s, p, i) {
      var i :| OccursAt(s, p, i);
      if i > 0 {
        assert s[1..][i - 1..i - 1 + |p|] == s[i..i + |p|];
        assert OccursAt(s[1..], p, i - 1);
        ContainsOccurs(s[1..], p);
      } else {
        assert StartsWith(s, p);
      }
    }
  }

  /**
   The keep test for one item against the already lower-cased query: the
   title, when present, or else the description contains it.
   */
  predicate Matches(item: Item, word: string)
  {
    (item.title.Some? && Contains(Lower(item.title.value), word))
    || Contains(Lower(item.description), word)
  }

  /** The items of one channel that pass the keep test, in their order. */
  function FilterItems(items: seq<Item>, word: string): (r: seq<Item>)
    ensures |r| <= |items|
    ensures forall k :: 0 <= k < |r| ==> Matches(r[k], word)
  {
    if |items| == 0 then []
    else if Matches(items[0], word) then [items[0]] + FilterItems(items[1..], word)
    else FilterItems(items[1..], word)
  }

  /** `a` can be obtained from `b` by deleting elements. */
  predicate IsSubsequence(a: seq<Item>, b: seq<Item>)
    decreases |b|
  {
    |a| == 0 || (|b| > 0 && if a[0] == b[0] then IsSubsequence(a[1..], b[1..]) else IsSubsequence(a, b[1..]))
  }

  /** The kept items are some of the original ones, in their original order. */
  lemma {:induction false} FilterIsSubsequence(items: seq<Item>, word: string)
    ensures IsSubsequence(FilterItems(items, word), items)
    decreases |items|
  {
    if |items| > 0 {
      FilterIsSubsequence(items[1..], word);
      var r := FilterItems(items, word);
      if Matches(items[0], word) {
        assert r[1..] == FilterItems(items[1..], word);
      }
    }
  }

  /** An item is kept as many times as it occurs, if it passes the test, and never otherwise. */
  lemma {:induction false} FilterCounts(items: seq<Item>, word: string, x: Item)
    ensures multiset(FilterItems(items, word))[x] == if Matches(x, word) then multiset(items)[x] else 0
    decreases |items|
  {
    if |items| > 0 {
      FilterCounts(items[1..], word, x);
      assert items == [items[0]] + items[1..];
    }
  }

  lemma {:induction false} ContainsEmpty(s: string)
    ensures Contains(s, "")
  {
  }

  /** An empty query keeps every item. */
  lemma {:induction false} FilterEmptyQuery(items: seq<Item>)
    ensures FilterItems(items, "") == items
    decreases |items|
  {
    if |items| > 0 {
      ContainsEmpty(Lower(items[0].description));
      FilterEmptyQuery(items[1..]);
      assert [items[0]] + items[1..] == items;
    }
  }

  /** Searching the result again for the same query changes nothing. */
  lemma {:induction false} FilterIdempotent(items: seq<Item>, word: string)
    ensures FilterItems(FilterItems(items, word), word) == FilterItems(items, word)
    decreases |items|
  {
    if |items| > 0 {
      FilterIdempotent(items[1..], word);
      if Matches(items[0], word) {
        assert ([items[0]] + FilterItems(items[1..], word))[1..] == FilterItems(items[1..], word);
      }
    }
  }

  /** The page a channel gets for the lower-cased query `word`. */
  function SearchPage(c: Channel, word: string): Page
  {
    Page(Label(c), Some(if c.items.None? then [] else FilterItems(c.items.value, word)))
  }

  /**
   The search callback over the stored channel list: one page per channel,
   in order, captioned as on the main screen, always with an item list.
   */
  function SearchFilter(channels: seq<Channel>, query: string): (r: seq<Page>)
    ensures |r| == |channels|
    ensures forall i :: 0 <= i < |channels| ==>
              r[i].category == Label(channels[i]) && r[i].items.Some?
    ensures forall i :: 0 <= i < |channels| && channels[i].items.None? ==> r[i].items == Some([])
    ensures forall i :: 0 <= i < |channels| && channels[i].items.Some? ==>
              |r[i].items.value| <= |channels[i].items.value|
  {
    var word := Lower(query);
    if |channels| == 0 then []
    else seq(|channels|, i requires 0 <= i < |channels| => SearchPage(channels[i], word))
  }

  /**
   On each page, an item is shown exactly when it is one of the channel's
   items whose lower-cased title or description contains the lower-cased
   query, and the shown items keep their original order.
   */
  lemma SearchSelects(channels: seq<Channel>, query: string, i: nat)
    requires i < |channels|
    requires channels[i].items.Some?
    ensures var shown := SearchFilter(channels, query)[i].items.value;
            && IsSubsequence(shown, channels[i].items.value)
            && forall x :: (x in shown <==> x in channels[i].items.value && Matches(x, Lower(query)))
  {
    var xs := channels[i].items.value;
    var word := Lower(query);
    var shown := FilterItems(xs, word);
    FilterIsSubsequence(xs, word);
    forall x
      ensures x in shown <==> x in xs && Matches(x, word)
    {
      FilterCounts(xs, word, x);
      assert x in shown <==> x in multiset(shown);
      assert x in xs <==> x in multiset(xs);
    }
  }

  /** An empty query shows every channel's items unchanged. */
  lemma SearchEmptyQuery(channels: seq<Channel>, i: nat)
    requires i < |channels|
    ensures SearchFilter(channels, "")[i].items == Some(if channels[i].items.None? then [] else channels[i].items.value)
  {
    assert Lower("") == "";
    if channels[i].items.Some? {
      FilterEmptyQuery(channels[i].items.value);
    }
  }
}
