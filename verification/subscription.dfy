/**
 The subscription string kept in the preference store under "channelId":
 the subscribed channel ids separated by single slashes. The dialog's
 confirm button writes it (`Encode`) and the screen reads it back
 (`Decode`); the storage itself is left to the caller.
 */
module Subscription {
  import opened Feed

  const Separator: char := '/'

  /** True when the separator does not occur in any of `xs`. */
  predicate NoSeparators(xs: seq<string>)
  {
    forall i :: 0 <= i < |xs| ==> Separator !in xs[i]
  }

  /** Number of occurrences of `c` in `s`. */
  function CountChar(s: string, c: char): nat
  {
    if |s| == 0 then 0 else (if s[0] == c then 1 else 0) + CountChar(s[1..], c)
  }

  /** The pieces written one after the other with a single separator between
      neighbours and none before the first or after the last. */
  function Join(xs: seq<string>): string
  {
    if |xs| == 0 then ""
    else if |xs| == 1 then xs[0]
    else xs[0] + [Separator] + Join(xs[1..])
  }

  /**
   Kotlin's `split("/")`: the maximal separator-free runs of `s`, in order.
   An empty string, and each pair of adjacent separators, yield an empty piece.
   */
  function Split(s: string): (r: seq<string>)
    ensures |r| == 1 + CountChar(s, Separator)
    ensures NoSeparators(r)
    decreases |s|
  {
    if |s| == 0 then [""]
    else if s[0] == Separator then [""] + Split(s[1..])
    else
      var rest := Split(s[1..]);
      [[s[0]] + rest[0]] + rest[1..]
  }

  /** The channel ids at the selected dialog positions, in selection order. */
  function Selected(ids: seq<string>, userItems: seq<nat>): (r: seq<string>)
    requires InRange(userItems, |ids|)
  {
    seq(|userItems|, k requires 0 <= k < |userItems| => ids[userItems[k]])
  }

  lemma {:induction false} JoinSnoc(xs: seq<string>, x: string)
    requires |xs| >= 1
    ensures Join(xs + [x]) == Join(xs) + [Separator] + x
    decreases |xs|
  {
    if |xs| == 1 {
      assert xs + [x] == [xs[0], x];
      assert [xs[0], x][1..] == [x];
    } else {
      assert (xs + [x])[1..] == xs[1..] + [x];
      JoinSnoc(xs[1..], x);
    }
  }

  /**
   The confirm button of the channel dialog: the ids at the selected
   positions are collected into the new subscribed list and appended to
   the stored text, each followed by a separator unless it is the last.
   */
  method Encode(listItemsId: seq<string>, userItems: seq<nat>) returns (item: string, subscribed: seq<string>)
    requires InRange(userItems, |listItemsId|)
    ensures subscribed == Selected(listItemsId, userItems)
    ensures item == Join(subscribed)
  {
    item := "";
    subscribed := [];
    var i := 0;
    while i < |userItems|
      invariant 0 <= i <= |userItems|
      invariant subscribed == Selected(listItemsId, userItems[..i])
      invariant item == if i == 0 then "" else Join(subscribed) + (if i != |userItems| then [Separator] else "")
    {
      var id := listItemsId[userItems[i]];
      if i > 0 {
        JoinSnoc(subscribed, id);
      }
      subscribed := subscribed + [id];
      item := item + id;
      if i != |userItems| - 1 {
        item := item + [Separator];
      }
      i := i + 1;
    }
    assert userItems[..i] == userItems;
  }

  /** Every string is re-encoded from its own split. */
  lemma {:induction false} JoinSplit(s: string)
    ensures Join(Split(s)) == s
    decreases |s|
  {
    if |s| == 0 {
    } else if s[0] == Separator {
      JoinSplit(s[1..]);
      assert ([""] + Split(s[1..]))[1..] == Split(s[1..]);
      assert s == [Separator] + s[1..];
    } else {
      var rest := Split(s[1..]);
      JoinSplit(s[1..]);
      var r := [[s[0]] + rest[0]] + rest[1..];
      assert r[1..] == rest[1..];
      assert s == [s[0]] + s[1..];
    }
  }

  lemma {:induction false} SplitPlain(x: string)
    requires Separator !in x
    ensures Split(x) == [x]
    decreases |x|
  {
    if |x| > 0 {
      assert Separator !in x[1..] by {
        forall k | 0 <= k < |x[1..]|
          ensures x[1..][k] != Separator
        {
          assert x[1..][k] == x[k + 1];
        }
      }
      SplitPlain(x[1..]);
      assert [x[0]] + x[1..] == x;
    }
  }

  lemma {:induction false} SplitThrough(x: string, t: string)
    requires Separator !in x
    ensures Split(x + [Separator] + t) == [x] + Split(t)
    decreases |x|
  {
    var s := x + [Separator] + t;
    if |x| == 0 {
      assert s[1..] == t;
    } else {
      assert Separator !in x[1..] by {
        forall k | 0 <= k < |x[1..]|
          ensures x[1..][k] != Separator
        {
          assert x[1..][k] == x[k + 1];
        }
      }
      assert s[1..] == x[1..] + [Separator] + t;
      SplitThrough(x[1..], t);
      assert [s[0]] + x[1..] == x;
    }
  }

  /** Splitting undoes joining whenever no piece holds the separator. */
  lemma {:induction false} SplitJoin(xs: seq<string>)
    requires |xs| >= 1
    requires NoSeparators(xs)
    ensures Split(Join(xs)) == xs
    decreases |xs|
  {
    if |xs| == 1 {
      SplitPlain(xs[0]);
    } else {
      SplitJoin(xs[1..]);
      SplitThrough(xs[0], Join(xs[1..]));
      assert [xs[0]] + xs[1..] == xs;
    }
  }

  /**
   Reading the stored text back: an empty text keeps the subscribed list
   as it is, any other text replaces it by its split.
   */
  function Decode(stored: string, current: seq<string>): (r: seq<string>)
    ensures stored == "" ==> r == current
    ensures stored != "" ==> Join(r) == stored && NoSeparators(r)
  {
    if stored == "" then current
    else
      JoinSplit(stored);
      Split(stored)
  }

  /** Decoding the encoding of a non-empty list of non-empty,
      separator-free ids gives that list back, whatever was there before. */
  lemma {:induction false} DecodeEncode(ids: seq<string>, current: seq<string>)
    requires |ids| >= 1
    requires forall i :: 0 <= i < |ids| ==> ids[i] != ""
    requires NoSeparators(ids)
    ensures Decode(Join(ids), current) == ids
  {
    if |ids| == 1 {
      assert Join(ids) == ids[0];
    } else {
      assert |Join(ids)| > 0;
    }
    SplitJoin(ids);
  }

  /**
   The confirm button as a whole: the selection is encoded, the text is
   stored, and the subscribed list is read back from the stored text.
   */
  method Commit(listItemsId: seq<string>, userItems: seq<nat>) returns (stored: string, subscribed: seq<string>)
    requires InRange(userItems, |listItemsId|)
    ensures stored == Join(Selected(listItemsId, userItems))
    ensures NoSeparators(Selected(listItemsId, userItems)) ==> subscribed == Selected(listItemsId, userItems)
  {
    var inMemory;
    stored, inMemory := Encode(listItemsId, userItems);
    subscribed := Decode(stored, inMemory);
    if NoSeparators(inMemory) && stored != "" {
      SplitJoin(inMemory);
    }
  }
}
