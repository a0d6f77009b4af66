/**
 The state behind the channel-selection dialog: one caption, one id and one
 check box per channel, and the list of checked positions. The dialog opens
 with the subscribed positions in channel order; each later tick appends its
 position at the end, so afterwards the list is in tap order.
 */
module Selector {
  import opened Feed

  datatype SelectorState = SelectorState(
    listItems: seq<string>,
    listItemsId: seq<string>,
    checkedItems: seq<bool>,
    userItems: seq<nat>)

  predicate Ascending(xs: seq<nat>)
  {
    forall i, j :: 0 <= i < j < |xs| ==> xs[i] <= xs[j]
  }

  predicate StrictlyAscending(xs: seq<nat>)
  {
    forall i, j :: 0 <= i < j < |xs| ==> xs[i] < xs[j]
  }

  /**
   The scan of the subscribed list for one channel: position `idx` is
   recorded once for every subscribed entry equal to the channel's id.
   */
  function Hits(subscribed: seq<string>, id: string, idx: nat): (r: seq<nat>)
    ensures forall k :: 0 <= k < |r| ==> r[k] == idx
    ensures |r| == multiset(subscribed)[id]
    ensures |r| > 0 <==> id in subscribed
    ensures NoDuplicates(subscribed) ==> |r| <= 1
  {
    if |subscribed| == 0 then []
    else
      var rest := Hits(subscribed[1..], id, idx);
      assert subscribed == [subscribed[0]] + subscribed[1..];
      assert id in subscribed <==> subscribed[0] == id || id in subscribed[1..];
      if subscribed[0] == id then
        assert NoDuplicates(subscribed) ==> id !in subscribed[1..];
        [idx] + rest
      else rest
  }

  /** The positions recorded while scanning `channels`, numbered from `start`. */
  function Selection(channels: seq<Channel>, subscribed: seq<string>, start: nat): seq<nat>
  {
    if |channels| == 0 then []
    else Hits(subscribed, channels[0].id, start) + Selection(channels[1..], subscribed, start + 1)
  }

  /**
   The dialog state before the user touches it: captions (title or
   placeholder), ids, a ticked box for every channel whose id was matched in
   the subscribed list, and the matched positions.
   */
  function InitialState(channels: seq<Channel>, subscribed: seq<string>): (s: SelectorState)
    ensures |s.listItems| == |s.listItemsId| == |s.checkedItems| == |channels|
    ensures forall i :: 0 <= i < |channels| ==>
              s.listItems[i] == Label(channels[i]) && s.listItemsId[i] == channels[i].id
    ensures forall i :: 0 <= i < |channels| ==> (s.checkedItems[i] <==> channels[i].id in subscribed)
  {
    SelectorState(
      seq(|channels|, i requires 0 <= i < |channels| => Label(channels[i])),
      seq(|channels|, i requires 0 <= i < |channels| => channels[i].id),
      seq(|channels|, i requires 0 <= i < |channels| => |Hits(subscribed, channels[i].id, i)| > 0),
      Selection(channels, subscribed, 0))
  }

  /** Every recorded position names a channel, offset by `start`, whose id is subscribed. */
  lemma {:induction false} SelectionSound(channels: seq<Channel>, subscribed: seq<string>, start: nat)
    ensures forall k :: 0 <= k < |Selection(channels, subscribed, start)| ==>
              var p := Selection(channels, subscribed, start)[k];
              start <= p < start + |channels| && channels[p - start].id in subscribed
    decreases |channels|
  {
    if |channels| > 0 {
      SelectionSound(channels[1..], subscribed, start + 1);
      var h := Hits(subscribed, channels[0].id, start);
      var t := Selection(channels[1..], subscribed, start + 1);
      forall k | 0 <= k < |h + t|
        ensures start <= (h + t)[k] < start + |channels| && channels[(h + t)[k] - start].id in subscribed
      {
        if k >= |h| {
          assert (h + t)[k] == t[k - |h|];
          assert channels[1..][t[k - |h|] - (start + 1)] == channels[t[k - |h|] - start];
        }
      }
    }
  }

  /** Every channel whose id is subscribed has its position recorded. */
  lemma {:induction false} SelectionComplete(channels: seq<Channel>, subscribed: seq<string>, start: nat, j: nat)
    requires j < |channels|
    requires channels[j].id in subscribed
    ensures start + j in Selection(channels, subscribed, start)
    decreases |channels|
  {
    var h := Hits(subscribed, channels[0].id, start);
    var t := Selection(channels[1..], subscribed, start + 1);
    if j == 0 {
      assert h[0] == start;
      assert (h + t)[0] == start;
    } else {
      SelectionComplete(channels[1..], subscribed, start + 1, j - 1);
      var k :| 0 <= k < |t| && t[k] == start + j;
      assert (h + t)[|h| + k] == start + j;
    }
  }

  /** The positions are recorded in ascending order, strictly so when the
      subscribed list has no repeated id. */
  lemma {:induction false} SelectionOrdered(channels: seq<Channel>, subscribed: seq<string>, start: nat)
    ensures Ascending(Selection(channels, subscribed, start))
    ensures NoDuplicates(subscribed) ==> StrictlyAscending(Selection(channels, subscribed, start))
    decreases |channels|
  {
    if |channels| > 0 {
      SelectionOrdered(channels[1..], subscribed, start + 1);
      SelectionSound(channels[1..], subscribed, start + 1);
      var h := Hits(subscribed, channels[0].id, start);
      var t := Selection(channels[1..], subscribed, start + 1);
      forall i, j | 0 <= i < j < |h + t|
        ensures (h + t)[i] <= (h + t)[j]
        ensures NoDuplicates(subscribed) ==> (h + t)[i] < (h + t)[j]
      {
        if j < |h| {
          assert NoDuplicates(subscribed) ==> |h| <= 1;
        } else if i < |h| {
          assert (h + t)[j] == t[j - |h|];
        } else {
          assert (h + t)[i] == t[i - |h|] && (h + t)[j] == t[j - |h|];
        }
      }
    }
  }

  /**
   The two halves of the initial dialog state agree: a box is ticked exactly
   when its position is in the selection list, the list holds only valid
   positions in ascending order, and, for a subscribed list without repeats,
   each ticked position exactly once.
   */
  lemma InitialStateConsistent(channels: seq<Channel>, subscribed: seq<string>)
    ensures var s := InitialState(channels, subscribed);
            && InRange(s.userItems, |channels|)
            && (forall i :: 0 <= i < |channels| ==> (s.checkedItems[i] <==> i in s.userItems))
            && Ascending(s.userItems)
            && (NoDuplicates(subscribed) ==> NoDuplicates(s.userItems) && StrictlyAscending(s.userItems))
  {
    var s := InitialState(channels, subscribed);
    SelectionSound(channels, subscribed, 0);
    SelectionOrdered(channels, subscribed, 0);
    forall i | 0 <= i < |channels| && channels[i].id in subscribed
      ensures i in s.userItems
    {
      SelectionComplete(channels, subscribed, 0, i);
    }
  }

  /** Kotlin's `MutableList.remove(element)`: drops the first occurrence of `x`, if any. */
  function RemoveFirst(xs: seq<nat>, x: nat): (r: seq<nat>)
    ensures multiset(r) == multiset(xs) - multiset{x}
    ensures x !in xs ==> r == xs
  {
    if |xs| == 0 then []
    else if xs[0] == x then
      assert xs == [xs[0]] + xs[1..];
      xs[1..]
    else
      assert xs == [xs[0]] + xs[1..];
      [xs[0]] + RemoveFirst(xs[1..], x)
  }

  /** `xs` with every occurrence of `x` filtered out, the rest in order. */
  function Without(xs: seq<nat>, x: nat): seq<nat>
  {
    if |xs| == 0 then []
    else (if xs[0] == x then [] else [xs[0]]) + Without(xs[1..], x)
  }

  lemma {:induction false} WithoutAppend(a: seq<nat>, b: seq<nat>, x: nat)
    ensures Without(a + b, x) == Without(a, x) + Without(b, x)
    decreases |a|
  {
    if |a| > 0 {
      assert (a + b)[1..] == a[1..] + b;
      WithoutAppend(a[1..], b, x);
    } else {
      assert a + b == b;
    }
  }

  lemma {:induction false} RemoveFirstKeepsOthers(xs: seq<nat>, x: nat)
    ensures Without(RemoveFirst(xs, x), x) == Without(xs, x)
    decreases |xs|
  {
    if |xs| > 0 && xs[0] != x {
      RemoveFirstKeepsOthers(xs[1..], x);
      assert ([xs[0]] + RemoveFirst(xs[1..], x))[1..] == RemoveFirst(xs[1..], x);
    }
  }

  lemma AppendDistinct(xs: seq<nat>, x: nat)
    requires NoDuplicates(xs)
    requires x !in xs
    ensures NoDuplicates(xs + [x])
  {
  }

  lemma TailDistinct(xs: seq<nat>)
    requires |xs| > 0
    requires NoDuplicates(xs)
    ensures NoDuplicates(xs[1..])
    ensures xs[0] !in xs[1..]
  {
  }

  lemma ConsDistinct(y: nat, t: seq<nat>)
    requires NoDuplicates(t)
    requires y !in t
    ensures NoDuplicates([y] + t)
  {
  }

  lemma RemoveFirstMember(xs: seq<nat>, x: nat, y: nat)
    requires y in RemoveFirst(xs, x)
    ensures y in xs
  {
  }

  lemma {:induction false} RemoveFirstDistinct(xs: seq<nat>, x: nat)
    requires NoDuplicates(xs)
    ensures NoDuplicates(RemoveFirst(xs, x))
    ensures x !in RemoveFirst(xs, x)
    decreases |xs|
  {
    if |xs| > 0 {
      TailDistinct(xs);
      if xs[0] != x {
        RemoveFirstDistinct(xs[1..], x);
        var t := RemoveFirst(xs[1..], x);
        if xs[0] in t {
          RemoveFirstMember(xs[1..], x, xs[0]);
        }
        ConsDistinct(xs[0], t);
      }
    }
  }

  /**
   The multi-choice callback for one box: ticking appends the position
   unless it is already listed; unticking removes it if it is listed.
   */
  function Toggle(userItems: seq<nat>, position: nat, isChecked: bool): (r: seq<nat>)
    ensures isChecked ==> position in r
    ensures isChecked && position !in userItems ==> r == userItems + [position]
    ensures isChecked && position in userItems ==> r == userItems
    ensures !isChecked && position !in userItems ==> r == userItems
    ensures !isChecked && position in userItems ==> multiset(r)[position] == multiset(userItems)[position] - 1
    ensures !isChecked && NoDuplicates(userItems) ==> position !in r
    ensures forall x :: x != position ==> multiset(r)[x] == multiset(userItems)[x]
    ensures Without(r, position) == Without(userItems, position)
    ensures NoDuplicates(userItems) ==> NoDuplicates(r)
  {
    if isChecked then
      if position !in userItems then
        WithoutAppend(userItems, [position], position);
        if NoDuplicates(userItems) then
          AppendDistinct(userItems, position);
          userItems + [position]
        else userItems + [position]
      else userItems
    else if position in userItems then
      RemoveFirstKeepsOthers(userItems, position);
      if NoDuplicates(userItems) then
        RemoveFirstDistinct(userItems, position);
        RemoveFirst(userItems, position)
      else RemoveFirst(userItems, position)
    else userItems
  }

  /** A toggle on a valid position keeps every listed position valid. */
  lemma ToggleInRange(userItems: seq<nat>, n: nat, position: nat, isChecked: bool)
    requires InRange(userItems, n)
    requires position < n
    ensures InRange(Toggle(userItems, position, isChecked), n)
  {
    var r := Toggle(userItems, position, isChecked);
    forall k | 0 <= k < |r|
      ensures r[k] < n
    {
      assert r[k] in multiset(r);
      if r[k] != position {
        assert r[k] in multiset(userItems);
      }
    }
  }

  /** Kotlin's `remove(element)` takes out the first occurrence and keeps the rest in order. */
  lemma {:induction false} RemoveFirstIsFirst(xs: seq<nat>, x: nat, k: nat)
    requires k < |xs| && xs[k] == x
    requires x !in xs[..k]
    ensures RemoveFirst(xs, x) == xs[..k] + xs[k + 1..]
    decreases k
  {
    if k > 0 {
      assert xs[0] in xs[..k];
      assert xs[1..][..k - 1] == xs[..k][1..];
      RemoveFirstIsFirst(xs[1..], x, k - 1);
      assert xs[..k] == [xs[0]] + xs[1..][..k - 1];
      assert xs[k + 1..] == xs[1..][k..];
    }
  }

  /** Repeating the same toggle changes nothing more on a list without repeats. */
  lemma ToggleIdempotent(userItems: seq<nat>, position: nat, isChecked: bool)
    requires NoDuplicates(userItems)
    ensures Toggle(Toggle(userItems, position, isChecked), position, isChecked)
         == Toggle(userItems, position, isChecked)
  {
  }

  /** Ticking a new box and then unticking it restores the list. */
  lemma ToggleUndo(userItems: seq<nat>, position: nat)
    requires position !in userItems
    ensures Toggle(Toggle(userItems, position, true), position, false) == userItems
  {
    RemoveFirstAppend(userItems, position);
  }

  lemma {:induction false} RemoveFirstAppend(xs: seq<nat>, x: nat)
    requires x !in xs
    ensures RemoveFirst(xs + [x], x) == xs
    decreases |xs|
  {
    if |xs| == 0 {
    } else {
      assert (xs + [x])[1..] == xs[1..] + [x];
      RemoveFirstAppend(xs[1..], x);
      assert xs == [xs[0]] + xs[1..];
    }
  }
}
