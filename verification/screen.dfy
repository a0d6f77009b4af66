/**
 How the refresh and the search callbacks meet: the search works on the
 channel list the last refresh stored, whose titled channels already hold
 their items newest first.
 */
module Screen {
  import opened Feed
  import Pages
  import Search

  /**
   Clearing the search box brings back the refreshed page of every titled
   channel that has items. An untitled channel differs: the refresh gives it
   no item list, while the search shows its items as delivered.
   */
  lemma EmptySearchAfterRefresh(channels: seq<Channel>, i: nat)
    requires i < |channels|
    requires channels[i].items.Some?
    ensures var s := Pages.Refresh(channels);
            var shown := Search.SearchFilter(s.channelList, "")[i];
            && (channels[i].title.Some? ==> shown == s.pages[i])
            && (channels[i].title.None? ==> s.pages[i].items.None? && shown.items == channels[i].items)
  {
    var s := Pages.Refresh(channels);
    Search.SearchEmptyQuery(s.channelList, i);
  }
}
