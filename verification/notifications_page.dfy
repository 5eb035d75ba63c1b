/** The notifications page: the message list it shows, what a click on a message notification
    does, how an accepted-request entry reads, and when the page says there is nothing to show. */
module NotificationsPage {
  import opened Wrappers
  import opened Seqs
  import opened Text
  import opened UserModel
  import opened NotificationModel
  import opened RequestModel
  import opened Database
  import Notifications
  import Friends
  import GroupModel
  import MessageHook

  // ---------------------------------------------------------------------------------------------
  // The message list

  predicate IsMessage(n: Notification)
  {
    n.kind == MessageNote
  }

  /** `(notifications?.filter(n => n.type === "message") || []).sort(newest first)`: the message
      notifications of the feed, and only those, newest first. */
  function MessageList(feed: Option<seq<Notification>>): (r: seq<Notification>)
    ensures SortedDesc(r, Notifications.CreatedAt)
    ensures feed.None? ==> r == []
    ensures feed.Some? ==> multiset(r) == multiset(Filter(feed.value, IsMessage))
    ensures forall n :: n in r <==> feed.Some? && n in feed.value && n.kind == MessageNote
  {
    if feed.None? then []
    else
      var messages := Filter(feed.value, IsMessage);
      var r := SortDesc(messages, Notifications.CreatedAt);
      assert forall n :: n in r <==> n in messages by {
        forall n ensures n in r <==> n in messages {
          assert n in r <==> n in multiset(r);
          assert n in messages <==> n in multiset(messages);
        }
      }
      r
  }

  /** Shown the backend's feed, the list holds only the caller's own message notifications; when
      the caller has no more notifications than the feed's cap, it holds all of them. */
  lemma MessageListOfFeed(notes: seq<Notification>, me: Id)
    ensures var r := MessageList(Some(Notifications.GetNotifications(notes, me).notifications));
            forall n :: n in r ==> n in notes && n.user == me && n.kind == MessageNote
    ensures var r := MessageList(Some(Notifications.GetNotifications(notes, me).notifications));
            |Notifications.OwnedBy(notes, me)| <= Notifications.NotificationCap ==>
              forall n :: n in r <==> n in notes && n.user == me && n.kind == MessageNote
  {
    var v := Notifications.GetNotifications(notes, me);
    var mine := Notifications.OwnedBy(notes, me);
    if |mine| <= Notifications.NotificationCap {
      forall n ensures n in v.notifications <==> n in mine {
        assert n in v.notifications <==> n in multiset(v.notifications);
        assert n in mine <==> n in multiset(mine);
      }
    }
  }

  // ---------------------------------------------------------------------------------------------
  // Clicking a message notification

  /** Every piece is the caller's own id. */
  predicate OnlyMe(parts: seq<string>, me: Id)
  {
    forall p :: p in parts ==> p == me
  }

  /** `channelId.split("-").find(id => id !== me)`: the first piece of the channel id that is not
      the caller's id, if there is one. */
  function FriendFromChannel(channelId: string, me: Id): (r: Option<string>)
    ensures r.None? <==> OnlyMe(Split(channelId, MessageHook.ChannelSep), me)
    ensures r.Some? ==>
              var parts := Split(channelId, MessageHook.ChannelSep);
              r.value != me && exists k :: 0 <= k < |parts| && parts[k] == r.value && forall j :: 0 <= j < k ==> parts[j] == me
  {
    var parts := Split(channelId, MessageHook.ChannelSep);
    var notMe := (p: string) => p != me;
    var found := FindFirst(parts, notMe);
    if found.None? then
      assert forall p :: p in parts ==> p == me by {
        forall p | p in parts ensures p == me {
          var k :| 0 <= k < |parts| && parts[k] == p;
          assert !notMe(parts[k]);
        }
      }
      None
    else
      var k := found.value;
      assert forall j :: 0 <= j < k ==> parts[j] == me by {
        forall j | 0 <= j < k ensures parts[j] == me {
          assert !notMe(parts[j]);
        }
      }
      assert notMe(parts[k]);
      assert parts[k] != me;
      assert parts[k] in parts;
      Some(parts[k])
  }

  /** What a click does: whether it asks the backend to mark the notification read, and the chat
      it opens, if any. */
  datatype ClickEffect = ClickEffect(markRead: bool, openChatWith: Option<Id>)

  /** handleMessageNotificationClick: mark read only when unread; open the chat with the id found
      in the channel id when there is a channel id, a signed-in user and a non-empty id. */
  function OnMessageClick(n: Notification, me: Option<Id>): (e: ClickEffect)
    ensures e.markRead <==> !n.isRead
    ensures e.openChatWith.Some? <==>
              Present(n.channelId) && me.Some? && Present(FriendFromChannel(n.channelId.value, me.value))
    ensures e.openChatWith.Some? ==> e.openChatWith == FriendFromChannel(n.channelId.value, me.value)
  {
    var target :=
      if Present(n.channelId) && me.Some? then
        var f := FriendFromChannel(n.channelId.value, me.value);
        if Present(f) then f else None
      else None;
    ClickEffect(!n.isRead, target)
  }

  /** Skipping the mark-read request for a notification that is already read loses nothing: the
      backend would have left the collection exactly as it is. */
  lemma SkippedMarkReadIsNoOp(notes: seq<Notification>, me: Id, noteId: Id)
    requires var f := Notifications.FindOwned(notes, me, noteId); f.Some? && notes[f.value].isRead
    ensures Notifications.MarkNotificationAsRead(notes, me, noteId) == Ok(notes)
  {
    var i := Notifications.FindOwned(notes, me, noteId).value;
    assert notes[i := notes[i].(isRead := true)] == notes;
  }

  /** The inverse of the channel id: for two ids without a `-`, the piece that is not mine is the
      other id; a channel with oneself has no such piece. */
  lemma FriendFromDmChannel(a: Id, b: Id)
    requires MessageHook.ChannelSep !in a && MessageHook.ChannelSep !in b
    ensures FriendFromChannel(MessageHook.DmChannelId(a, b), a) == if a == b then None else Some(b)
  {
    var parts := Split(MessageHook.DmChannelId(a, b), MessageHook.ChannelSep);
    assert parts == MessageHook.SortedPair(a, b);
    assert parts[0] in multiset{a, b} && parts[1] in multiset{a, b};
    if a != b {
      assert parts == [a, b] || parts == [b, a] by {
        assert multiset(parts) == multiset{a, b};
        if parts[0] == a {
          assert parts[1] == b by {
            assert multiset(parts) == multiset{parts[0]} + multiset{parts[1]} by {
              assert parts == [parts[0]] + [parts[1]];
            }
          }
        }
      }
    }
  }

  /** Clicking a notification of a direct chat opens the chat with the other participant, and that
      route makes the hook treat the very same channel as the one being viewed. */
  lemma ClickReopensChannel(n: Notification, a: Id, b: Id, prev: Option<string>)
    requires MessageHook.ChannelSep !in a && MessageHook.ChannelSep !in b && '/' !in b
    requires a != b && b != ""
    requires n.channelId == Some(MessageHook.DmChannelId(a, b))
    ensures OnMessageClick(n, Some(a)).openChatWith == Some(b)
    ensures MessageHook.ChannelOnRoute(prev, MessageHook.ChatPrefix + b, Some(a)) == n.channelId
  {
    FriendFromDmChannel(a, b);
    MessageHook.ChatIdOfPlainId(b);
  }

  /** A group chat's channel id (`group-<id>`) yields the word `group` as the "friend", whatever
      the group: the click opens `/chat/group`. */
  lemma GroupChannelYieldsGroupWord(gid: Id, me: Id)
    requires me != "group"
    ensures FriendFromChannel(GroupModel.GroupChannelId(gid), me) == Some("group")
  {
    var c := GroupModel.GroupChannelId(gid);
    assert c[..5] == "group" && c[5] == MessageHook.ChannelSep;
    FirstIndexUnique(c, MessageHook.ChannelSep, 5);
    MessageHook.SplitHead(c, MessageHook.ChannelSep);
  }

  // ---------------------------------------------------------------------------------------------
  // Accepted requests

  /** A populated user reference: its id and display name. */
  datatype Person = Person(id: Id, fullName: string)

  /** An accepted-request entry as the page receives it: both parties, the caller's role as the
      string the backend writes, and the other party if it was filled in. */
  datatype AcceptedItem = AcceptedItem(sender: Person, recipient: Person, role: string, otherUser: Option<Person>)

  const SenderRole := "sender"
  const RecipientRole := "recipient"

  /** `otherUser || (role === "sender" ? recipient : sender)`. */
  function OtherUserOf(item: AcceptedItem): (p: Person)
    ensures item.otherUser.Some? ==> p == item.otherUser.value
    ensures item.otherUser.None? && item.role == SenderRole ==> p == item.recipient
    ensures item.otherUser.None? && item.role != SenderRole ==> p == item.sender
  {
    match item.otherUser
    case Some(p) => p
    case None => if item.role == SenderRole then item.recipient else item.sender
  }

  /** The entry's sentence: the caller accepted when its role is `recipient`, the other party
      accepted otherwise. */
  function AcceptedLine(item: AcceptedItem): (s: string)
    ensures item.role == RecipientRole ==> s == "You accepted " + OtherUserOf(item).fullName + "'s friend request"
    ensures item.role != RecipientRole ==> s == OtherUserOf(item).fullName + " accepted your friend request"
  {
    var name := OtherUserOf(item).fullName;
    if item.role == RecipientRole then "You accepted " + name + "'s friend request"
    else name + " accepted your friend request"
  }

  /** The entry the backend sends for a tagged accepted request, with `name` giving each user's
      display name. */
  function ItemOf(e: Friends.AcceptedEntry, name: Id -> string): AcceptedItem
  {
    AcceptedItem(
      Person(e.request.sender, name(e.request.sender)),
      Person(e.request.recipient, name(e.request.recipient)),
      if e.role == Friends.AsSender then SenderRole else RecipientRole,
      Some(Person(e.otherUser, name(e.otherUser))))
  }

  /** For every entry of the backend's accepted list the page names the other party, would name the
      same party had `otherUser` been left out, and says "You accepted" exactly when the caller was
      the request's recipient. */
  lemma AcceptedItemsAgree(reqs: seq<FriendRequest>, me: Id, e: Friends.AcceptedEntry, name: Id -> string)
    requires Friends.ValidEntry(reqs, me, e)
    ensures OtherUserOf(ItemOf(e, name)).id == e.otherUser
    ensures OtherUserOf(ItemOf(e, name).(otherUser := None)) == OtherUserOf(ItemOf(e, name))
    ensures e.role == Friends.AsRecipient ==>
              e.request.recipient == me
              && AcceptedLine(ItemOf(e, name)) == "You accepted " + name(e.request.sender) + "'s friend request"
    ensures e.role == Friends.AsSender ==>
              e.request.sender == me
              && AcceptedLine(ItemOf(e, name)) == name(e.request.recipient) + " accepted your friend request"
  {
  }

  // ---------------------------------------------------------------------------------------------
  // The empty state

  /** The four lists the page renders. */
  datatype PageLists = PageLists(
    incoming: seq<FriendRequest>,
    accepted: seq<Friends.AcceptedEntry>,
    removed: seq<FriendRequest>,
    messages: seq<Notification>)

  /** The lists built from the two backend answers. */
  function ListsOf(requests: Friends.FriendRequestsView, feed: Notifications.NotificationsView): PageLists
  {
    PageLists(requests.incoming, requests.accepted, requests.removed, MessageList(Some(feed.notifications)))
  }

  /** The "no notifications" state is shown when all four lists are empty. */
  predicate EmptyState(p: PageLists)
  {
    |p.incoming| == 0 && |p.accepted| == 0 && |p.removed| == 0 && |p.messages| == 0
  }

  predicate NoPendingFor(reqs: seq<FriendRequest>, me: Id)
  {
    forall q :: q in reqs ==> !(q.recipient == me && q.status == Pending)
  }

  predicate NoAcceptedWith(reqs: seq<FriendRequest>, me: Id)
  {
    forall q :: q in reqs ==> !(q.status == Accepted && (q.sender == me || q.recipient == me))
  }

  predicate NoRemovedFor(reqs: seq<FriendRequest>, me: Id)
  {
    forall q :: q in reqs ==> !(q.recipient == me && q.status == Removed)
  }

  /** No friend-request record would appear on the caller's page. */
  predicate NoRequestNews(reqs: seq<FriendRequest>, me: Id)
  {
    NoPendingFor(reqs, me) && NoAcceptedWith(reqs, me) && NoRemovedFor(reqs, me)
  }

  predicate NoMessageNotes(notes: seq<Notification>, me: Id)
  {
    forall n :: n in notes && n.user == me ==> n.kind != MessageNote
  }

  /** A list of matches is empty exactly when nothing matches. */
  lemma AllMatchingEmpty(reqs: seq<FriendRequest>, query: Friends.Query, me: Id)
    ensures |Friends.AllMatching(reqs, query, me)| == 0 <==> forall q :: q in reqs ==> !Friends.Matches(query, me, q)
  {
    var m := Friends.AllMatching(reqs, query, me);
    if |m| != 0 {
      assert m[0] in m;
    }
  }

  /** A capped list is empty exactly when nothing matches. */
  lemma RecentEmpty(reqs: seq<FriendRequest>, query: Friends.Query, me: Id)
    ensures |Friends.RecentMatching(reqs, query, me)| == 0 <==> forall q :: q in reqs ==> !Friends.Matches(query, me, q)
  {
    AllMatchingEmpty(reqs, query, me);
  }

  /** The accepted list is empty exactly when the caller has no accepted request on either side. */
  lemma AcceptedEmpty(reqs: seq<FriendRequest>, me: Id)
    ensures |Friends.RecentAccepted(reqs, me)| == 0 <==> NoAcceptedWith(reqs, me)
  {
    AcceptedCount(reqs, me);
    RecentEmpty(reqs, Friends.AcceptedAsSender, me);
    RecentEmpty(reqs, Friends.AcceptedAsRecipient, me);
    AcceptedEitherSide(reqs, me);
  }

  /** The merged list holds as many entries as the two capped lists together. */
  lemma AcceptedCount(reqs: seq<FriendRequest>, me: Id)
    ensures |Friends.RecentAccepted(reqs, me)| ==
              |Friends.RecentMatching(reqs, Friends.AcceptedAsSender, me)|
              + |Friends.RecentMatching(reqs, Friends.AcceptedAsRecipient, me)|
  {
    var r := Friends.RecentAccepted(reqs, me);
    var rs := Friends.RecentMatching(reqs, Friends.AcceptedAsSender, me);
    var rr := Friends.RecentMatching(reqs, Friends.AcceptedAsRecipient, me);
    assert |r| == |multiset(r)|;
    assert |multiset(r)| == |Friends.Tag(rs, Friends.AsSender)| + |Friends.Tag(rr, Friends.AsRecipient)|;
  }

  lemma RemovedForMeIsNews(reqs: seq<FriendRequest>, me: Id)
    ensures NoRemovedFor(reqs, me) <==> forall q :: q in reqs ==> !Friends.Matches(Friends.RemovedForMe, me, q)
  {
  }

  lemma AcceptedEitherSide(reqs: seq<FriendRequest>, me: Id)
    ensures NoAcceptedWith(reqs, me) <==>
              (forall q :: q in reqs ==> !Friends.Matches(Friends.AcceptedAsSender, me, q))
              && (forall q :: q in reqs ==> !Friends.Matches(Friends.AcceptedAsRecipient, me, q))
  {
  }

  /** The page shows its empty state only when no request news exists. */
  lemma EmptyStateNeedsNoNews(st: Store, me: Id)
    ensures var p := ListsOf(Friends.GetFriendRequests(st, me), Notifications.GetNotifications(st.notifications, me));
            EmptyState(p) ==> NoRequestNews(st.requests, me)
  {
    RequestListsEmpty(st, me);
  }

  /** With no request news and no message notification, the page shows its empty state. */
  lemma QuietPageIsEmpty(st: Store, me: Id)
    ensures var p := ListsOf(Friends.GetFriendRequests(st, me), Notifications.GetNotifications(st.notifications, me));
            NoRequestNews(st.requests, me) && NoMessageNotes(st.notifications, me) ==> EmptyState(p)
  {
    RequestListsEmpty(st, me);
    MessagesEmpty(st.notifications, me);
  }

  /** When the caller's notifications fit within the feed's cap, the page shows its empty state
      exactly when there is neither request news nor a message notification. */
  lemma EmptyStateMeaning(st: Store, me: Id)
    requires |Notifications.OwnedBy(st.notifications, me)| <= Notifications.NotificationCap
    ensures var p := ListsOf(Friends.GetFriendRequests(st, me), Notifications.GetNotifications(st.notifications, me));
            EmptyState(p) <==> NoRequestNews(st.requests, me) && NoMessageNotes(st.notifications, me)
  {
    EmptyStateNeedsNoNews(st, me);
    QuietPageIsEmpty(st, me);
    MessagesEmpty(st.notifications, me);
  }

  /** The three request lists are all empty exactly when no request news exists. */
  lemma RequestListsEmpty(st: Store, me: Id)
    ensures var v := Friends.GetFriendRequests(st, me);
            (|v.incoming| == 0 && |v.accepted| == 0 && |v.removed| == 0) <==> NoRequestNews(st.requests, me)
  {
    AcceptedEmpty(st.requests, me);
    RecentEmpty(st.requests, Friends.RemovedForMe, me);
    RemovedForMeIsNews(st.requests, me);
    IncomingEmpty(st, me);
  }

  lemma IncomingEmpty(st: Store, me: Id)
    ensures |Friends.GetFriendRequests(st, me).incoming| == 0 <==> NoPendingFor(st.requests, me)
  {
    var v := Friends.GetFriendRequests(st, me);
    if |v.incoming| != 0 {
      assert v.incoming[0] in v.incoming;
    }
  }

  /** The message list is empty when the caller has no message notification, and, within the
      feed's cap, only then. */
  lemma MessagesEmpty(notes: seq<Notification>, me: Id)
    ensures var m := MessageList(Some(Notifications.GetNotifications(notes, me).notifications));
            && (NoMessageNotes(notes, me) ==> |m| == 0)
            && (|Notifications.OwnedBy(notes, me)| <= Notifications.NotificationCap ==> (|m| == 0 <==> NoMessageNotes(notes, me)))
  {
    var m := MessageList(Some(Notifications.GetNotifications(notes, me).notifications));
    MessageListOfFeed(notes, me);
    if |m| != 0 {
      assert m[0] in m;
    }
  }
}
