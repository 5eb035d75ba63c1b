/** The notification controller: listing, marking read, and the coalescing creation of
    message notifications (one unread notification per user and chat channel). */
module Notifications {
  import opened Wrappers
  import opened Seqs
  import opened UserModel
  import opened NotificationModel

  const MissingFieldsMsg := "Missing required fields"
  const SenderNotFoundMsg := "Sender not found"
  const NotificationNotFoundMsg := "Notification not found"
  const DefaultPreview := "New message"
  const SentYouAMessage := " sent you a message"

  /** An unread message notification of `user` for channel `channelId`: what the duplicate check
      looks for. */
  predicate UnreadThread(n: Notification, user: Id, channelId: string)
  {
    n.user == user && n.kind == MessageNote && n.channelId == Some(channelId) && !n.isRead
  }

  /** The duplicate check's `findOne`: the first unread message notification for the pair. */
  function FindUnreadThread(notes: seq<Notification>, user: Id, channelId: string): (r: Option<nat>)
    ensures r.Some? ==> r.value < |notes| && UnreadThread(notes[r.value], user, channelId)
    ensures r.Some? ==> forall k :: 0 <= k < r.value ==> !UnreadThread(notes[k], user, channelId)
    ensures r.None? <==> forall n :: n in notes ==> !UnreadThread(n, user, channelId)
  {
    if notes == [] then None
    else if UnreadThread(notes[0], user, channelId) then Some(0)
    else
      assert notes == [notes[0]] + notes[1..];
      match FindUnreadThread(notes[1..], user, channelId)
      case None => None
      case Some(k) => Some(k + 1)
  }

  /** What a successful create did. */
  datatype CreateOutcome = Disabled | Updated | Created

  datatype NoteChange = NoteChange(outcome: CreateOutcome, notes: seq<Notification>)

  /** createMessageNotification for recipient `me`. `noteId` and `now` are the new document's id
      and creation time. */
  function CreateMessageNotification(users: map<Id, User>, notes: seq<Notification>, me: Id,
                                     senderId: Option<Id>, channelId: Option<string>,
                                     messagePreview: Option<string>, noteId: Id, now: int): (r: Result<NoteChange>)
    ensures !Present(senderId) || !Present(channelId) ==> r == Err(BadRequest, MissingFieldsMsg)
    ensures Present(senderId) && Present(channelId) && (me !in users || !MessageNotificationsOn(users[me])) ==>
              r == Ok(NoteChange(Disabled, notes))
    ensures r.Ok? && r.value.outcome == Updated ==>
              && Present(channelId) && me in users && MessageNotificationsOn(users[me])
              && FindUnreadThread(notes, me, channelId.value).Some?
              && var i := FindUnreadThread(notes, me, channelId.value).value;
                 var text := OrElse(messagePreview, DefaultPreview);
                 r.value.notes == notes[i := notes[i].(message := text, messagePreview := Some(text))]
    ensures (Present(senderId) && Present(channelId) && me in users && MessageNotificationsOn(users[me])
             && FindUnreadThread(notes, me, channelId.value).Some?) ==> r.Ok? && r.value.outcome == Updated
    ensures (Present(senderId) && Present(channelId) && me in users && MessageNotificationsOn(users[me])
             && FindUnreadThread(notes, me, channelId.value).None? && senderId.value !in users) ==>
              r == Err(NotFound, SenderNotFoundMsg)
    ensures r.Ok? && r.value.outcome == Created ==>
              && Present(senderId) && Present(channelId) && senderId.value in users
              && (forall n :: n in notes ==> !UnreadThread(n, me, channelId.value))
              && r.value.notes == notes + [Notification(noteId, me, MessageNote,
                                                        users[senderId.value].fullName + SentYouAMessage,
                                                        senderId, channelId, false,
                                                        Some(OrElse(messagePreview, DefaultPreview)), now)]
  {
    if !Present(senderId) || !Present(channelId) then Err(BadRequest, MissingFieldsMsg)
    else if me !in users || !MessageNotificationsOn(users[me]) then Ok(NoteChange(Disabled, notes))
    else
      var text := OrElse(messagePreview, DefaultPreview);
      match FindUnreadThread(notes, me, channelId.value)
      case Some(i) =>
        Ok(NoteChange(Updated, notes[i := notes[i].(message := text, messagePreview := Some(text))]))
      case None =>
        if senderId.value !in users then Err(NotFound, SenderNotFoundMsg)
        else
          var n := NewNotification(noteId, me, MessageNote, users[senderId.value].fullName + SentYouAMessage,
                                   senderId, channelId, Some(text), now);
          Ok(NoteChange(Created, notes + [n]))
  }

  /** The findOne of markNotificationAsRead: the first notification with that id owned by `me`. */
  function FindOwned(notes: seq<Notification>, me: Id, noteId: Id): (r: Option<nat>)
    ensures r.Some? ==> r.value < |notes| && notes[r.value].id == noteId && notes[r.value].user == me
    ensures r.Some? ==> forall k :: 0 <= k < r.value ==> !(notes[k].id == noteId && notes[k].user == me)
    ensures r.None? <==> forall n :: n in notes ==> !(n.id == noteId && n.user == me)
  {
    if notes == [] then None
    else if notes[0].id == noteId && notes[0].user == me then Some(0)
    else
      assert notes == [notes[0]] + notes[1..];
      match FindOwned(notes[1..], me, noteId)
      case None => None
      case Some(k) => Some(k + 1)
  }

  /** markNotificationAsRead: only one's own notification is found; it becomes read. */
  function MarkNotificationAsRead(notes: seq<Notification>, me: Id, noteId: Id): (r: Result<seq<Notification>>)
    ensures (forall n :: n in notes ==> !(n.id == noteId && n.user == me)) <==> r == Err(NotFound, NotificationNotFoundMsg)
    ensures r.Ok? ==>
              && |r.value| == |notes|
              && exists i :: 0 <= i < |notes| && notes[i].id == noteId && notes[i].user == me
                             && r.value == notes[i := notes[i].(isRead := true)]
  {
    match FindOwned(notes, me, noteId)
    case None => Err(NotFound, NotificationNotFoundMsg)
    case Some(i) => Ok(notes[i := notes[i].(isRead := true)])
  }

  /** Marking the same notification read a second time changes nothing. */
  lemma {:induction false} MarkAsReadIdempotent(notes: seq<Notification>, me: Id, noteId: Id)
    requires MarkNotificationAsRead(notes, me, noteId).Ok?
    ensures var once := MarkNotificationAsRead(notes, me, noteId).value;
            MarkNotificationAsRead(once, me, noteId) == Ok(once)
  {
    var i := FindOwned(notes, me, noteId).value;
    var once := notes[i := notes[i].(isRead := true)];
    assert forall k :: 0 <= k < i ==> once[k] == notes[k];
    FindOwnedAt(once, me, noteId, i);
    assert once[i := once[i].(isRead := true)] == once;
  }

  /** The search stops at the first match. */
  lemma FindOwnedAt(notes: seq<Notification>, me: Id, noteId: Id, i: nat)
    requires i < |notes| && notes[i].id == noteId && notes[i].user == me
    requires forall k :: 0 <= k < i ==> !(notes[k].id == noteId && notes[k].user == me)
    ensures FindOwned(notes, me, noteId) == Some(i)
  {
    var r := FindOwned(notes, me, noteId);
    assert notes[i] in notes;
  }

  /** markAllNotificationsAsRead: every one of `me`'s notifications is read afterwards; all others
      are untouched. */
  function MarkAllNotificationsAsRead(notes: seq<Notification>, me: Id): (r: seq<Notification>)
    ensures |r| == |notes|
    ensures forall i :: 0 <= i < |notes| && notes[i].user == me ==> r[i] == notes[i].(isRead := true)
    ensures forall i :: 0 <= i < |notes| && notes[i].user != me ==> r[i] == notes[i]
  {
    seq(|notes|, i requires 0 <= i < |notes| =>
      if notes[i].user == me && !notes[i].isRead then notes[i].(isRead := true) else notes[i])
  }

  // ---------------------------------------------------------------------------------------------
  // getNotifications

  const NotificationCap: nat := 100

  function CreatedAt(n: Notification): int { n.createdAt }

  /** `find({ user: me })` in natural order. */
  function OwnedBy(notes: seq<Notification>, me: Id): (r: seq<Notification>)
    ensures forall n :: n in r <==> n in notes && n.user == me
  {
    Filter(notes, (n: Notification) => n.user == me)
  }

  /** `countDocuments({ user: me, isRead: false })`, as the list of those documents. */
  function UnreadOwnedBy(notes: seq<Notification>, me: Id): (r: seq<Notification>)
    ensures forall n :: n in r <==> n in notes && n.user == me && !n.isRead
    ensures (forall i :: 0 <= i < |notes| ==> notes[i].user != me || notes[i].isRead) ==> r == []
  {
    var p := (n: Notification) => n.user == me && !n.isRead;
    assert (forall i :: 0 <= i < |notes| ==> notes[i].user != me || notes[i].isRead) ==> Filter(notes, p) == [] by {
      if forall i :: 0 <= i < |notes| ==> notes[i].user != me || notes[i].isRead {
        FilterNone(notes, p);
      }
    }
    Filter(notes, p)
  }

  datatype NotificationsView = NotificationsView(notifications: seq<Notification>, unreadCount: nat)

  /** getNotifications: the newest hundred of the caller's notifications, and the count of ALL of
      the caller's unread ones, whether or not they made the cut. */
  function GetNotifications(notes: seq<Notification>, me: Id): (v: NotificationsView)
    ensures |v.notifications| == if |OwnedBy(notes, me)| <= NotificationCap then |OwnedBy(notes, me)| else NotificationCap
    ensures SortedDesc(v.notifications, CreatedAt)
    ensures forall n :: n in v.notifications ==> n in notes && n.user == me
    ensures forall n, x :: n in v.notifications && x in notes && x.user == me && x !in v.notifications ==>
              x.createdAt <= n.createdAt
    ensures multiset(v.notifications) <= multiset(OwnedBy(notes, me))
    ensures |OwnedBy(notes, me)| <= NotificationCap ==> multiset(v.notifications) == multiset(OwnedBy(notes, me))
    ensures v.unreadCount == |UnreadOwnedBy(notes, me)|
  {
    NotificationsView(NewestOwned(notes, me), |UnreadOwnedBy(notes, me)|)
  }

  /** `find({ user: me }).sort({ createdAt: -1 }).limit(100)`: the caller's newest hundred, or all of
      them when there are fewer. */
  function NewestOwned(notes: seq<Notification>, me: Id): (r: seq<Notification>)
    ensures |r| == if |OwnedBy(notes, me)| <= NotificationCap then |OwnedBy(notes, me)| else NotificationCap
    ensures SortedDesc(r, CreatedAt)
    ensures forall n :: n in r ==> n in notes && n.user == me
    ensures forall n, x :: n in r && x in notes && x.user == me && x !in r ==> x.createdAt <= n.createdAt
    ensures multiset(r) <= multiset(OwnedBy(notes, me))
    ensures |OwnedBy(notes, me)| <= NotificationCap ==> multiset(r) == multiset(OwnedBy(notes, me))
  {
    var mine := OwnedBy(notes, me);
    var r := TopByKey(mine, NotificationCap, CreatedAt);
    assert forall n, x :: n in r && x in notes && x.user == me && x !in r ==> x.createdAt <= n.createdAt by {
      forall n, x | n in r && x in notes && x.user == me && x !in r ensures x.createdAt <= n.createdAt {
        assert x in mine && CreatedAt(x) <= CreatedAt(n);
      }
    }
    r
  }

  /** After mark-all-read the caller's unread count is zero, and every other user's is unchanged. */
  lemma MarkAllClearsUnread(notes: seq<Notification>, me: Id, other: Id)
    requires other != me
    ensures GetNotifications(MarkAllNotificationsAsRead(notes, me), me).unreadCount == 0
    ensures GetNotifications(MarkAllNotificationsAsRead(notes, me), other).unreadCount
            == GetNotifications(notes, other).unreadCount
  {
    var after := MarkAllNotificationsAsRead(notes, me);
    assert forall i :: 0 <= i < |after| ==> after[i].user != me || after[i].isRead;
    assert UnreadOwnedBy(after, me) == [];
    FilterOthersUnchanged(notes, me, other);
  }

  lemma {:induction false} FilterOthersUnchanged(notes: seq<Notification>, me: Id, other: Id)
    requires other != me
    ensures UnreadOwnedBy(MarkAllNotificationsAsRead(notes, me), other) == UnreadOwnedBy(notes, other)
  {
    if notes != [] {
      var after := MarkAllNotificationsAsRead(notes, me);
      assert MarkAllNotificationsAsRead(notes[1..], me) == after[1..];
      FilterOthersUnchanged(notes[1..], me, other);
    }
  }

  // ---------------------------------------------------------------------------------------------
  // The coalescing invariant

  /** Two notifications the duplicate check would confuse: unread message notifications of the same
      user for the same channel. */
  predicate SameThread(a: Notification, b: Notification)
  {
    && a.kind == MessageNote && b.kind == MessageNote
    && !a.isRead && !b.isRead
    && a.user == b.user && a.channelId == b.channelId
  }

  /** At most one unread message notification per (user, channel). */
  ghost predicate Coalesced(notes: seq<Notification>)
  {
    forall i, j :: 0 <= i < j < |notes| ==> !SameThread(notes[i], notes[j])
  }

  lemma CreateKeepsCoalesced(users: map<Id, User>, notes: seq<Notification>, me: Id, senderId: Option<Id>,
                             channelId: Option<string>, messagePreview: Option<string>, noteId: Id, now: int)
    requires Coalesced(notes)
    ensures var r := CreateMessageNotification(users, notes, me, senderId, channelId, messagePreview, noteId, now);
            r.Ok? ==> Coalesced(r.value.notes)
  {
    var r := CreateMessageNotification(users, notes, me, senderId, channelId, messagePreview, noteId, now);
    if r.Ok? && r.value.outcome == Created {
      var n := r.value.notes[|notes|];
      assert r.value.notes == notes + [n];
      forall i, j | 0 <= i < j < |r.value.notes| ensures !SameThread(r.value.notes[i], r.value.notes[j]) {
        if j == |notes| {
          assert notes[i] in notes;
          assert !UnreadThread(notes[i], me, channelId.value);
        } else {
          assert r.value.notes[i] == notes[i] && r.value.notes[j] == notes[j];
        }
      }
    } else if r.Ok? && r.value.outcome == Updated {
      var i0 := FindUnreadThread(notes, me, channelId.value).value;
      forall i, j | 0 <= i < j < |r.value.notes| ensures !SameThread(r.value.notes[i], r.value.notes[j]) {
        assert SameThread(r.value.notes[i], r.value.notes[j]) ==> SameThread(notes[i], notes[j]);
      }
    }
  }

  lemma MarkReadKeepsCoalesced(notes: seq<Notification>, me: Id, noteId: Id)
    requires Coalesced(notes)
    ensures var r := MarkNotificationAsRead(notes, me, noteId);
            r.Ok? ==> Coalesced(r.value)
  {
    var r := MarkNotificationAsRead(notes, me, noteId);
    if r.Ok? {
      assert forall i :: 0 <= i < |notes| ==> r.value[i] == notes[i] || r.value[i] == notes[i].(isRead := true);
    }
  }

  lemma MarkAllKeepsCoalesced(notes: seq<Notification>, me: Id)
    requires Coalesced(notes)
    ensures Coalesced(MarkAllNotificationsAsRead(notes, me))
  {
    var r := MarkAllNotificationsAsRead(notes, me);
    assert forall i :: 0 <= i < |notes| ==> r[i] == notes[i] || r[i] == notes[i].(isRead := true);
  }
}
