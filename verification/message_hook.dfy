/** The client hook that turns incoming chat messages into message notifications: which chat
    channel the user is looking at, which messages it skips, how it reads the channel out of a
    channel cid (`<type>:<id>`), and the preview text it sends to the backend. */
module MessageHook {
  import opened Wrappers
  import opened Text
  import opened UserModel
  import opened NotificationModel
  import Notifications

  const ChatPrefix := "/chat/"
  const ChannelSep: char := '-'
  const CidSep: char := ':'
  const PreviewLimit: nat := 50
  const Ellipsis := "..."

  // ---------------------------------------------------------------------------------------------
  // Direct-message channel ids

  /** `[a, b].sort()`: the two ids in the default string order. */
  function SortedPair(a: Id, b: Id): (r: seq<Id>)
    ensures |r| == 2 && multiset(r) == multiset{a, b}
    ensures !LexLess(r[1], r[0])
  {
    LexLessAsymmetric(a, b);
    if LexLess(b, a) then [b, a] else [a, b]
  }

  /** Sorting makes the pair independent of which id came first. */
  lemma SortedPairSymmetric(a: Id, b: Id)
    ensures SortedPair(a, b) == SortedPair(b, a)
  {
    if a != b {
      LexLessTotal(a, b);
      LexLessAsymmetric(a, b);
    }
  }

  /** A join of two pieces is the first, the separator, the second. */
  lemma JoinTwo(p: string, q: string, c: char)
    ensures Join([p, q], c) == p + [c] + q
  {
    assert [p, q][1..] == [q];
  }

  /** The id of the one-to-one channel between `me` and `other`: the two ids sorted and joined
      with `-`. When neither id holds a `-`, splitting the channel id at `-` gives the sorted
      pair back, and the id holds a `:` only if one of the two ids does. */
  function DmChannelId(me: Id, other: Id): (c: string)
    ensures |c| == |me| + |other| + 1
    ensures CidSep in c ==> CidSep in me || CidSep in other
    ensures ChannelSep !in me && ChannelSep !in other ==> Split(c, ChannelSep) == SortedPair(me, other)
  {
    var pair := SortedPair(me, other);
    JoinTwo(pair[0], pair[1], ChannelSep);
    assert pair[0] in multiset{me, other} && pair[1] in multiset{me, other};
    assert ChannelSep !in me && ChannelSep !in other ==> Split(Join(pair, ChannelSep), ChannelSep) == pair by {
      if ChannelSep !in me && ChannelSep !in other {
        SplitJoin(pair, ChannelSep);
      }
    }
    Join(pair, ChannelSep)
  }

  /** Both participants compute the same channel id. */
  lemma DmChannelIdSymmetric(a: Id, b: Id)
    ensures DmChannelId(a, b) == DmChannelId(b, a)
  {
    SortedPairSymmetric(a, b);
  }

  // ---------------------------------------------------------------------------------------------
  // The channel being viewed

  /** `pathname.split("/chat/")[1]` on a chat route: what follows the prefix, up to the next
      occurrence of the prefix if there is one. */
  function ChatIdOf(path: string): (r: string)
    requires ChatPrefix <= path
    ensures r <= path[|ChatPrefix|..]
    ensures var rest := path[|ChatPrefix|..];
            && (forall i :: 0 <= i < |r| ==> !(ChatPrefix <= rest[i..]))
            && (|r| < |rest| ==> ChatPrefix <= rest[|r|..])
  {
    PrefixBefore(path[|ChatPrefix|..], ChatPrefix)
  }

  /** A route `/chat/<id>` whose id holds no `/` names exactly that id. */
  lemma ChatIdOfPlainId(x: Id)
    requires '/' !in x
    ensures ChatIdOf(ChatPrefix + x) == x
  {
    var path := ChatPrefix + x;
    assert path[|ChatPrefix|..] == x;
    var r := ChatIdOf(path);
    if |r| < |x| {
      NoSlashNoRoute(x, |r|);
      assert false;
    }
  }

  lemma NoSlashNoRoute(x: string, k: nat)
    requires '/' !in x && k < |x|
    ensures !(ChatPrefix <= x[k..])
  {
    assert x[k] in x;
  }

  /** The route effect: on a chat route with a chat id and a signed-in user, the channel is the
      direct-message channel with that id; on a chat route without them it stays as it was; on
      every other route (the chat room included) there is none. */
  function ChannelOnRoute(prev: Option<string>, path: string, me: Option<Id>): (r: Option<string>)
    ensures !(ChatPrefix <= path) ==> r == None
    ensures ChatPrefix <= path && me.Some? && ChatIdOf(path) != "" ==>
              r == Some(DmChannelId(me.value, ChatIdOf(path)))
    ensures ChatPrefix <= path && (me.None? || ChatIdOf(path) == "") ==> r == prev
  {
    if ChatPrefix <= path then
      var chatId := ChatIdOf(path);
      if chatId != "" && me.Some? then Some(DmChannelId(me.value, chatId)) else prev
    else None
  }

  /** The `currentChannelChanged` listener: `event.detail?.channelId || null`. */
  function ChannelChanged(announced: Option<string>): (r: Option<string>)
    ensures r.Some? <==> Present(announced)
    ensures r.Some? ==> r == announced
  {
    if Present(announced) then announced else None
  }

  // ---------------------------------------------------------------------------------------------
  // Incoming messages

  /** `cid.includes(":") ? cid.split(":")[1] : cid`: the text between the first and the second
      colon (or the end), or the whole cid if it has no colon. */
  function ParseCid(cid: string): (id: string)
    ensures CidSep !in cid ==> id == cid
    ensures CidSep in cid ==>
              var rest := cid[FirstIndex(cid, CidSep) + 1..];
              && id <= rest && CidSep !in id
              && (|id| < |rest| ==> rest[|id|] == CidSep)
  {
    if CidSep in cid then
      var i := FirstIndex(cid, CidSep);
      var rest := cid[i + 1..];
      var parts := Split(cid, CidSep);
      assert parts[1..] == Split(rest, CidSep);
      SplitHead(rest, CidSep);
      parts[1]
    else cid
  }

  /** The first piece of a split is everything before the first separator. */
  lemma SplitHead(s: string, c: char)
    ensures c !in s ==> Split(s, c)[0] == s
    ensures c in s ==> Split(s, c)[0] == s[..FirstIndex(s, c)]
  {
  }

  /** Reading a channel's cid gives back its id, as long as neither the channel type nor the id
      holds a colon. */
  lemma ParseCidOfChannel(kind: string, id: string)
    requires CidSep !in kind && CidSep !in id
    ensures ParseCid(kind + [CidSep] + id) == id
  {
    var cid := kind + [CidSep] + id;
    assert cid[..|kind|] == kind;
    assert cid[|kind|] == CidSep;
    FirstIndexUnique(cid, CidSep, |kind|);
    assert cid[|kind| + 1..] == id;
    var r := ParseCid(cid);
    if |r| < |id| {
      assert false;
    }
  }

  /** `text || "New message"`, cut to its first 50 characters plus `...` when longer than 50: never
      empty and never longer than 53. */
  function Preview(text: Option<string>): (p: string)
    ensures p != ""
    ensures |p| <= PreviewLimit + |Ellipsis|
    ensures var t := OrElse(text, Notifications.DefaultPreview);
            && (|t| <= PreviewLimit ==> p == t)
            && (|t| > PreviewLimit ==>
                  |p| == PreviewLimit + |Ellipsis| && p[..PreviewLimit] == t[..PreviewLimit] && p[PreviewLimit..] == Ellipsis)
  {
    var t := OrElse(text, Notifications.DefaultPreview);
    if |t| > PreviewLimit then t[..PreviewLimit] + Ellipsis else t
  }

  /** A preview of a preview is the same preview. */
  lemma PreviewIdempotent(text: Option<string>)
    ensures Preview(Some(Preview(text))) == Preview(text)
  {
    var p := Preview(text);
    if |p| > PreviewLimit {
      assert p == p[..PreviewLimit] + Ellipsis;
    }
  }

  /** The parts of a `message.new` event the handler reads: whether a message is attached (its
      text and its author's id, both optional), the acting user's id, and the channel cid. */
  datatype Message = Message(text: Option<string>, author: Option<Id>)

  datatype MessageEvent = MessageEvent(message: Option<Message>, user: Option<Id>, cid: Option<string>)

  /** The arguments of `createMessageNotification(senderId, channelId, messagePreview)`. */
  datatype NotificationCall = NotificationCall(senderId: Id, channelId: string, preview: string)

  /** handleNewMessage for the signed-in user `me` while `current` is the channel being viewed: a
      notification is requested exactly when a message and its user are present, the user is not
      `me`, a cid is present, and the channel it names is not the one being viewed. */
  function HandleNewMessage(me: Id, current: Option<string>, ev: MessageEvent): (r: Option<NotificationCall>)
    ensures r.Some? <==>
              && ev.message.Some? && ev.user.Some? && ev.user.value != me && Present(ev.cid)
              && current != Some(ParseCid(ev.cid.value))
    ensures r.Some? ==>
              && r.value.channelId == ParseCid(ev.cid.value)
              && r.value.preview == Preview(ev.message.value.text)
              && (Present(ev.message.value.author) ==> r.value.senderId == ev.message.value.author.value)
              && (!Present(ev.message.value.author) ==> r.value.senderId == ev.user.value)
  {
    if ev.message.None? || ev.user.None? then None
    else if ev.user.value == me then None
    else if !Present(ev.cid) then None
    else
      var channelId := ParseCid(ev.cid.value);
      if current == Some(channelId) then None
      else Some(NotificationCall(OrElse(ev.message.value.author, ev.user.value), channelId,
                                 Preview(ev.message.value.text)))
  }

  /** While `/chat/<x>` is open, a message arriving on the direct channel between `me` and `x`
      (whoever of the two created it) produces no notification, provided the ids hold no `/`, `:`
      or `-` and the channel type holds no `:`. */
  lemma NoNotificationForOpenChat(me: Id, x: Id, prev: Option<string>, kind: string, ev: MessageEvent)
    requires x != "" && '/' !in x
    requires CidSep !in me && CidSep !in x && CidSep !in kind
    requires ev.cid == Some(kind + [CidSep] + DmChannelId(x, me))
    ensures HandleNewMessage(me, ChannelOnRoute(prev, ChatPrefix + x, Some(me)), ev).None?
  {
    ChatIdOfPlainId(x);
    DmChannelIdSymmetric(x, me);
    ParseCidOfChannel(kind, DmChannelId(me, x));
  }

  /** Once the chat room announces a channel, messages on it are not notified; an empty
      announcement clears the channel so that nothing from others is skipped. */
  lemma AnnouncedChannelSuppressed(me: Id, announced: Option<string>, ev: MessageEvent)
    requires ev.message.Some? && ev.user.Some? && ev.user.value != me && Present(ev.cid)
    ensures Present(announced) ==>
              (HandleNewMessage(me, ChannelChanged(announced), ev).None? <==> ParseCid(ev.cid.value) == announced.value)
    ensures !Present(announced) ==> HandleNewMessage(me, ChannelChanged(announced), ev).Some?
  {
  }

  /** What the backend stores is the preview the hook sent: the preview is never empty, so the
      backend's own `"New message"` fallback never applies. */
  lemma SentPreviewIsStored(users: map<Id, User>, notes: seq<Notification>, recipient: Id,
                            call: NotificationCall, noteId: Id, now: int)
    requires call.senderId != "" && call.channelId != "" && call.preview != ""
    ensures var r := Notifications.CreateMessageNotification(users, notes, recipient, Some(call.senderId),
                                                              Some(call.channelId), Some(call.preview), noteId, now);
            && (r.Ok? && r.value.outcome == Notifications.Created ==>
                  r.value.notes[|notes|].messagePreview == Some(call.preview))
            && (r.Ok? && r.value.outcome == Notifications.Updated ==>
                  var i := Notifications.FindUnreadThread(notes, recipient, call.channelId).value;
                  r.value.notes[i].message == call.preview && r.value.notes[i].messagePreview == Some(call.preview))
  {
  }
}
