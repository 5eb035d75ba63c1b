/** The friend graph handlers of the user controller: sending, accepting and removing friend
    requests, and the read-only aggregation of a user's requests. */
module Friends {
  import opened Wrappers
  import opened Seqs
  import opened UserModel
  import opened RequestModel
  import opened Database

  const SelfRequestMsg := "You can't send friend request to yourself"
  const RecipientNotFoundMsg := "Recipient not found"
  const AlreadyFriendsMsg := "You are already friends with this user"
  const NobodyMsg := "This user does not accept friend requests"
  const FriendsOfFriendsMsg := "This user only accepts friend requests from friends of friends"
  const RequestExistsMsg := "A friend request already exists between you and this user"
  const RequestNotFoundMsg := "Friend request not found"
  const NotRecipientMsg := "You are not authorized to accept this request"
  const SelfRemoveMsg := "You can't remove yourself as a friend"
  const FriendNotFoundMsg := "Friend not found"
  const NotFriendsMsg := "You are not friends with this user"

  /** Both parties of a send exist and are distinct. */
  predicate Resolved(st: Store, me: Id, other: Id)
  {
    me != other && other in st.users && me in st.users
  }

  /** Either friends list already names the other party. */
  predicate AlreadyFriends(st: Store, me: Id, other: Id)
    requires Resolved(st, me, other)
  {
    other in st.users[me].friends || me in st.users[other].friends
  }

  /** The friends-of-friends test: the recipient's friends, as populated (so references to users that
      no longer exist drop out), meet the sender's raw friends list. */
  predicate HasMutualFriend(users: map<Id, User>, recipient: Id, sender: Id)
    requires recipient in users && sender in users
  {
    exists f :: f in users[recipient].friends && f in users && f in users[sender].friends
  }

  predicate PrivacyAllows(st: Store, me: Id, recipient: Id)
    requires Resolved(st, me, recipient)
  {
    match EffectivePrivacy(st.users[recipient])
    case Everyone => true
    case Nobody => false
    case FriendsOfFriends => HasMutualFriend(st.users, recipient, me)
  }

  predicate ActiveBetween(q: FriendRequest, a: Id, b: Id)
  {
    Active(q) && Between(q, a, b)
  }

  predicate RemovedBetween(q: FriendRequest, a: Id, b: Id)
  {
    q.status == Removed && Between(q, a, b)
  }

  /** The `removed` records between the pair are purged; the rest stay, in order. */
  function PurgeRemoved(reqs: seq<FriendRequest>, a: Id, b: Id): (r: seq<FriendRequest>)
    ensures forall q :: q in r <==> q in reqs && !RemovedBetween(q, a, b)
    ensures IsSubsequence(r, reqs)
    ensures NoDup(reqs) ==> NoDup(r)
  {
    var p := (q: FriendRequest) => !RemovedBetween(q, a, b);
    FilterIsSubsequence(reqs, p);
    assert NoDup(reqs) ==> NoDup(Filter(reqs, p)) by {
      if NoDup(reqs) {
        FilterNoDup(reqs, p);
      }
    }
    Filter(reqs, p)
  }

  /** Every record between the pair is deleted, whatever its status; the rest stay, in order. */
  function DeleteBetween(reqs: seq<FriendRequest>, a: Id, b: Id): (r: seq<FriendRequest>)
    ensures forall q :: q in r <==> q in reqs && !Between(q, a, b)
    ensures IsSubsequence(r, reqs)
    ensures NoDup(reqs) ==> NoDup(r)
  {
    var p := (q: FriendRequest) => !Between(q, a, b);
    FilterIsSubsequence(reqs, p);
    assert NoDup(reqs) ==> NoDup(Filter(reqs, p)) by {
      if NoDup(reqs) {
        FilterNoDup(reqs, p);
      }
    }
    Filter(reqs, p)
  }

  /** The two `$addToSet` writes of an accept: `a` gains `b` and `b` gains `a`, nothing else changes,
      and no list gains a duplicate. */
  function AddFriendship(users: map<Id, User>, a: Id, b: Id): (r: map<Id, User>)
    ensures r.Keys == users.Keys
    ensures forall u :: u in users && u != a && u != b ==> r[u] == users[u]
    ensures forall u, v :: u in users ==>
              (v in r[u].friends <==> v in users[u].friends || (u == a && v == b) || (u == b && v == a))
    ensures forall u :: u in users && NoDup(users[u].friends) ==> NoDup(r[u].friends)
    ensures forall u :: u in users ==> r[u].(friends := users[u].friends) == users[u]
  {
    map u | u in users ::
      if u == a then users[u].(friends := AddToSet(users[u].friends, b))
      else if u == b then users[u].(friends := AddToSet(users[u].friends, a))
      else users[u]
  }

  /** The two `$pull` writes of a remove: `a` loses `b` and `b` loses `a`, nothing else changes. */
  function DropFriendship(users: map<Id, User>, a: Id, b: Id): (r: map<Id, User>)
    ensures r.Keys == users.Keys
    ensures forall u :: u in users && u != a && u != b ==> r[u] == users[u]
    ensures forall u, v :: u in users ==>
              (v in r[u].friends <==> v in users[u].friends && !(u == a && v == b) && !(u == b && v == a))
    ensures forall u :: u in users && NoDup(users[u].friends) ==> NoDup(r[u].friends)
    ensures forall u :: u in users ==> r[u].(friends := users[u].friends) == users[u]
  {
    map u | u in users ::
      if u == a then users[u].(friends := RemoveAll(users[u].friends, b))
      else if u == b then users[u].(friends := RemoveAll(users[u].friends, a))
      else users[u]
  }

  /** `FriendRequest.findById`: the position of the record with that id. */
  function FindRequest(reqs: seq<FriendRequest>, id: Id): (r: Option<nat>)
    ensures r.Some? ==> r.value < |reqs| && reqs[r.value].id == id
    ensures r.None? <==> forall q :: q in reqs ==> q.id != id
  {
    if reqs == [] then None
    else if reqs[0].id == id then Some(0)
    else
      assert reqs == [reqs[0]] + reqs[1..];
      match FindRequest(reqs[1..], id)
      case None => None
      case Some(k) => Some(k + 1)
  }

  /** The `findOne` for a pending or accepted record between the pair, in either direction. */
  function FirstActiveBetween(reqs: seq<FriendRequest>, a: Id, b: Id): (r: Option<nat>)
    ensures r.Some? ==> r.value < |reqs| && ActiveBetween(reqs[r.value], a, b)
    ensures r.None? <==> forall q :: q in reqs ==> !ActiveBetween(q, a, b)
  {
    if reqs == [] then None
    else if ActiveBetween(reqs[0], a, b) then Some(0)
    else
      assert reqs == [reqs[0]] + reqs[1..];
      match FirstActiveBetween(reqs[1..], a, b)
      case None => None
      case Some(k) => Some(k + 1)
  }

  /** The user-level guards of a send, before the request collection is consulted. */
  predicate SendGuardsPass(st: Store, me: Id, recipientId: Id)
  {
    Resolved(st, me, recipientId) && !AlreadyFriends(st, me, recipientId) && PrivacyAllows(st, me, recipientId)
  }

  /** sendFriendRequest. The guards run in the order below and a refusal changes nothing; a
      success purges the pair's `removed` records and appends one pending request. */
  function SendFriendRequest(st: Store, me: Id, recipientId: Id, requestId: Id, now: int): (r: Result<Store>)
    ensures me == recipientId ==> r == Err(BadRequest, SelfRequestMsg)
    ensures me != recipientId && recipientId !in st.users ==> r == Err(NotFound, RecipientNotFoundMsg)
    ensures me != recipientId && recipientId in st.users && me !in st.users ==> r == Err(NotFound, UserNotFoundMsg)
    ensures Resolved(st, me, recipientId) && AlreadyFriends(st, me, recipientId) ==>
              r == Err(BadRequest, AlreadyFriendsMsg)
    ensures (Resolved(st, me, recipientId) && !AlreadyFriends(st, me, recipientId)
             && EffectivePrivacy(st.users[recipientId]) == Nobody) ==> r == Err(Forbidden, NobodyMsg)
    ensures (Resolved(st, me, recipientId) && !AlreadyFriends(st, me, recipientId)
             && EffectivePrivacy(st.users[recipientId]) == FriendsOfFriends
             && !HasMutualFriend(st.users, recipientId, me)) ==> r == Err(Forbidden, FriendsOfFriendsMsg)
    ensures SendGuardsPass(st, me, recipientId) && FirstActiveBetween(st.requests, me, recipientId).Some? ==>
              var q := st.requests[FirstActiveBetween(st.requests, me, recipientId).value];
              r == Err(BadRequest, if q.status == Pending then RequestExistsMsg else AlreadyFriendsMsg)
    ensures r.Ok? <==>
              SendGuardsPass(st, me, recipientId) && forall q :: q in st.requests ==> !ActiveBetween(q, me, recipientId)
    ensures r.Ok? ==> r.value.users == st.users && r.value.groups == st.groups
                      && r.value.notifications == st.notifications
    ensures r.Ok? ==>
              var reqs := r.value.requests;
              && |reqs| >= 1
              && reqs[|reqs| - 1] == FriendRequest(requestId, me, recipientId, Pending, now)
              && (forall q :: q in reqs[..|reqs| - 1] <==> q in st.requests && !RemovedBetween(q, me, recipientId))
              && IsSubsequence(reqs[..|reqs| - 1], st.requests)
  {
    match SendGuards(st, me, recipientId)
    case Err(status, message) => Err(status, message)
    case Ok(_) =>
      match FirstActiveBetween(st.requests, me, recipientId)
      case Some(i) =>
        if st.requests[i].status == Pending then Err(BadRequest, RequestExistsMsg)
        else Err(BadRequest, AlreadyFriendsMsg)
      case None => Ok(st.(requests := PurgeAndAppend(st.requests, me, recipientId, requestId, now)))
  }

  /** The user-level guards of a send, in the handler's order, each with its refusal. */
  function SendGuards(st: Store, me: Id, recipientId: Id): (r: Result<()>)
    ensures me == recipientId ==> r == Err(BadRequest, SelfRequestMsg)
    ensures me != recipientId && recipientId !in st.users ==> r == Err(NotFound, RecipientNotFoundMsg)
    ensures me != recipientId && recipientId in st.users && me !in st.users ==> r == Err(NotFound, UserNotFoundMsg)
    ensures Resolved(st, me, recipientId) && AlreadyFriends(st, me, recipientId) ==>
              r == Err(BadRequest, AlreadyFriendsMsg)
    ensures (Resolved(st, me, recipientId) && !AlreadyFriends(st, me, recipientId)
             && EffectivePrivacy(st.users[recipientId]) == Nobody) ==> r == Err(Forbidden, NobodyMsg)
    ensures (Resolved(st, me, recipientId) && !AlreadyFriends(st, me, recipientId)
             && EffectivePrivacy(st.users[recipientId]) == FriendsOfFriends
             && !HasMutualFriend(st.users, recipientId, me)) ==> r == Err(Forbidden, FriendsOfFriendsMsg)
    ensures r.Ok? <==> SendGuardsPass(st, me, recipientId)
  {
    if me == recipientId then Err(BadRequest, SelfRequestMsg)
    else if recipientId !in st.users then Err(NotFound, RecipientNotFoundMsg)
    else if me !in st.users then Err(NotFound, UserNotFoundMsg)
    else if AlreadyFriends(st, me, recipientId) then Err(BadRequest, AlreadyFriendsMsg)
    else if EffectivePrivacy(st.users[recipientId]) == Nobody then Err(Forbidden, NobodyMsg)
    else if EffectivePrivacy(st.users[recipientId]) == FriendsOfFriends
            && !HasMutualFriend(st.users, recipientId, me) then Err(Forbidden, FriendsOfFriendsMsg)
    else Ok(())
  }

  /** The requests after a successful send: the pair's `removed` records purged, then the new
      pending request appended. */
  function PurgeAndAppend(reqs: seq<FriendRequest>, me: Id, recipientId: Id, requestId: Id, now: int): (r: seq<FriendRequest>)
    ensures |r| >= 1 && r[|r| - 1] == FriendRequest(requestId, me, recipientId, Pending, now)
    ensures r[..|r| - 1] == PurgeRemoved(reqs, me, recipientId)
    ensures forall q :: q in r[..|r| - 1] <==> q in reqs && !RemovedBetween(q, me, recipientId)
    ensures IsSubsequence(r[..|r| - 1], reqs)
  {
    var kept := PurgeRemoved(reqs, me, recipientId);
    var r := kept + [FriendRequest(requestId, me, recipientId, Pending, now)];
    assert r[..|r| - 1] == kept;
    r
  }

  /** acceptFriendRequest: only the recipient may accept, and the status is not checked. The record
      becomes accepted and each party is set-unioned into the other's friends list. */
  function AcceptFriendRequest(st: Store, requestId: Id, me: Id, now: int): (r: Result<Store>)
    ensures FindRequest(st.requests, requestId).None? <==> r == Err(NotFound, RequestNotFoundMsg)
    ensures FindRequest(st.requests, requestId).Some? ==>
              var q := st.requests[FindRequest(st.requests, requestId).value];
              && (q.recipient != me <==> r == Err(Forbidden, NotRecipientMsg))
              && (q.recipient == me <==> r.Ok?)
    ensures r.Ok? ==>
              var i := FindRequest(st.requests, requestId).value;
              var q := st.requests[i];
              && q.recipient == me
              && r.value.requests == st.requests[i := q.(status := Accepted, updatedAt := now)]
              && r.value.groups == st.groups && r.value.notifications == st.notifications
              && r.value.users.Keys == st.users.Keys
              && (forall u :: u in st.users && u != q.sender && u != q.recipient ==> r.value.users[u] == st.users[u])
              && (forall u, v :: u in st.users ==>
                    (v in r.value.users[u].friends <==>
                       v in st.users[u].friends || (u == q.sender && v == q.recipient) || (u == q.recipient && v == q.sender)))
              && (forall u :: u in st.users ==> r.value.users[u].(friends := st.users[u].friends) == st.users[u])
              && (forall u :: u in st.users && NoDup(st.users[u].friends) ==> NoDup(r.value.users[u].friends))
  {
    match FindRequest(st.requests, requestId)
    case None => Err(NotFound, RequestNotFoundMsg)
    case Some(i) =>
      var q := st.requests[i];
      if q.recipient != me then Err(Forbidden, NotRecipientMsg)
      else
        Ok(st.(requests := st.requests[i := q.(status := Accepted, updatedAt := now)],
               users := AddFriendship(st.users, q.sender, q.recipient)))
  }

  /** removeFriend. The friendship check looks only at the caller's list. Afterwards neither is in
      the other's list and the only record left between them is one `removed` record from the caller. */
  function RemoveFriend(st: Store, me: Id, friendId: Id, requestId: Id, now: int): (r: Result<Store>)
    ensures me == friendId ==> r == Err(BadRequest, SelfRemoveMsg)
    ensures me != friendId && friendId !in st.users ==> r == Err(NotFound, FriendNotFoundMsg)
    ensures me != friendId && friendId in st.users && me !in st.users ==> r == Err(NotFound, UserNotFoundMsg)
    ensures Resolved(st, me, friendId) && friendId !in st.users[me].friends ==> r == Err(BadRequest, NotFriendsMsg)
    ensures r.Ok? <==> Resolved(st, me, friendId) && friendId in st.users[me].friends
    ensures r.Ok? ==>
              && r.value.groups == st.groups && r.value.notifications == st.notifications
              && r.value.users.Keys == st.users.Keys
              && (forall u :: u in st.users && u != me && u != friendId ==> r.value.users[u] == st.users[u])
              && (forall u, v :: u in st.users ==>
                    (v in r.value.users[u].friends <==>
                       v in st.users[u].friends && !(u == me && v == friendId) && !(u == friendId && v == me)))
              && (forall u :: u in st.users ==> r.value.users[u].(friends := st.users[u].friends) == st.users[u])
              && (forall u :: u in st.users && NoDup(st.users[u].friends) ==> NoDup(r.value.users[u].friends))
    ensures r.Ok? ==>
              var reqs := r.value.requests;
              && |reqs| >= 1
              && reqs[|reqs| - 1] == FriendRequest(requestId, me, friendId, Removed, now)
              && (forall k :: 0 <= k < |reqs| - 1 ==> !Between(reqs[k], me, friendId))
              && (forall q :: q in reqs[..|reqs| - 1] <==> q in st.requests && !Between(q, me, friendId))
  {
    if me == friendId then Err(BadRequest, SelfRemoveMsg)
    else if friendId !in st.users then Err(NotFound, FriendNotFoundMsg)
    else if me !in st.users then Err(NotFound, UserNotFoundMsg)
    else if friendId !in st.users[me].friends then Err(BadRequest, NotFriendsMsg)
    else Ok(st.(users := DropFriendship(st.users, me, friendId),
                requests := DeleteAndRecord(st.requests, me, friendId, requestId, now)))
  }

  /** The requests after a successful remove: every record between the pair deleted, then the
      caller's `removed` record appended. */
  function DeleteAndRecord(reqs: seq<FriendRequest>, me: Id, friendId: Id, requestId: Id, now: int)
    : (r: seq<FriendRequest>)
    ensures |r| >= 1 && r[|r| - 1] == FriendRequest(requestId, me, friendId, Removed, now)
    ensures forall k :: 0 <= k < |r| - 1 ==> !Between(r[k], me, friendId)
    ensures forall q :: q in r[..|r| - 1] <==> q in reqs && !Between(q, me, friendId)
  {
    var kept := DeleteBetween(reqs, me, friendId);
    var r := kept + [FriendRequest(requestId, me, friendId, Removed, now)];
    assert r[..|r| - 1] == kept;
    assert forall k :: 0 <= k < |kept| ==> kept[k] in kept;
    r
  }

  /** After a successful remove, exactly one record links the pair: the caller's `removed` record.
      Stated as a query: looking up every record between the two users, in either direction,
      finds that record and nothing else. */
  lemma {:induction false} RemoveLeavesOneRecord(st: Store, me: Id, friendId: Id, requestId: Id, now: int)
    requires RemoveFriend(st, me, friendId, requestId, now).Ok?
    ensures var reqs := RemoveFriend(st, me, friendId, requestId, now).value.requests;
            Filter(reqs, q => Between(q, me, friendId)) == [FriendRequest(requestId, me, friendId, Removed, now)]
  {
    var reqs := RemoveFriend(st, me, friendId, requestId, now).value.requests;
    var kept := reqs[..|reqs| - 1];
    assert reqs == kept + [reqs[|reqs| - 1]];
    FilterOnlyLast(kept, reqs[|reqs| - 1], q => Between(q, me, friendId));
  }

  // ---------------------------------------------------------------------------------------------
  // getFriendRequests

  /** Which side of an accepted request the caller was on. */
  datatype RequestRole = AsSender | AsRecipient

  /** An accepted request tagged with the caller's role and the other party. */
  datatype AcceptedEntry = AcceptedEntry(request: FriendRequest, role: RequestRole, otherUser: Id)

  /** The three lists the handler answers with, and nothing else. */
  datatype FriendRequestsView = FriendRequestsView(
    incoming: seq<FriendRequest>,
    accepted: seq<AcceptedEntry>,
    removed: seq<FriendRequest>)

  /** The four queries the handler runs against the request collection. */
  datatype Query = IncomingPending | AcceptedAsSender | AcceptedAsRecipient | RemovedForMe

  predicate Matches(query: Query, me: Id, q: FriendRequest)
  {
    match query
    case IncomingPending => q.recipient == me && q.status == Pending
    case AcceptedAsSender => q.sender == me && q.status == Accepted
    case AcceptedAsRecipient => q.recipient == me && q.status == Accepted
    case RemovedForMe => q.recipient == me && q.status == Removed
  }

  /** Each of the capped queries returns at most this many records. */
  const RecentCap: nat := 10

  function UpdatedAt(q: FriendRequest): int { q.updatedAt }

  function EntryUpdatedAt(e: AcceptedEntry): int { e.request.updatedAt }

  /** `find(filter)` without sort or limit: the matches in natural order. */
  function AllMatching(reqs: seq<FriendRequest>, query: Query, me: Id): (r: seq<FriendRequest>)
    ensures forall q :: q in r <==> q in reqs && Matches(query, me, q)
    ensures IsSubsequence(r, reqs)
  {
    var p := (q: FriendRequest) => Matches(query, me, q);
    FilterIsSubsequence(reqs, p);
    Filter(reqs, p)
  }

  /** `find(filter).sort({ updatedAt: -1 }).limit(10)`: the most recently updated matches. */
  function RecentMatching(reqs: seq<FriendRequest>, query: Query, me: Id): (r: seq<FriendRequest>)
    ensures |r| == if |AllMatching(reqs, query, me)| <= RecentCap then |AllMatching(reqs, query, me)| else RecentCap
    ensures SortedDesc(r, UpdatedAt)
    ensures forall q :: q in r ==> q in reqs && Matches(query, me, q)
    ensures multiset(r) <= multiset(AllMatching(reqs, query, me))
    ensures |AllMatching(reqs, query, me)| <= RecentCap ==>
              multiset(r) == multiset(AllMatching(reqs, query, me))
    ensures forall q, x :: q in r && x in reqs && Matches(query, me, x) && x !in r ==> UpdatedAt(x) <= UpdatedAt(q)
  {
    var matching := AllMatching(reqs, query, me);
    assert forall x :: x in reqs && Matches(query, me, x) ==> x in matching;
    TopByKey(matching, RecentCap, UpdatedAt)
  }

  /** The `map` that tags each record with the caller's role and the other party. */
  function Tag(reqs: seq<FriendRequest>, role: RequestRole): (r: seq<AcceptedEntry>)
    ensures |r| == |reqs|
    ensures forall i :: 0 <= i < |r| ==> r[i].request == reqs[i] && r[i].role == role
    ensures forall i :: 0 <= i < |r| ==>
              r[i].otherUser == if role == AsSender then reqs[i].recipient else reqs[i].sender
  {
    seq(|reqs|, i requires 0 <= i < |reqs| =>
      AcceptedEntry(reqs[i], role, if role == AsSender then reqs[i].recipient else reqs[i].sender))
  }

  /** What an entry of the accepted list says: an accepted record of the caller's, tagged with the
      side the caller was on and the party on the other side. */
  predicate ValidEntry(reqs: seq<FriendRequest>, me: Id, e: AcceptedEntry)
  {
    && e.request in reqs && e.request.status == Accepted
    && (e.role == AsSender ==> e.request.sender == me && e.otherUser == e.request.recipient)
    && (e.role == AsRecipient ==> e.request.recipient == me && e.otherUser == e.request.sender)
  }

  lemma TagValid(reqs: seq<FriendRequest>, me: Id, query: Query, role: RequestRole)
    requires query == (if role == AsSender then AcceptedAsSender else AcceptedAsRecipient)
    ensures forall e :: e in Tag(RecentMatching(reqs, query, me), role) ==> ValidEntry(reqs, me, e)
  {
    var rs := RecentMatching(reqs, query, me);
    var t := Tag(rs, role);
    forall e | e in t ensures ValidEntry(reqs, me, e) {
      var i :| 0 <= i < |t| && t[i] == e;
      assert rs[i] in rs;
    }
  }

  /** The two accepted queries, tagged, concatenated and sorted newest first. */
  function RecentAccepted(reqs: seq<FriendRequest>, me: Id): (r: seq<AcceptedEntry>)
    ensures |r| <= 2 * RecentCap
    ensures SortedDesc(r, EntryUpdatedAt)
    ensures multiset(r) == multiset(Tag(RecentMatching(reqs, AcceptedAsSender, me), AsSender))
                         + multiset(Tag(RecentMatching(reqs, AcceptedAsRecipient, me), AsRecipient))
    ensures forall e :: e in r ==> ValidEntry(reqs, me, e)
  {
    var asSender := Tag(RecentMatching(reqs, AcceptedAsSender, me), AsSender);
    var asRecipient := Tag(RecentMatching(reqs, AcceptedAsRecipient, me), AsRecipient);
    TagValid(reqs, me, AcceptedAsSender, AsSender);
    TagValid(reqs, me, AcceptedAsRecipient, AsRecipient);
    var both := asSender + asRecipient;
    var r := SortDesc(both, EntryUpdatedAt);
    assert forall e :: e in r ==> e in both by {
      forall e | e in r ensures e in both {
        assert e in multiset(r);
      }
    }
    r
  }

  /** getFriendRequests: incoming pending requests uncapped, the two accepted lists merged, and the
      ten most recent `removed` records addressed to the caller. */
  function GetFriendRequests(st: Store, me: Id): (v: FriendRequestsView)
    ensures forall q :: q in v.incoming <==> q in st.requests && q.recipient == me && q.status == Pending
    ensures IsSubsequence(v.incoming, st.requests)
    ensures v.accepted == RecentAccepted(st.requests, me)
    ensures v.removed == RecentMatching(st.requests, RemovedForMe, me)
    ensures multiset(v.removed) <= multiset(AllMatching(st.requests, RemovedForMe, me))
    ensures |AllMatching(st.requests, RemovedForMe, me)| <= RecentCap ==>
              multiset(v.removed) == multiset(AllMatching(st.requests, RemovedForMe, me))
  {
    FriendRequestsView(
      AllMatching(st.requests, IncomingPending, me),
      RecentAccepted(st.requests, me),
      RecentMatching(st.requests, RemovedForMe, me))
  }

  /** The removed list holds only `removed` records addressed to the caller: ten of them, or all of
      them when there are fewer, newest first, and every such record left out is no newer than any
      kept one. */
  lemma RemovedListIsRecent(st: Store, me: Id)
    ensures forall q :: q in AllMatching(st.requests, RemovedForMe, me) <==>
              q in st.requests && q.recipient == me && q.status == Removed
    ensures var rs := GetFriendRequests(st, me).removed;
            var all := AllMatching(st.requests, RemovedForMe, me);
            && |rs| == (if |all| <= RecentCap then |all| else RecentCap)
            && multiset(rs) <= multiset(all)
            && (|all| <= RecentCap ==> multiset(rs) == multiset(all))
            && SortedDesc(rs, UpdatedAt)
            && (forall q :: q in rs ==> q in st.requests && q.recipient == me && q.status == Removed)
            && (forall q, x :: q in rs && x in st.requests && x.recipient == me && x.status == Removed && x !in rs ==>
                  x.updatedAt <= q.updatedAt)
  {
    var rs := RecentMatching(st.requests, RemovedForMe, me);
    forall q, x | q in rs && x in st.requests && x.recipient == me && x.status == Removed && x !in rs
      ensures x.updatedAt <= q.updatedAt
    {
      assert Matches(RemovedForMe, me, x);
      assert UpdatedAt(x) <= UpdatedAt(q);
    }
    forall q | q in rs ensures q.recipient == me && q.status == Removed {
      assert Matches(RemovedForMe, me, q);
    }
  }

  // ---------------------------------------------------------------------------------------------
  // Invariants of the friend graph

  /** Friendship is mutual between existing users. */
  ghost predicate FriendsSymmetric(users: map<Id, User>)
  {
    forall a, b :: a in users && b in users && b in users[a].friends ==> a in users[b].friends
  }

  /** Every friend reference resolves to an existing user. */
  ghost predicate FriendsResolve(users: map<Id, User>)
  {
    forall a, b :: a in users && b in users[a].friends ==> b in users
  }

  ghost predicate FriendsDupFree(users: map<Id, User>)
  {
    forall a :: a in users ==> NoDup(users[a].friends)
  }

  /** Every request names two existing users. */
  ghost predicate RequestsResolve(users: map<Id, User>, reqs: seq<FriendRequest>)
  {
    forall q :: q in reqs ==> q.sender in users && q.recipient in users
  }

  /** An accepted request stands for a friendship that both lists record. */
  ghost predicate AcceptedAreFriends(users: map<Id, User>, reqs: seq<FriendRequest>)
  {
    forall q :: q in reqs && q.status == Accepted && q.sender in users && q.recipient in users ==>
      q.recipient in users[q.sender].friends && q.sender in users[q.recipient].friends
  }

  /** At most one record, of any status, per unordered pair. */
  ghost predicate OneRequestPerPair(reqs: seq<FriendRequest>)
  {
    && NoDup(reqs)
    && forall p, q :: p in reqs && q in reqs && Between(q, p.sender, p.recipient) ==> p == q
  }

  ghost predicate GraphInvariant(st: Store)
  {
    && FriendsSymmetric(st.users)
    && FriendsResolve(st.users)
    && FriendsDupFree(st.users)
    && RequestsResolve(st.users, st.requests)
    && AcceptedAreFriends(st.users, st.requests)
    && OneRequestPerPair(st.requests)
  }

  /** Appending a record for a pair no kept record links keeps one record per pair. */
  lemma AppendForFreshPair(kept: seq<FriendRequest>, added: FriendRequest)
    requires OneRequestPerPair(kept)
    requires forall q :: q in kept ==> !Between(q, added.sender, added.recipient)
    ensures OneRequestPerPair(kept + [added])
  {
    var reqs := kept + [added];
    assert forall q :: q in reqs <==> q in kept || q == added;
    assert added !in kept;
  }

  /** A duplicate-free subsequence of a one-record-per-pair list has one record per pair too. */
  lemma OnePerPairSubset(reqs: seq<FriendRequest>, kept: seq<FriendRequest>)
    requires OneRequestPerPair(reqs) && NoDup(kept)
    requires forall q :: q in kept ==> q in reqs
    ensures OneRequestPerPair(kept)
  {
  }

  lemma SendPreservesGraph(st: Store, me: Id, recipientId: Id, requestId: Id, now: int)
    requires GraphInvariant(st)
    ensures var r := SendFriendRequest(st, me, recipientId, requestId, now);
            r.Ok? ==> GraphInvariant(r.value)
  {
    var r := SendFriendRequest(st, me, recipientId, requestId, now);
    if r.Ok? {
      var reqs := r.value.requests;
      var kept := PurgeRemoved(st.requests, me, recipientId);
      var added := FriendRequest(requestId, me, recipientId, Pending, now);
      assert reqs == kept + [added];
      assert forall q :: q in reqs <==> q in kept || q == added;
      OnePerPairSubset(st.requests, kept);
      assert forall q :: q in kept ==> !Between(q, me, recipientId) by {
        forall q | q in kept ensures !Between(q, me, recipientId) {
          assert !RemovedBetween(q, me, recipientId) && !ActiveBetween(q, me, recipientId);
        }
      }
      AppendForFreshPair(kept, added);
    }
  }

  lemma AcceptPreservesGraph(st: Store, requestId: Id, me: Id, now: int)
    requires GraphInvariant(st)
    ensures var r := AcceptFriendRequest(st, requestId, me, now);
            r.Ok? ==> GraphInvariant(r.value)
  {
    var r := AcceptFriendRequest(st, requestId, me, now);
    if r.Ok? {
      var i := FindRequest(st.requests, requestId).value;
      var q := st.requests[i];
      var st' := r.value;
      AcceptKeepsUsers(st.users, q.sender, q.recipient);
      AcceptKeepsRequests(st.users, st.requests, i, now);
    }
  }

  /** The friends-list half of an accept: given that both parties exist, the list invariants hold after it. */
  lemma AcceptKeepsUsers(users: map<Id, User>, a: Id, b: Id)
    requires FriendsSymmetric(users) && FriendsResolve(users) && FriendsDupFree(users)
    requires a in users && b in users
    ensures var users' := AddFriendship(users, a, b);
            FriendsSymmetric(users') && FriendsResolve(users') && FriendsDupFree(users')
  {
  }

  /** The request half of an accept: one record turns accepted, and its parties are now friends. */
  lemma AcceptKeepsRequests(users: map<Id, User>, reqs: seq<FriendRequest>, i: nat, now: int)
    requires i < |reqs|
    requires RequestsResolve(users, reqs) && AcceptedAreFriends(users, reqs) && OneRequestPerPair(reqs)
    ensures var users' := AddFriendship(users, reqs[i].sender, reqs[i].recipient);
            var reqs' := reqs[i := reqs[i].(status := Accepted, updatedAt := now)];
            RequestsResolve(users', reqs') && AcceptedAreFriends(users', reqs') && OneRequestPerPair(reqs')
  {
    var q := reqs[i];
    var q' := q.(status := Accepted, updatedAt := now);
    var reqs' := reqs[i := q'];
    assert q in reqs;
    ReplaceMembers(reqs, i, q');
    ReplaceKeepsOnePerPair(reqs, i, q');
  }

  /** After replacing one element, every element is the new one or an old one. */
  lemma ReplaceMembers<T>(s: seq<T>, i: nat, x: T)
    requires i < |s|
    ensures forall y :: y in s[i := x] ==> y == x || y in s
  {
    forall y | y in s[i := x] ensures y == x || y in s {
      var k :| 0 <= k < |s| && s[i := x][k] == y;
      if k != i {
        assert y == s[k];
      }
    }
  }

  /** Rewriting a record in place, between the same two users, keeps one record per pair. */
  lemma ReplaceKeepsOnePerPair(reqs: seq<FriendRequest>, i: nat, q': FriendRequest)
    requires i < |reqs| && OneRequestPerPair(reqs)
    requires q'.sender == reqs[i].sender && q'.recipient == reqs[i].recipient
    ensures OneRequestPerPair(reqs[i := q'])
  {
    var q := reqs[i];
    var r := reqs[i := q'];
    assert q in reqs;
    forall k | 0 <= k < |reqs| && k != i
      ensures r[k] == reqs[k] && !Between(reqs[k], q.sender, q.recipient)
    {
      assert reqs[k] in reqs;
      if Between(reqs[k], q.sender, q.recipient) {
        assert false;
      }
    }
    forall a, b | 0 <= a < b < |r| ensures r[a] != r[b] {
      if a != i && b != i {
        assert r[a] == reqs[a] && r[b] == reqs[b];
      }
    }
    forall p, x | p in r && x in r && Between(x, p.sender, p.recipient) ensures p == x {
      var a :| 0 <= a < |r| && r[a] == p;
      var b :| 0 <= b < |r| && r[b] == x;
      if a != i && b != i {
        assert p in reqs && x in reqs;
      } else if a != i || b != i {
        assert false;
      }
    }
  }

  lemma RemovePreservesGraph(st: Store, me: Id, friendId: Id, requestId: Id, now: int)
    requires GraphInvariant(st)
    ensures var r := RemoveFriend(st, me, friendId, requestId, now);
            r.Ok? ==> GraphInvariant(r.value)
  {
    var r := RemoveFriend(st, me, friendId, requestId, now);
    if r.Ok? {
      var st' := r.value;
      var kept := DeleteBetween(st.requests, me, friendId);
      var added := FriendRequest(requestId, me, friendId, Removed, now);
      assert st'.requests == kept + [added];
      assert forall q :: q in st'.requests <==> q in kept || q == added;
      OnePerPairSubset(st.requests, kept);
      AppendForFreshPair(kept, added);
      RemoveKeepsUsers(st.users, me, friendId);
      assert AcceptedAreFriends(st'.users, st'.requests) by {
        forall q | q in st'.requests && q.status == Accepted && q.sender in st'.users && q.recipient in st'.users
          ensures q.recipient in st'.users[q.sender].friends && q.sender in st'.users[q.recipient].friends
        {
          assert q in kept && q in st.requests && !Between(q, me, friendId);
        }
      }
    }
  }

  /** The friends-list half of a remove. */
  lemma RemoveKeepsUsers(users: map<Id, User>, a: Id, b: Id)
    requires FriendsSymmetric(users) && FriendsResolve(users) && FriendsDupFree(users)
    ensures var users' := DropFriendship(users, a, b);
            FriendsSymmetric(users') && FriendsResolve(users') && FriendsDupFree(users')
  {
  }
}
