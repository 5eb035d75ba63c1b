/** The admin controller: deleting any user with a cascade over every collection, deleting any
    group, the paginated user and group listings, and the dashboard's counters. */
module Admin {
  import opened Wrappers
  import opened Seqs
  import opened UserModel
  import opened GroupModel
  import opened NotificationModel
  import opened RequestModel
  import opened Database
  import Friends
  import Groups

  const CannotDeleteSelfMsg := "You cannot delete your own account"
  const CannotDeleteAdminMsg := "Cannot delete another admin user"

  // ---------------------------------------------------------------------------------------------
  // deleteUser and its cascade

  /** `User.updateMany({ friends: id }, { $pull: { friends: id } })` followed by deleting the user:
      every remaining user loses `id` from their friends list and keeps everything else. */
  function PullFromFriends(users: map<Id, User>, id: Id): (r: map<Id, User>)
    ensures r.Keys == users.Keys - {id}
    ensures forall u :: u in r ==> r[u] == users[u].(friends := r[u].friends)
    ensures forall u, v :: u in r ==> (v in r[u].friends <==> v in users[u].friends && v != id)
    ensures forall u :: u in r ==> IsSubsequence(r[u].friends, users[u].friends)
    ensures forall u :: u in r && NoDup(users[u].friends) ==> NoDup(r[u].friends)
  {
    map u | u in users && u != id :: users[u].(friends := RemoveAll(users[u].friends, id))
  }

  /** `Group.updateMany({ members: id }, { $pull: { members: id } })`: every group loses `id` from its
      members and keeps everything else, its creator included. */
  function PullFromMembers(groups: map<Id, Group>, id: Id): (r: map<Id, Group>)
    ensures r.Keys == groups.Keys
    ensures forall g :: g in r ==> r[g] == groups[g].(members := r[g].members)
    ensures forall g, v :: g in r ==> (v in r[g].members <==> v in groups[g].members && v != id)
    ensures forall g :: g in r ==> IsSubsequence(r[g].members, groups[g].members)
  {
    map g | g in groups :: groups[g].(members := RemoveAll(groups[g].members, id))
  }

  predicate Involves(q: FriendRequest, id: Id)
  {
    q.sender == id || q.recipient == id
  }

  /** `FriendRequest.deleteMany({ $or: [{ sender: id }, { recipient: id }] })`. */
  function DropRequestsOf(reqs: seq<FriendRequest>, id: Id): (r: seq<FriendRequest>)
    ensures forall q :: q in r <==> q in reqs && !Involves(q, id)
    ensures IsSubsequence(r, reqs)
    ensures NoDup(reqs) ==> NoDup(r)
  {
    var p := (q: FriendRequest) => !Involves(q, id);
    FilterIsSubsequence(reqs, p);
    assert NoDup(reqs) ==> NoDup(Filter(reqs, p)) by {
      if NoDup(reqs) {
        FilterNoDup(reqs, p);
      }
    }
    Filter(reqs, p)
  }

  /** `Notification.deleteMany({ user: id })`: the notifications the user owns go; the ones the user
      caused in other people's lists stay. */
  function DropNotificationsOf(notes: seq<Notification>, id: Id): (r: seq<Notification>)
    ensures forall n :: n in r <==> n in notes && n.user != id
    ensures IsSubsequence(r, notes)
  {
    var p := (n: Notification) => n.user != id;
    FilterIsSubsequence(notes, p);
    Filter(notes, p)
  }

  /** deleteUser: an admin may delete anyone but themself and other admins. The cascade leaves no
      friends entry, group membership, request or owned notification naming the deleted user. The
      chat-provider call in between is best-effort and does not affect the outcome. */
  function DeleteUser(st: Store, adminId: Id, id: Id): (r: Result<Store>)
    ensures id == adminId ==> r == Err(BadRequest, CannotDeleteSelfMsg)
    ensures id != adminId && id !in st.users ==> r == Err(NotFound, UserNotFoundMsg)
    ensures id != adminId && id in st.users && st.users[id].role == Some(Admin) ==>
              r == Err(Forbidden, CannotDeleteAdminMsg)
    ensures r.Ok? <==> id != adminId && id in st.users && st.users[id].role != Some(Admin)
    ensures r.Ok? ==>
              && r.value.users == PullFromFriends(st.users, id)
              && r.value.groups == PullFromMembers(st.groups, id)
              && r.value.requests == DropRequestsOf(st.requests, id)
              && r.value.notifications == DropNotificationsOf(st.notifications, id)
    ensures r.Ok? ==>
              && id !in r.value.users
              && (forall u :: u in r.value.users ==> id !in r.value.users[u].friends)
              && (forall g :: g in r.value.groups ==> id !in r.value.groups[g].members)
              && (forall q :: q in r.value.requests ==> !Involves(q, id))
              && (forall n :: n in r.value.notifications ==> n.user != id)
  {
    if id == adminId then Err(BadRequest, CannotDeleteSelfMsg)
    else if id !in st.users then Err(NotFound, UserNotFoundMsg)
    else if st.users[id].role == Some(Admin) then Err(Forbidden, CannotDeleteAdminMsg)
    else
      Ok(Store(PullFromFriends(st.users, id), PullFromMembers(st.groups, id),
               DropRequestsOf(st.requests, id), DropNotificationsOf(st.notifications, id)))
  }

  /** Unlike self-service account deletion, the admin cascade keeps the friend graph whole:
      symmetric, closed, duplicate-free, with one record per pair and accepted records backed by
      both friends lists. */
  lemma DeleteUserPreservesGraph(st: Store, adminId: Id, id: Id)
    requires Friends.GraphInvariant(st)
    ensures var r := DeleteUser(st, adminId, id);
            r.Ok? ==> Friends.GraphInvariant(r.value)
  {
    var r := DeleteUser(st, adminId, id);
    if r.Ok? {
      var st' := r.value;
      Friends.OnePerPairSubset(st.requests, st'.requests);
      assert Friends.FriendsSymmetric(st'.users) by {
        forall a, b | a in st'.users && b in st'.users && b in st'.users[a].friends
          ensures a in st'.users[b].friends
        {
          assert b in st.users[a].friends;
        }
      }
      assert Friends.AcceptedAreFriends(st'.users, st'.requests) by {
        forall q | q in st'.requests && q.status == Accepted && q.sender in st'.users && q.recipient in st'.users
          ensures q.recipient in st'.users[q.sender].friends && q.sender in st'.users[q.recipient].friends
        {
          assert q in st.requests;
        }
      }
    }
  }

  /** The cascade does not spare creators: deleting a group's creator leaves a group whose creator
      is no longer a member, which no group handler can produce. */
  lemma DeleteUserOrphansGroup()
    ensures var st := Store(
              map["admin" := NewUser("Admin", "a@x.io", "secret", 0).(role := Some(Admin)),
                  "u" := NewUser("U", "u@x.io", "secret", 0)],
              map["g" := Group("G", "", "en", "", "u", ["u"], [], "", 0)],
              [], []);
            && Groups.CreatorIsMember(st.groups)
            && DeleteUser(st, "admin", "u").Ok?
            && !Groups.CreatorIsMember(DeleteUser(st, "admin", "u").value.groups)
  {
    var st := Store(
      map["admin" := NewUser("Admin", "a@x.io", "secret", 0).(role := Some(Admin)),
          "u" := NewUser("U", "u@x.io", "secret", 0)],
      map["g" := Group("G", "", "en", "", "u", ["u"], [], "", 0)],
      [], []);
    var groups' := DeleteUser(st, "admin", "u").value.groups;
    assert "g" in groups' && groups'["g"].creator == "u";
  }

  // ---------------------------------------------------------------------------------------------
  // Admin deleteGroup

  /** The admin's deleteGroup: no ownership check, only existence. */
  function DeleteGroup(groups: map<Id, Group>, gid: Id): (r: Result<map<Id, Group>>)
    ensures gid !in groups ==> r == Err(NotFound, GroupNotFoundMsg)
    ensures r.Ok? <==> gid in groups
    ensures r.Ok? ==> r.value.Keys == groups.Keys - {gid} && forall h :: h in r.value ==> r.value[h] == groups[h]
  {
    if gid !in groups then Err(NotFound, GroupNotFoundMsg) else Ok(groups - {gid})
  }

  /** The admin route is the creator's route without the creator check: whenever a creator may
      delete a group, the admin deletion has the same effect, and it also succeeds where the
      creator route answers 403. */
  lemma AdminDeleteExtendsCreatorDelete(groups: map<Id, Group>, me: Id, gid: Id)
    ensures Groups.DeleteGroup(groups, me, gid).Ok? ==> DeleteGroup(groups, gid) == Groups.DeleteGroup(groups, me, gid)
    ensures Groups.DeleteGroup(groups, me, gid).Err? && Groups.DeleteGroup(groups, me, gid).status == Forbidden ==>
              DeleteGroup(groups, gid).Ok?
  {
  }

  // ---------------------------------------------------------------------------------------------
  // Pagination

  const DefaultPage: int := 1
  const DefaultLimit: int := 20

  /** `parseInt(q) || d`: the parsed query value, unless it is missing, unparsable (NaN) or 0 (all
      falsy), in which case the default. `parsed` is what `parseInt` produced, `None` for NaN. */
  function IntOr(parsed: Option<int>, d: int): (r: int)
    ensures d != 0 ==> r != 0
    ensures r == d || parsed == Some(r)
    ensures parsed.Some? && parsed.value != 0 ==> r == parsed.value
  {
    if parsed.Some? && parsed.value != 0 then parsed.value else d
  }

  /** `order === "asc" ? 1 : -1`: ascending only on the exact word, descending otherwise. */
  function SortDirection(order: Option<string>): (r: int)
    ensures r == 1 || r == -1
    ensures r == 1 <==> order == Some("asc")
  {
    if order == Some("asc") then 1 else -1
  }

  function Abs(x: int): nat { if x < 0 then -x else x }

  /** `Math.ceil(total / limit)` for a non-zero limit: the least integer not below the quotient. */
  function PageCount(total: nat, limit: int): (pages: int)
    requires limit != 0
    ensures limit > 0 ==> 0 <= pages && total <= pages * limit && (pages - 1) * limit < total
    ensures limit < 0 ==> pages <= 0 && pages * limit <= total && total < (pages - 1) * limit
  {
    if limit > 0 then
      var q := (total + limit - 1) / limit;
      assert q * limit + (total + limit - 1) % limit == total + limit - 1;
      q
    else
      var q := total / -limit;
      assert q * -limit + total % -limit == total;
      -q
  }

  /** How many of `n` sorted items `.skip(skip).limit(limit)` returns: what is left after the skip,
      but no more than the magnitude of the limit. */
  function WindowSize(n: nat, skip: nat, limit: int): nat
  {
    if skip >= n then 0 else if n - skip <= Abs(limit) then n - skip else Abs(limit)
  }

  /** `.skip((page - 1) * limit).limit(limit)` on the sorted matches. The database refuses a
      negative skip, which the handler's catch answers with 500; a negative limit returns as many
      documents as its magnitude. */
  function PageWindow<T(==,!new)>(s: seq<T>, page: int, limit: int): (r: Result<seq<T>>)
    ensures r.Err? <==> (page - 1) * limit < 0
    ensures r.Err? ==> r == Err(InternalError, InternalErrorMsg)
    ensures r.Ok? ==> var skip := (page - 1) * limit;
              && |r.value| == WindowSize(|s|, skip, limit)
              && forall k :: 0 <= k < |r.value| ==> skip + k < |s| && r.value[k] == s[skip + k]
  {
    var skip := (page - 1) * limit;
    if skip < 0 then Err(InternalError, InternalErrorMsg)
    else if skip >= |s| then Ok([])
    else Ok(Take(s[skip..], Abs(limit)))
  }

  /** With a positive limit the pages partition the list: item `k` sits on page `k / limit + 1`
      at position `k % limit`, and that page is within the advertised page count. */
  lemma ItemOnItsPage<T(!new)>(s: seq<T>, limit: int, k: nat)
    requires limit > 0 && k < |s|
    ensures var page := k / limit + 1;
            && 1 <= page <= PageCount(|s|, limit)
            && PageWindow(s, page, limit).Ok?
            && k % limit < |PageWindow(s, page, limit).value|
            && PageWindow(s, page, limit).value[k % limit] == s[k]
  {
    var page := k / limit + 1;
    ItemPageArithmetic(|s|, limit, k);
    var skip := (page - 1) * limit;
    var w := PageWindow(s, page, limit).value;
    assert |w| > k % limit;
    assert w[k % limit] == s[skip + k % limit];
  }

  /** Item `k` sits `k % limit` past the start of page `k / limit + 1`, which is a page that exists. */
  lemma ItemPageArithmetic(n: nat, limit: int, k: nat)
    requires limit > 0 && k < n
    ensures var page := k / limit + 1;
            && (page - 1) * limit >= 0
            && (page - 1) * limit + k % limit == k
            && 0 <= k % limit < limit
            && 1 <= page <= PageCount(n, limit)
  {
    var d, m := k / limit, k % limit;
    assert d >= 0 && k == d * limit + m && 0 <= m < limit;
    assert (d + 1 - 1) * limit == d * limit;
    assert d * limit >= 0 by { ScaleMonotone(0, d, limit); }
    var pages := PageCount(n, limit);
    assert d < pages by {
      if pages <= d {
        ScaleMonotone(pages, d, limit);
        assert false;
      }
    }
  }

  /** Exactly the pages `1 .. PageCount` hold items. */
  lemma PageNonEmptyIff<T(!new)>(s: seq<T>, page: int, limit: int)
    requires limit > 0 && page >= 1
    ensures PageWindow(s, page, limit).Ok?
    ensures PageWindow(s, page, limit).value != [] <==> page <= PageCount(|s|, limit)
  {
    var pages := PageCount(|s|, limit);
    ScaleMonotone(0, page - 1, limit);
    if page <= pages {
      ScaleMonotone(page - 1, pages - 1, limit);
    } else {
      ScaleMonotone(pages, page - 1, limit);
    }
  }

  lemma ScaleMonotone(a: int, b: int, limit: int)
    requires a <= b && limit > 0
    ensures a * limit <= b * limit
  {
    assert b * limit - a * limit == (b - a) * limit;
  }

  // ---------------------------------------------------------------------------------------------
  // User and group filters

  /** The user listing's `$or: [{ role: "user" }, { role: { $exists: false } }]`. */
  predicate Listed(u: User)
  {
    u.role == Some(UserRole) || u.role.None?
  }

  /** The dashboard's `{ role: { $ne: "admin" } }`. */
  predicate Counted(u: User)
  {
    u.role != Some(Admin)
  }

  /** The two filters are written differently and do not agree: every listed user is counted, but
      a user whose role is a stored null is counted by the dashboard's `$ne` and missed by the
      listing's `$exists: false`, and those are the only users the two disagree on. */
  lemma ListedVersusCounted(u: User)
    ensures Listed(u) ==> Counted(u)
    ensures Counted(u) && !Listed(u) <==> u.role == Some(NullRole)
  {
    match u.role
    case None =>
    case Some(role) =>
      match role
      case UserRole =>
      case Admin =>
      case NullRole =>
  }

  /** getAllUsers' query without its search term: a listed user, and, when the `onboarded`
      parameter is given, one whose flag equals `onboarded === "true"`. */
  predicate UserMatches(u: User, onboarded: Option<string>)
  {
    Listed(u) && (onboarded.Some? ==> u.isOnboarded == (onboarded.value == "true"))
  }

  /** The user query as a document predicate. */
  function UserQueryOf(onboarded: Option<string>): ((Id, User)) -> bool
  {
    (d: (Id, User)) => UserMatches(d.1, onboarded)
  }

  /** getAllGroups' query without its search term: `language || ""`, and when it is non-empty the
      group's language equals it. */
  predicate GroupMatches(g: Group, language: Option<string>)
  {
    Present(language) ==> g.language == language.value
  }

  // ---------------------------------------------------------------------------------------------
  // getAllUsers and getAllGroups

  /** The query parameters after `parseInt`; the sort field is the default `createdAt`. */
  datatype ListQuery = ListQuery(page: Option<int>, limit: Option<int>, order: Option<string>, filter: Option<string>)

  datatype Pagination = Pagination(page: int, limit: int, total: nat, pages: int)

  datatype UserRow = UserRow(id: Id, user: User, friendsCount: nat, groupsCount: nat)

  datatype GroupRow = GroupRow(id: Id, group: Group, memberCount: nat, eventCount: nat)

  /** A sort key that makes the descending sort follow `sort({ createdAt: direction })`. */
  function UserSortKey(direction: int): ((Id, User)) -> int
  {
    (d: (Id, User)) => if direction == 1 then -d.1.createdAt else d.1.createdAt
  }

  function GroupSortKey(direction: int): ((Id, Group)) -> int
  {
    (d: (Id, Group)) => if direction == 1 then -d.1.createdAt else d.1.createdAt
  }

  /** `Group.countDocuments({ members: id })`. */
  function GroupsCount(groups: map<Id, Group>, id: Id): nat
  {
    |set g | g in groups && id in groups[g].members|
  }

  /** A window of a sorted list is sorted, and holds only elements of the list. */
  lemma WindowOfSorted<T(!new)>(s: seq<T>, w: seq<T>, skip: nat, key: T -> int)
    requires SortedDesc(s, key)
    requires forall k :: 0 <= k < |w| ==> skip + k < |s| && w[k] == s[skip + k]
    ensures SortedDesc(w, key)
    ensures forall x :: x in w ==> x in s
  {
    forall i, j | 0 <= i < j < |w| ensures key(w[i]) >= key(w[j]) {
      var a, b := w[i], w[j];
      assert a == s[skip + i] && b == s[skip + j];
    }
    forall x | x in w ensures x in s {
      var k :| 0 <= k < |w| && w[k] == x;
      assert s[skip + k] == x;
    }
  }

  /** The matches of a query in descending `key` order: the list a listing pages through. */
  function SortedMatches<T(==,!new)>(docs: seq<T>, matches: T -> bool, key: T -> int): (r: seq<T>)
    ensures |r| == |Filter(docs, matches)| && SortedDesc(r, key)
    ensures forall x :: x in r <==> x in docs && matches(x)
    ensures multiset(r) == multiset(Filter(docs, matches))
  {
    var matching := Filter(docs, matches);
    var r := SortDesc(matching, key);
    forall x ensures x in r <==> x in matching {
      assert x in r <==> x in multiset(r);
      assert x in matching <==> x in multiset(matching);
    }
    r
  }

  /** The database may order matches with equal keys either way, and may do so differently for
      each page's query. When the matches' keys are pairwise distinct it has no choice: every order
      it could return is the one the listing pages through. */
  lemma TieFreeOrderIsForced<T(!new)>(docs: seq<T>, matches: T -> bool, key: T -> int, returned: seq<T>)
    requires multiset(returned) == multiset(Filter(docs, matches)) && SortedDesc(returned, key)
    requires DistinctKeys(returned, key)
    ensures returned == SortedMatches(docs, matches, key)
  {
    SortedOrderUnique(returned, SortedMatches(docs, matches, key), key);
  }

  /** The shared listing pipeline: `find(query).sort({ createdAt: direction }).skip(..).limit(..)`.
      A page is the run of sorted matches that starts after `(page - 1) * limit` of them and holds
      as many as are left, up to the magnitude of the limit. */
  function ListPage<T(==,!new)>(docs: seq<T>, matches: T -> bool, key: T -> int, page: int, limit: int): (r: Result<seq<T>>)
    ensures r.Ok? <==> (page - 1) * limit >= 0
    ensures r.Err? ==> r == Err(InternalError, InternalErrorMsg)
    ensures r.Ok? ==> var sorted := SortedMatches(docs, matches, key);
                      var skip := (page - 1) * limit;
                      && |r.value| == WindowSize(|sorted|, skip, limit)
                      && forall k :: 0 <= k < |r.value| ==> skip + k < |sorted| && r.value[k] == sorted[skip + k]
    ensures r.Ok? ==> |r.value| <= Abs(limit) && SortedDesc(r.value, key)
    ensures r.Ok? ==> forall x :: x in r.value ==> x in docs && matches(x)
  {
    var sorted := SortedMatches(docs, matches, key);
    var w := PageWindow(sorted, page, limit);
    if w.Ok? then
      WindowOfSorted(sorted, w.value, (page - 1) * limit, key);
      w
    else w
  }

  /** Every match is listed: with a positive limit, the `k`-th match in sort order is item
      `k % limit` of page `k / limit + 1`, a page within the advertised page count. */
  lemma ListItemOnItsPage<T(!new)>(docs: seq<T>, matches: T -> bool, key: T -> int, limit: int, k: nat)
    requires limit > 0 && k < |Filter(docs, matches)|
    ensures var page := k / limit + 1;
            var r := ListPage(docs, matches, key, page, limit);
            && 1 <= page <= PageCount(|Filter(docs, matches)|, limit)
            && r.Ok? && k % limit < |r.value|
            && r.value[k % limit] == SortedMatches(docs, matches, key)[k]
  {
    var sorted := SortedMatches(docs, matches, key);
    ItemOnItsPage(sorted, limit, k);
    ItemPageArithmetic(|sorted|, limit, k);
  }

  /** No match is skipped: with a positive limit, every matching document is on some page within
      the advertised page count. */
  lemma EveryMatchOnSomePage<T(!new)>(docs: seq<T>, matches: T -> bool, key: T -> int, limit: int, d: T)
    requires limit > 0 && d in docs && matches(d)
    ensures exists page :: 1 <= page <= PageCount(|Filter(docs, matches)|, limit)
              && ListPage(docs, matches, key, page, limit).Ok? && d in ListPage(docs, matches, key, page, limit).value
  {
    var sorted := SortedMatches(docs, matches, key);
    assert d in sorted;
    var k :| 0 <= k < |sorted| && sorted[k] == d;
    ListItemOnItsPage(docs, matches, key, limit, k);
    var items := ListPage(docs, matches, key, k / limit + 1, limit).value;
    assert items[k % limit] in items;
  }

  /** Exactly the pages `1 .. PageCount` of a listing hold documents. */
  lemma ListPageNonEmptyIff<T(!new)>(docs: seq<T>, matches: T -> bool, key: T -> int, page: int, limit: int)
    requires limit > 0 && page >= 1
    ensures ListPage(docs, matches, key, page, limit).Ok?
    ensures ListPage(docs, matches, key, page, limit).value != [] <==> page <= PageCount(|Filter(docs, matches)|, limit)
  {
    PageNonEmptyIff(SortedMatches(docs, matches, key), page, limit);
  }

  /** `sort({ createdAt: direction })` read off a sequence of creation times. */
  predicate InCreationOrder(times: seq<int>, direction: int)
  {
    forall i, j :: 0 <= i < j < |times| ==>
      if direction == 1 then times[i] <= times[j] else times[i] >= times[j]
  }

  /** The ids of the documents in a collection. */
  function IdsOf<T(==)>(docs: seq<(Id, T)>): set<Id>
  {
    set d | d in docs :: d.0
  }

  /** `.populate(path)` on an array of references: each reference whose document still exists, in
      order; a reference to a deleted document is dropped. */
  function Populated(refs: seq<Id>, live: set<Id>): (r: seq<Id>)
    ensures forall x :: x in r <==> x in refs && x in live
    ensures IsSubsequence(r, refs) && |r| <= |refs|
    ensures (forall x :: x in refs ==> x in live) ==> r == refs
  {
    var p := (x: Id) => x in live;
    FilterIsSubsequence(refs, p);
    if forall x :: x in refs ==> x in live then
      FilterAll(refs, p);
      Filter(refs, p)
    else Filter(refs, p)
  }

  /** A user's row: the document without its password, `friends?.length` counted after the
      populate, and the groups that list them. */
  function UserRowOf(live: set<Id>, groups: map<Id, Group>, d: (Id, User)): UserRow
  {
    UserRow(d.0, WithoutPassword(d.1), |Populated(d.1.friends, live)|, GroupsCount(groups, d.0))
  }

  /** getAllUsers: the matching users ordered by creation time, one page of them with their friend
      and group counts, and the page arithmetic over all matches. `users` is the collection in
      natural order; `filter` is the `onboarded` parameter. A friend whose document is gone is not
      counted, as the populate drops it. */
  function GetAllUsers(users: seq<(Id, User)>, groups: map<Id, Group>, q: ListQuery): (r: Result<(seq<UserRow>, Pagination)>)
    ensures var page := IntOr(q.page, DefaultPage);
            var limit := IntOr(q.limit, DefaultLimit);
            && (r.Ok? <==> (page - 1) * limit >= 0)
            && (r.Err? ==> r == Err(InternalError, InternalErrorMsg))
            && (r.Ok? ==> |r.value.0| <= Abs(limit)
                          && r.value.1.page == page && r.value.1.limit == limit)
    ensures r.Ok? ==> var sorted := SortedMatches(users, UserQueryOf(q.filter), UserSortKey(SortDirection(q.order)));
                      var limit := IntOr(q.limit, DefaultLimit);
                      var skip := (IntOr(q.page, DefaultPage) - 1) * limit;
                      && skip >= 0
                      && |r.value.0| == WindowSize(|sorted|, skip, limit)
                      && forall k :: 0 <= k < |r.value.0| ==>
                           skip + k < |sorted| && r.value.0[k] == UserRowOf(IdsOf(users), groups, sorted[skip + k])
    ensures r.Ok? ==> forall row :: row in r.value.0 ==>
              && row.user.password == ""
              && UserMatches(row.user, q.filter)
              && row.friendsCount == |Populated(row.user.friends, IdsOf(users))| <= |row.user.friends|
              && row.groupsCount == GroupsCount(groups, row.id)
    ensures r.Ok? ==> InCreationOrder(UserTimes(r.value.0), SortDirection(q.order))
    ensures r.Ok? ==> r.value.1.total == |Filter(users, UserQueryOf(q.filter))|
                      && r.value.1.pages == PageCount(r.value.1.total, r.value.1.limit)
  {
    var page := IntOr(q.page, DefaultPage);
    var limit := IntOr(q.limit, DefaultLimit);
    var total := |Filter(users, UserQueryOf(q.filter))|;
    var key := UserSortKey(SortDirection(q.order));
    match ListPage(users, UserQueryOf(q.filter), key, page, limit)
    case Err(s, m) => Err(s, m)
    case Ok(items) =>
      var rows := UserRows(IdsOf(users), groups, items);
      UserRowsFaithful(users, groups, q, items);
      Ok((rows, Pagination(page, limit, total, PageCount(total, limit))))
  }

  /** One row per listed user, in order. */
  function UserRows(live: set<Id>, groups: map<Id, Group>, items: seq<(Id, User)>): (rows: seq<UserRow>)
    ensures |rows| == |items| && forall i :: 0 <= i < |items| ==> rows[i] == UserRowOf(live, groups, items[i])
  {
    seq(|items|, i requires 0 <= i < |items| => UserRowOf(live, groups, items[i]))
  }

  function UserTimes(rows: seq<UserRow>): (times: seq<int>)
    ensures |times| == |rows| && forall i :: 0 <= i < |rows| ==> times[i] == rows[i].user.createdAt
  {
    seq(|rows|, i requires 0 <= i < |rows| => rows[i].user.createdAt)
  }

  lemma UserRowsFaithful(users: seq<(Id, User)>, groups: map<Id, Group>, q: ListQuery, items: seq<(Id, User)>)
    requires SortedDesc(items, UserSortKey(SortDirection(q.order)))
    requires forall x :: x in items ==> x in users && UserQueryOf(q.filter)(x)
    ensures var rows := UserRows(IdsOf(users), groups, items);
            forall row :: row in rows ==>
              && row.user.password == ""
              && (exists u :: (row.id, u) in users && row.user == WithoutPassword(u))
              && UserMatches(row.user, q.filter)
              && row.friendsCount == |Populated(row.user.friends, IdsOf(users))| <= |row.user.friends|
              && row.groupsCount == GroupsCount(groups, row.id)
    ensures InCreationOrder(UserTimes(UserRows(IdsOf(users), groups, items)), SortDirection(q.order))
  {
    var rows := UserRows(IdsOf(users), groups, items);
    forall row | row in rows
      ensures exists u :: (row.id, u) in users && row.user == WithoutPassword(u)
      ensures UserMatches(row.user, q.filter)
      ensures |Populated(row.user.friends, IdsOf(users))| <= |row.user.friends|
    {
      var i :| 0 <= i < |rows| && rows[i] == row;
      assert items[i] in items;
      assert (row.id, items[i].1) in users && row.user == WithoutPassword(items[i].1);
    }
    var key := UserSortKey(SortDirection(q.order));
    forall i, j | 0 <= i < j < |rows| ensures key(items[i]) >= key(items[j]) {
    }
  }

  /** No matching user is left out of the listing: with a positive limit, every one of them has its
      row on some page within the advertised page count. */
  lemma EveryMatchingUserListed(users: seq<(Id, User)>, groups: map<Id, Group>, q: ListQuery, d: (Id, User))
    requires IntOr(q.limit, DefaultLimit) > 0
    requires d in users && UserMatches(d.1, q.filter)
    ensures exists page :: 1 <= page <= PageCount(|Filter(users, UserQueryOf(q.filter))|, IntOr(q.limit, DefaultLimit))
              && var r := GetAllUsers(users, groups, q.(page := Some(page)));
                 r.Ok? && UserRowOf(IdsOf(users), groups, d) in r.value.0
  {
    var limit := IntOr(q.limit, DefaultLimit);
    var matches, key := UserQueryOf(q.filter), UserSortKey(SortDirection(q.order));
    EveryMatchOnSomePage(users, matches, key, limit, d);
    var page :| 1 <= page <= PageCount(|Filter(users, matches)|, limit)
                && ListPage(users, matches, key, page, limit).Ok? && d in ListPage(users, matches, key, page, limit).value;
    UserRowOnPage(users, groups, q, page, d);
  }

  /** A user on a page of the sorted matches has its row on that page of the listing. */
  lemma UserRowOnPage(users: seq<(Id, User)>, groups: map<Id, Group>, q: ListQuery, page: int, d: (Id, User))
    requires page >= 1
    requires var listed := ListPage(users, UserQueryOf(q.filter), UserSortKey(SortDirection(q.order)), page, IntOr(q.limit, DefaultLimit));
             listed.Ok? && d in listed.value
    ensures var r := GetAllUsers(users, groups, q.(page := Some(page)));
            r.Ok? && UserRowOf(IdsOf(users), groups, d) in r.value.0
  {
    var items := ListPage(users, UserQueryOf(q.filter), UserSortKey(SortDirection(q.order)), page, IntOr(q.limit, DefaultLimit)).value;
    var i :| 0 <= i < |items| && items[i] == d;
    assert IntOr(Some(page), DefaultPage) == page;
    var rows := UserRows(IdsOf(users), groups, items);
    var q' := q.(page := Some(page));
    assert q'.filter == q.filter && q'.order == q.order && q'.limit == q.limit;
    assert GetAllUsers(users, groups, q.(page := Some(page))).value.0 == rows;
    assert rows[i] in rows;
  }

  /** The group query as a document predicate. */
  function GroupQueryOf(language: Option<string>): ((Id, Group)) -> bool
  {
    (d: (Id, Group)) => GroupMatches(d.1, language)
  }

  /** A group's row: `members?.length` counted after the populate, and the number of its events. */
  function GroupRowOf(live: set<Id>, d: (Id, Group)): GroupRow
  {
    GroupRow(d.0, d.1, |Populated(d.1.members, live)|, |d.1.events|)
  }

  /** One row per listed group, in order. */
  function GroupRows(live: set<Id>, items: seq<(Id, Group)>): (rows: seq<GroupRow>)
    ensures |rows| == |items| && forall i :: 0 <= i < |items| ==> rows[i] == GroupRowOf(live, items[i])
  {
    seq(|items|, i requires 0 <= i < |items| => GroupRowOf(live, items[i]))
  }

  function GroupTimes(rows: seq<GroupRow>): (times: seq<int>)
    ensures |times| == |rows| && forall i :: 0 <= i < |rows| ==> times[i] == rows[i].group.createdAt
  {
    seq(|rows|, i requires 0 <= i < |rows| => rows[i].group.createdAt)
  }

  lemma GroupRowsFaithful(groups: seq<(Id, Group)>, userIds: set<Id>, q: ListQuery, items: seq<(Id, Group)>)
    requires SortedDesc(items, GroupSortKey(SortDirection(q.order)))
    requires forall x :: x in items ==> x in groups && GroupQueryOf(q.filter)(x)
    ensures var rows := GroupRows(userIds, items);
            forall row :: row in rows ==>
              && (row.id, row.group) in groups
              && GroupMatches(row.group, q.filter)
              && row.memberCount == |Populated(row.group.members, userIds)| <= |row.group.members|
              && row.eventCount == |row.group.events|
    ensures InCreationOrder(GroupTimes(GroupRows(userIds, items)), SortDirection(q.order))
  {
    var rows := GroupRows(userIds, items);
    forall row | row in rows
      ensures (row.id, row.group) in groups && GroupMatches(row.group, q.filter)
      ensures |Populated(row.group.members, userIds)| <= |row.group.members|
    {
      var i :| 0 <= i < |rows| && rows[i] == row;
      assert items[i] in items;
    }
    var key := GroupSortKey(SortDirection(q.order));
    forall i, j | 0 <= i < j < |rows| ensures key(items[i]) >= key(items[j]) {
    }
  }

  /** getAllGroups: the same pipeline over groups, filtered by language. `userIds` are the ids of the
      stored users: a member whose document is gone is not counted, as the populate drops it;
      eventCount is the length of the events array. `filter` is the `language` parameter. */
  function GetAllGroups(groups: seq<(Id, Group)>, userIds: set<Id>, q: ListQuery): (r: Result<(seq<GroupRow>, Pagination)>)
    ensures var page := IntOr(q.page, DefaultPage);
            var limit := IntOr(q.limit, DefaultLimit);
            && (r.Ok? <==> (page - 1) * limit >= 0)
            && (r.Err? ==> r == Err(InternalError, InternalErrorMsg))
            && (r.Ok? ==> |r.value.0| <= Abs(limit)
                          && r.value.1.page == page && r.value.1.limit == limit)
    ensures r.Ok? ==> var sorted := SortedMatches(groups, GroupQueryOf(q.filter), GroupSortKey(SortDirection(q.order)));
                      var limit := IntOr(q.limit, DefaultLimit);
                      var skip := (IntOr(q.page, DefaultPage) - 1) * limit;
                      && skip >= 0
                      && |r.value.0| == WindowSize(|sorted|, skip, limit)
                      && forall k :: 0 <= k < |r.value.0| ==>
                           skip + k < |sorted| && r.value.0[k] == GroupRowOf(userIds, sorted[skip + k])
    ensures r.Ok? ==> forall row :: row in r.value.0 ==>
              && (row.id, row.group) in groups
              && GroupMatches(row.group, q.filter)
              && row.memberCount == |Populated(row.group.members, userIds)| <= |row.group.members|
              && row.eventCount == |row.group.events|
    ensures r.Ok? ==> InCreationOrder(GroupTimes(r.value.0), SortDirection(q.order))
    ensures r.Ok? ==> r.value.1.total == |Filter(groups, GroupQueryOf(q.filter))|
                      && r.value.1.pages == PageCount(r.value.1.total, r.value.1.limit)
  {
    var page := IntOr(q.page, DefaultPage);
    var limit := IntOr(q.limit, DefaultLimit);
    var total := |Filter(groups, GroupQueryOf(q.filter))|;
    var key := GroupSortKey(SortDirection(q.order));
    match ListPage(groups, GroupQueryOf(q.filter), key, page, limit)
    case Err(s, m) => Err(s, m)
    case Ok(items) =>
      var rows := GroupRows(userIds, items);
      GroupRowsFaithful(groups, userIds, q, items);
      Ok((rows, Pagination(page, limit, total, PageCount(total, limit))))
  }

  /** No matching group is left out of the listing: with a positive limit, every one of them has its
      row on some page within the advertised page count. */
  lemma EveryMatchingGroupListed(groups: seq<(Id, Group)>, userIds: set<Id>, q: ListQuery, d: (Id, Group))
    requires IntOr(q.limit, DefaultLimit) > 0
    requires d in groups && GroupMatches(d.1, q.filter)
    ensures exists page :: 1 <= page <= PageCount(|Filter(groups, GroupQueryOf(q.filter))|, IntOr(q.limit, DefaultLimit))
              && var r := GetAllGroups(groups, userIds, q.(page := Some(page)));
                 r.Ok? && GroupRowOf(userIds, d) in r.value.0
  {
    var limit := IntOr(q.limit, DefaultLimit);
    var matches, key := GroupQueryOf(q.filter), GroupSortKey(SortDirection(q.order));
    EveryMatchOnSomePage(groups, matches, key, limit, d);
    var page :| 1 <= page <= PageCount(|Filter(groups, matches)|, limit)
                && ListPage(groups, matches, key, page, limit).Ok? && d in ListPage(groups, matches, key, page, limit).value;
    GroupRowOnPage(groups, userIds, q, page, d);
  }

  /** A group on a page of the sorted matches has its row on that page of the listing. */
  lemma GroupRowOnPage(groups: seq<(Id, Group)>, userIds: set<Id>, q: ListQuery, page: int, d: (Id, Group))
    requires page >= 1
    requires var listed := ListPage(groups, GroupQueryOf(q.filter), GroupSortKey(SortDirection(q.order)), page, IntOr(q.limit, DefaultLimit));
             listed.Ok? && d in listed.value
    ensures var r := GetAllGroups(groups, userIds, q.(page := Some(page)));
            r.Ok? && GroupRowOf(userIds, d) in r.value.0
  {
    var items := ListPage(groups, GroupQueryOf(q.filter), GroupSortKey(SortDirection(q.order)), page, IntOr(q.limit, DefaultLimit)).value;
    var i :| 0 <= i < |items| && items[i] == d;
    assert IntOr(Some(page), DefaultPage) == page;
    var rows := GroupRows(userIds, items);
    var q' := q.(page := Some(page));
    assert q'.filter == q.filter && q'.order == q.order && q'.limit == q.limit;
    assert GetAllGroups(groups, userIds, q.(page := Some(page))).value.0 == rows;
    assert rows[i] in rows;
  }

  // ---------------------------------------------------------------------------------------------
  // getDashboardStats

  /** The instants the dashboard compares against. They come from the clock by calendar arithmetic
      (`setHours`, `setDate`), which is not modelled. */
  datatype Clock = Clock(now: int, today: int, weekAgo: int, monthAgo: int)

  /** Each recent-activity list holds the five newest entries. */
  const RecentCount: nat := 5

  predicate CountedDoc(d: (Id, User)) { Counted(d.1) }

  predicate OnboardedDoc(d: (Id, User)) { Counted(d.1) && d.1.isOnboarded }

  predicate NotOnboardedDoc(d: (Id, User)) { Counted(d.1) && !d.1.isOnboarded }

  /** `{ ...userQuery, createdAt: { $gte: t } }`. */
  function UserCreatedSince(t: int): ((Id, User)) -> bool
  {
    (d: (Id, User)) => Counted(d.1) && d.1.createdAt >= t
  }

  /** `{ createdAt: { $gte: t } }` on groups. */
  function GroupCreatedSince(t: int): ((Id, Group)) -> bool
  {
    (d: (Id, Group)) => d.1.createdAt >= t
  }

  datatype UserStats = UserStats(total: nat, onboarded: nat, notOnboarded: int,
                                 createdToday: nat, createdThisWeek: nat, createdThisMonth: nat)

  /** The user counters. `notOnboarded` is computed as a difference, yet it is exactly the number of
      counted users who have not onboarded; and the creation counters grow with the window. */
  function UserStatsOf(users: seq<(Id, User)>, clock: Clock): (st: UserStats)
    ensures st.total == |Filter(users, CountedDoc)|
    ensures st.onboarded == |Filter(users, OnboardedDoc)| <= st.total
    ensures st.notOnboarded == |Filter(users, NotOnboardedDoc)|
    ensures st.createdToday == |Filter(users, UserCreatedSince(clock.today))|
    ensures st.createdThisWeek == |Filter(users, UserCreatedSince(clock.weekAgo))|
    ensures st.createdThisMonth == |Filter(users, UserCreatedSince(clock.monthAgo))|
    ensures clock.monthAgo <= clock.weekAgo <= clock.today ==>
              st.createdToday <= st.createdThisWeek <= st.createdThisMonth <= st.total
  {
    var total := |Filter(users, CountedDoc)|;
    var onboarded := |Filter(users, OnboardedDoc)|;
    FilterSplit(users, CountedDoc, OnboardedDoc, NotOnboardedDoc);
    FilterMono(users, UserCreatedSince(clock.monthAgo), CountedDoc);
    assert clock.monthAgo <= clock.weekAgo <= clock.today ==>
             |Filter(users, UserCreatedSince(clock.today))| <= |Filter(users, UserCreatedSince(clock.weekAgo))|
             <= |Filter(users, UserCreatedSince(clock.monthAgo))| by {
      if clock.monthAgo <= clock.weekAgo <= clock.today {
        FilterMono(users, UserCreatedSince(clock.today), UserCreatedSince(clock.weekAgo));
        FilterMono(users, UserCreatedSince(clock.weekAgo), UserCreatedSince(clock.monthAgo));
      }
    }
    UserStats(total, onboarded, total - onboarded,
              |Filter(users, UserCreatedSince(clock.today))|,
              |Filter(users, UserCreatedSince(clock.weekAgo))|,
              |Filter(users, UserCreatedSince(clock.monthAgo))|)
  }

  /** `groups.reduce((sum, g) => sum + g.members.length, 0)`. */
  function MemberTotal(groups: seq<(Id, Group)>): nat
  {
    if groups == [] then 0 else MemberTotal(groups[..|groups| - 1]) + |groups[|groups| - 1].1.members|
  }

  datatype GroupStats = GroupStats(total: nat, totalMembers: nat,
                                   createdToday: nat, createdThisWeek: nat, createdThisMonth: nat)

  function GroupStatsOf(groups: seq<(Id, Group)>, clock: Clock): (st: GroupStats)
    ensures st.total == |groups|
    ensures st.totalMembers == MemberTotal(groups)
    ensures st.createdToday == |Filter(groups, GroupCreatedSince(clock.today))|
    ensures st.createdThisWeek == |Filter(groups, GroupCreatedSince(clock.weekAgo))|
    ensures st.createdThisMonth == |Filter(groups, GroupCreatedSince(clock.monthAgo))|
    ensures clock.monthAgo <= clock.weekAgo <= clock.today ==>
              st.createdToday <= st.createdThisWeek <= st.createdThisMonth <= st.total
  {
    assert clock.monthAgo <= clock.weekAgo <= clock.today ==>
             |Filter(groups, GroupCreatedSince(clock.today))| <= |Filter(groups, GroupCreatedSince(clock.weekAgo))|
             <= |Filter(groups, GroupCreatedSince(clock.monthAgo))| by {
      if clock.monthAgo <= clock.weekAgo <= clock.today {
        FilterMono(groups, GroupCreatedSince(clock.today), GroupCreatedSince(clock.weekAgo));
        FilterMono(groups, GroupCreatedSince(clock.weekAgo), GroupCreatedSince(clock.monthAgo));
      }
    }
    GroupStats(|groups|, MemberTotal(groups),
               |Filter(groups, GroupCreatedSince(clock.today))|,
               |Filter(groups, GroupCreatedSince(clock.weekAgo))|,
               |Filter(groups, GroupCreatedSince(clock.monthAgo))|)
  }

  /** An event as the recent-activity list shows it: with the name and id of its group. */
  datatype RecentEvent = RecentEvent(event: Event, groupName: string, groupId: Id)

  /** One group's events, tagged with the group. */
  function Tagged(d: (Id, Group)): (r: seq<RecentEvent>)
    ensures |r| == |d.1.events|
    ensures forall k :: 0 <= k < |r| ==> r[k] == RecentEvent(d.1.events[k], d.1.name, d.0)
  {
    seq(|d.1.events|, k requires 0 <= k < |d.1.events| => RecentEvent(d.1.events[k], d.1.name, d.0))
  }

  /** Every event of every group, group by group in document order. */
  function AllEvents(groups: seq<(Id, Group)>): (r: seq<RecentEvent>)
    ensures forall e :: e in r ==> exists i :: 0 <= i < |groups| && e in Tagged(groups[i])
  {
    if groups == [] then []
    else
      var init := groups[..|groups| - 1];
      var r := AllEvents(init) + Tagged(groups[|groups| - 1]);
      assert forall i :: 0 <= i < |init| ==> init[i] == groups[i];
      r
  }

  /** `event.date > now`. */
  function UpcomingAt(now: int): RecentEvent -> bool
  {
    (e: RecentEvent) => e.event.date > now
  }

  function PastAt(now: int): RecentEvent -> bool
  {
    (e: RecentEvent) => e.event.date <= now
  }

  datatype EventStats = EventStats(total: nat, upcoming: nat, past: nat)

  /** The number of events meeting `p`, counted from the front as the handler's loop does. */
  function CountWhere(events: seq<RecentEvent>, p: RecentEvent -> bool): nat
  {
    if events == [] then 0
    else CountWhere(events[..|events| - 1], p) + (if p(events[|events| - 1]) then 1 else 0)
  }

  /** Every event is upcoming or past, never both. */
  lemma {:induction false} UpcomingPastPartition(events: seq<RecentEvent>, now: int)
    ensures CountWhere(events, UpcomingAt(now)) + CountWhere(events, PastAt(now)) == |events|
  {
    if events != [] {
      UpcomingPastPartition(events[..|events| - 1], now);
    }
  }

  /** The inner `group.events.forEach`: carries the three counters across one group's events. */
  method CountGroupEvents(seen: seq<RecentEvent>, tagged: seq<RecentEvent>, now: int,
                          total0: nat, upcoming0: nat, past0: nat)
    returns (total: nat, upcoming: nat, past: nat)
    requires total0 == |seen|
    requires upcoming0 == CountWhere(seen, UpcomingAt(now)) && past0 == CountWhere(seen, PastAt(now))
    ensures total == |seen + tagged|
    ensures upcoming == CountWhere(seen + tagged, UpcomingAt(now)) && past == CountWhere(seen + tagged, PastAt(now))
  {
    total, upcoming, past := total0, upcoming0, past0;
    var j := 0;
    assert seen + tagged[..0] == seen;
    while j < |tagged|
      invariant 0 <= j <= |tagged|
      invariant total == |seen + tagged[..j]|
      invariant upcoming == CountWhere(seen + tagged[..j], UpcomingAt(now))
      invariant past == CountWhere(seen + tagged[..j], PastAt(now))
    {
      var e := tagged[j];
      var next := seen + tagged[..j + 1];
      assert next[..|next| - 1] == seen + tagged[..j] && next[|next| - 1] == e;
      total := total + 1;
      if e.event.date > now {
        upcoming := upcoming + 1;
      } else {
        past := past + 1;
      }
      j := j + 1;
    }
    assert tagged[..j] == tagged;
  }

  /** The event counters, counted the way the handler does, one event at a time: an event is
      upcoming when its date is after now and past otherwise, so the two add up to the total. */
  method CountEvents(groups: seq<(Id, Group)>, now: int) returns (st: EventStats)
    ensures st.total == |AllEvents(groups)|
    ensures st.upcoming == CountWhere(AllEvents(groups), UpcomingAt(now))
    ensures st.past == CountWhere(AllEvents(groups), PastAt(now))
    ensures st.upcoming + st.past == st.total
  {
    var total, upcoming, past := 0, 0, 0;
    var i := 0;
    while i < |groups|
      invariant 0 <= i <= |groups|
      invariant total == |AllEvents(groups[..i])|
      invariant upcoming == CountWhere(AllEvents(groups[..i]), UpcomingAt(now))
      invariant past == CountWhere(AllEvents(groups[..i]), PastAt(now))
    {
      var seen := AllEvents(groups[..i]);
      total, upcoming, past := CountGroupEvents(seen, Tagged(groups[i]), now, total, upcoming, past);
      assert groups[..i + 1][..i] == groups[..i];
      assert AllEvents(groups[..i + 1]) == seen + Tagged(groups[i]);
      i := i + 1;
    }
    assert groups[..i] == groups;
    UpcomingPastPartition(AllEvents(groups), now);
    return EventStats(total, upcoming, past);
  }

  predicate IsPending(q: FriendRequest) { q.status == Pending }

  predicate IsAccepted(q: FriendRequest) { q.status == Accepted }

  predicate IsRemoved(q: FriendRequest) { q.status == Removed }

  /** Every request has exactly one of the three statuses. */
  lemma {:induction false} StatusesPartition(reqs: seq<FriendRequest>)
    ensures |Filter(reqs, IsPending)| + |Filter(reqs, IsAccepted)| + |Filter(reqs, IsRemoved)| == |reqs|
  {
    if reqs != [] {
      StatusesPartition(reqs[1..]);
    }
  }

  datatype RequestStats = RequestStats(total: nat, pending: nat, accepted: nat, removed: nat)

  function RequestStatsOf(reqs: seq<FriendRequest>): (st: RequestStats)
    ensures st.total == |reqs|
    ensures st.pending == |Filter(reqs, IsPending)|
    ensures st.accepted == |Filter(reqs, IsAccepted)|
    ensures st.removed == |Filter(reqs, IsRemoved)|
    ensures st.pending + st.accepted + st.removed == st.total
  {
    StatusesPartition(reqs);
    RequestStats(|reqs|, |Filter(reqs, IsPending)|, |Filter(reqs, IsAccepted)|, |Filter(reqs, IsRemoved)|)
  }

  predicate IsUnread(n: Notification) { !n.isRead }

  datatype NotificationStats = NotificationStats(total: nat, unread: nat)

  /** Sum of the friends-list lengths of the counted users. */
  function DegreeSum(users: seq<(Id, User)>): nat
  {
    if users == [] then 0
    else DegreeSum(users[..|users| - 1]) + (if Counted(users[|users| - 1].1) then |users[|users| - 1].1.friends| else 0)
  }

  /** `Math.floor(sum / 2)`: the number of friendships if every one is listed on both sides. */
  function Friendships(users: seq<(Id, User)>): (f: nat)
    ensures 2 * f <= DegreeSum(users) <= 2 * f + 1
  {
    DegreeSum(users) / 2
  }

  function UserCreatedAt(d: (Id, User)): int { d.1.createdAt }

  function GroupCreatedAt(d: (Id, Group)): int { d.1.createdAt }

  /** `new Date(e.createdAt || e.date)`: legacy events without a creation time sort by their date. */
  function EventKey(e: RecentEvent): int
  {
    match e.event.createdAt
    case Some(c) => c
    case None => e.event.date
  }

  /** The smaller of two counts: how many entries `.limit(n)` keeps of `m`. */
  function Min(a: nat, b: nat): nat
  {
    if a <= b then a else b
  }

  /** The five newest counted users, or all of them when there are fewer, as stored. */
  function NewestCounted(users: seq<(Id, User)>): (r: seq<(Id, User)>)
    ensures |r| == Min(RecentCount, |Filter(users, CountedDoc)|)
    ensures forall x :: x in r ==> x in users && Counted(x.1)
    ensures SortedDesc(r, UserCreatedAt)
    ensures forall x, y :: x in r && y in users && Counted(y.1) && y !in r ==> UserCreatedAt(y) <= UserCreatedAt(x)
    ensures multiset(r) <= multiset(Filter(users, CountedDoc))
    ensures |Filter(users, CountedDoc)| <= RecentCount ==> multiset(r) == multiset(Filter(users, CountedDoc))
  {
    var counted := Filter(users, CountedDoc);
    assert forall y :: y in users && Counted(y.1) ==> y in counted;
    TopByKey(counted, RecentCount, UserCreatedAt)
  }

  /** The dashboard's recent users: the newest counted users, each without its password. */
  function RecentUsers(users: seq<(Id, User)>): (r: seq<(Id, User)>)
    ensures |r| == Min(RecentCount, |Filter(users, CountedDoc)|)
    ensures forall k :: 0 <= k < |r| ==>
              r[k] == (NewestCounted(users)[k].0, WithoutPassword(NewestCounted(users)[k].1)) && r[k].1.password == ""
    ensures SortedDesc(r, UserCreatedAt)
    ensures multiset(r) <= multiset(WithoutPasswords(Filter(users, CountedDoc)))
    ensures |Filter(users, CountedDoc)| <= RecentCount ==>
              multiset(r) == multiset(WithoutPasswords(Filter(users, CountedDoc)))
  {
    var newest, counted := NewestCounted(users), Filter(users, CountedDoc);
    MapSubMultiset(newest, counted, StripPassword);
    assert |counted| <= RecentCount ==>
             multiset(WithoutPasswords(newest)) == multiset(WithoutPasswords(counted)) by {
      if |counted| <= RecentCount {
        MapSubMultiset(counted, newest, StripPassword);
      }
    }
    WithoutPasswords(newest)
  }

  /** Each document of a query result with `.select("-password")`, in the same order, and so in
      the same creation order. */
  function WithoutPasswords(s: seq<(Id, User)>): (r: seq<(Id, User)>)
    ensures |r| == |s|
    ensures forall k :: 0 <= k < |r| ==> r[k] == (s[k].0, WithoutPassword(s[k].1))
    ensures SortedDesc(s, UserCreatedAt) ==> SortedDesc(r, UserCreatedAt)
  {
    Map(s, StripPassword)
  }

  function StripPassword(d: (Id, User)): (Id, User)
  {
    (d.0, WithoutPassword(d.1))
  }

  /** The five newest groups, or all of them when there are fewer. */
  function RecentGroups(groups: seq<(Id, Group)>): (r: seq<(Id, Group)>)
    ensures |r| == Min(RecentCount, |groups|)
    ensures forall x :: x in r ==> x in groups
    ensures SortedDesc(r, GroupCreatedAt)
    ensures forall x, y :: x in r && y in groups && y !in r ==> GroupCreatedAt(y) <= GroupCreatedAt(x)
    ensures multiset(r) <= multiset(groups)
    ensures |groups| <= RecentCount ==> multiset(r) == multiset(groups)
  {
    TopByKey(groups, RecentCount, GroupCreatedAt)
  }

  /** The five newest events across all groups, each with its group, or all of them when there are
      fewer. */
  function RecentEvents(groups: seq<(Id, Group)>): (r: seq<RecentEvent>)
    ensures |r| == Min(RecentCount, |AllEvents(groups)|)
    ensures forall e :: e in r ==> exists i :: 0 <= i < |groups| && e in Tagged(groups[i])
    ensures SortedDesc(r, EventKey)
    ensures forall e, x :: e in r && x in AllEvents(groups) && x !in r ==> EventKey(x) <= EventKey(e)
    ensures multiset(r) <= multiset(AllEvents(groups))
    ensures |AllEvents(groups)| <= RecentCount ==> multiset(r) == multiset(AllEvents(groups))
  {
    TopByKey(AllEvents(groups), RecentCount, EventKey)
  }

  datatype Dashboard = Dashboard(
    users: UserStats,
    groups: GroupStats,
    events: EventStats,
    friendRequests: RequestStats,
    notifications: NotificationStats,
    friendships: nat,
    recentUsers: seq<(Id, User)>,
    recentGroups: seq<(Id, Group)>,
    recentEvents: seq<RecentEvent>)

  /** getDashboardStats over the four collections, each in natural order. The user, group and
      request counters are the ones `UserStatsOf`, `GroupStatsOf` and `RequestStatsOf` pin to the
      number of documents each query selects; the events are counted one at a time; the recent
      lists are the five newest of each kind. The per-language group breakdown is an aggregation
      pipeline and is not modelled. */
  method GetDashboardStats(users: seq<(Id, User)>, groups: seq<(Id, Group)>, reqs: seq<FriendRequest>,
                           notes: seq<Notification>, clock: Clock) returns (d: Dashboard)
    ensures d.users == UserStatsOf(users, clock) && d.groups == GroupStatsOf(groups, clock)
    ensures d.events.upcoming == CountWhere(AllEvents(groups), UpcomingAt(clock.now))
            && d.events.past == CountWhere(AllEvents(groups), PastAt(clock.now))
    ensures d.events.upcoming + d.events.past == d.events.total == |AllEvents(groups)|
    ensures d.friendRequests == RequestStatsOf(reqs)
    ensures d.notifications.unread == |Filter(notes, IsUnread)| <= d.notifications.total == |notes|
    ensures 2 * d.friendships <= DegreeSum(users) <= 2 * d.friendships + 1
    ensures d.recentUsers == RecentUsers(users) && d.recentGroups == RecentGroups(groups)
            && d.recentEvents == RecentEvents(groups)
    ensures forall k :: 0 <= k < |d.recentUsers| ==> d.recentUsers[k].1.password == ""
    ensures multiset(d.recentUsers) <= multiset(WithoutPasswords(Filter(users, CountedDoc)))
            && multiset(d.recentGroups) <= multiset(groups) && multiset(d.recentEvents) <= multiset(AllEvents(groups))
  {
    var events := CountEvents(groups, clock.now);
    var notifications, friendships := UnreadAndFriendships(users, notes);
    var recentUsers, recentGroups, recentEvents := NewestOfEachKind(users, groups);
    d := Dashboard(UserStatsOf(users, clock), GroupStatsOf(groups, clock), events, RequestStatsOf(reqs),
                   notifications, friendships, recentUsers, recentGroups, recentEvents);
  }

  /** The dashboard's notification counters and its friendship count. */
  method UnreadAndFriendships(users: seq<(Id, User)>, notes: seq<Notification>)
    returns (notifications: NotificationStats, friendships: nat)
    ensures notifications.unread == |Filter(notes, IsUnread)| <= notifications.total == |notes|
    ensures 2 * friendships <= DegreeSum(users) <= 2 * friendships + 1
  {
    notifications := NotificationStats(|notes|, |Filter(notes, IsUnread)|);
    friendships := Friendships(users);
  }

  /** The dashboard's three recent lists, the users among them without their passwords. */
  method NewestOfEachKind(users: seq<(Id, User)>, groups: seq<(Id, Group)>)
    returns (recentUsers: seq<(Id, User)>, recentGroups: seq<(Id, Group)>, recentEvents: seq<RecentEvent>)
    ensures recentUsers == RecentUsers(users) && recentGroups == RecentGroups(groups)
            && recentEvents == RecentEvents(groups)
    ensures forall k :: 0 <= k < |recentUsers| ==> recentUsers[k].1.password == ""
    ensures multiset(recentUsers) <= multiset(WithoutPasswords(Filter(users, CountedDoc)))
            && multiset(recentGroups) <= multiset(groups) && multiset(recentEvents) <= multiset(AllEvents(groups))
  {
    recentUsers, recentGroups, recentEvents := RecentUsers(users), RecentGroups(groups), RecentEvents(groups);
  }
}
