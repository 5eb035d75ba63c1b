# FriendNest in Dafny

A functional model of the core of FriendNest, a language-exchange social app, with proofs about it.
The core covers the backend's controllers and the client-side logic that talks to them.

Backend:
- **Friend graph.** Sending, accepting and removing friend requests, and the friend-request feed.
- **Account handlers.** Recommendations, partial profile and settings updates, and the email, password and account-deletion guards.
- **Groups.** Groups and the events embedded in them.
- **Message notifications.** The coalescing of message notifications, and mark-read.
- **Admin.** The user-deletion cascade, paginated listings and the dashboard counters.
- **Rate limiter.** The fixed-window limiter in front of the admin routes.

Client and scripts:
- **Message hook.** Turns chat messages into notifications.
- **Pages.** The notifications, group detail, settings and friends pages.
- **Migration.** A one-off script that rewrites the chat provider's user roles in batches of 100.

Each backend handler is a pure function. It takes the collections it reads and returns either the
updated collections or an error that carries the handler's HTTP status and message. The collections
are:
- users and groups, as maps from id to document;
- friend requests and notifications, as sequences in natural (insertion) order, so that a `findOne`
  returns the first match.

Users are read through the schema, which fills in the default of every settings key a document
lacks. So a settings key the model holds as `None` is one stored as null. The `role` field is
queried in the database as stored, so there a missing role (`None`) and a stored null (`NullRole`)
differ.

Fresh document ids and the current time are parameters. So are two external outcomes:
- whether a password matched its stored hash (`passwordOk`);
- whether the chat provider answered (`providerOk`).

Each client helper is a pure function of what the page or hook receives. Its contracts are stated
against the backend handler it calls.

Files, one module each:
- `wrappers.dfy`, `text.dfy`, `seqs.dfy`: results and options; the JavaScript string operations
  used (`trim`, `toLowerCase`, `includes`, `split`/`join`, the default sort order); sequence
  helpers (filter, stable sort, top-k).
- `user_model.dfy`, `group_model.dfy`, `notification_model.dfy`, `request_model.dfy`,
  `database.dfy`: the documents and the store.
- `friends.dfy`, `account.dfy`, `groups.dfy`, `notifications.dfy`, `admin.dfy`, `rate_limit.dfy`: the
  backend.
- `message_hook.dfy`, `notifications_page.dfy`, `group_detail_page.dfy`, `settings_page.dfy`,
  `friends_page.dfy`, `migration.dfy`: the client and the script.

Some behaviours of the code follow from the model:
- **Self-service account deletion breaks the friend graph.** It leaves dangling friend references
  behind; the admin cascade does not.
- **Admin deletion can orphan a group.** Deleting a group's creator leaves a group whose creator is
  not a member.
- **An organizer may leave their own event.**
- **Group chats open an odd route.** Clicking a group-chat message notification opens
  `/chat/group`.
- **Blank titles pass the client.** A whitespace-only event title or group name passes both
  presence checks, then fails schema validation with a 500.
- **The page is stricter than the backend on events.** The group page offers no event button to
  non-members, yet the backend lets anyone join an event.
- **The page and the dashboard disagree at one instant.** For the group page, an event dated
  exactly now is not past; for the dashboard, it is.
- **The messages switch can show the wrong state.** A settings save may send `messages: null`, which
  is stored as null. The settings page then shows the switch on, but the backend treats the flag
  as off.
- **The dashboard counts users the listing hides.** A user whose role is stored as null (the enum
  validator lets null through) is counted by the dashboard's `$ne: "admin"`, but the user
  listing's `$exists: false` does not select them.

## Model

| member | source | states |
|---|---|---|
| UserModel.WithoutPassword | backend/src/controllers/admin.controller.js:219-220 | a user read with `.select("-password")` has no password (the empty string, which no stored password can be), and putting the stored password back gives the stored document |
| UserModel.NewUser | backend/src/models/User.js:5-86 | a user created from the required fields has role `user`, is not onboarded, has no friends, privacy `everyone`, all four notification flags on, language `en`, and empty optional profile fields |
| NotificationModel.NewNotification | backend/src/models/Notification.js:5-34 | a new notification is unread and keeps its owner, type and message |
| GroupModel.GroupChannelId | backend/src/controllers/group.controller.js:20 | a group's chat channel id is `group-` followed by the group id, which can be read back from it |
| GroupModel.FindEvent | backend/src/models/Group.js:25-30 | the lookup of an embedded event by id finds an event with that id, or reports that none exists |
| Friends.SendFriendRequest | backend/src/controllers/user.controller.js:36-111 | the guards run in the source's order with its statuses and messages: self, missing recipient, missing sender, already friends, privacy `nobody`, friends-of-friends without a mutual friend, an active request either way. A refusal changes nothing; success purges only the pair's `removed` records and appends one pending request |
| Friends.SendGuards | backend/src/controllers/user.controller.js:42-78 | the user-level guards in order, each with its status and message, and they pass exactly when the pair is distinct and resolves, neither lists the other, and the recipient's privacy admits the sender |
| Friends.FindRequest | backend/src/controllers/user.controller.js:122 | the lookup by id finds the position of a request with that id, and finds none exactly when no request has it |
| Friends.AcceptFriendRequest | backend/src/controllers/user.controller.js:118-146 | an unknown request is a 404 and a caller who is not the recipient a 403, both with no change; success marks the request accepted without checking its status and adds each party to the other's friends; no other field of any user changes, and a friends list without duplicates stays without duplicates |
| Friends.RemoveFriend | backend/src/controllers/user.controller.js:267-320 | self is a 400, a missing friend or caller a 404, and a friend missing from the caller's own list a 400; success removes each from the other's list, changes no other field of any user, keeps duplicate-free friends lists duplicate-free, and replaces every record of the pair by one `removed` record from the caller |
| Friends.DeleteAndRecord | backend/src/controllers/user.controller.js:303-314 | after a remove the pair's records are all gone and the caller's `removed` record is last; every other record stays |
| Friends.RemoveLeavesOneRecord | backend/src/controllers/user.controller.js:294-318 | after a remove, a query for every record between the pair, in either direction, finds exactly one: the caller's `removed` record |
| Friends.PurgeRemoved | backend/src/controllers/user.controller.js:99-102 | exactly the `removed` records between the pair go; every other record stays, in order |
| Friends.DeleteBetween | backend/src/controllers/user.controller.js:300-305 | every record between the pair goes, whatever its status; the rest stay, in order |
| Friends.AddFriendship | backend/src/controllers/user.controller.js:136-142 | the two set-union writes: each party lists the other afterwards, no list gains a duplicate, and no other user or field changes |
| Friends.DropFriendship | backend/src/controllers/user.controller.js:294-297 | the two pull writes: neither party lists the other afterwards, and no other user or field changes |
| Friends.FirstActiveBetween | backend/src/controllers/user.controller.js:81-87 | the lookup finds a pending or accepted record between the pair in either direction exactly when one exists |
| Friends.AllMatching | backend/src/controllers/user.controller.js:158-164 | the uncapped incoming query returns exactly the matching records, in natural order |
| Friends.RecentMatching | backend/src/controllers/user.controller.js:166-188 | a capped query returns a sub-multiset of the matching records: min(matches, 10) of them, all of them when at most ten match, newest update first, and every match it leaves out is no newer than any it keeps |
| Friends.TagValid | backend/src/controllers/user.controller.js:190-197 | every tagged accepted entry is an accepted record of the caller's, tagged with the caller's side and the other party |
| Friends.RecentAccepted | backend/src/controllers/user.controller.js:190-199 | the accepted list holds at most 20 entries, newest first, and is a reordering of the two tagged capped lists |
| Friends.GetFriendRequests | backend/src/controllers/user.controller.js:153-204 | the feed holds exactly three lists: all pending requests addressed to the caller, the merged accepted list, and the ten newest `removed` records addressed to the caller, drawn from those records without repeats beyond theirs and all of them when at most ten exist |
| Friends.RemovedListIsRecent | backend/src/controllers/user.controller.js:181-188 | the removed list holds min(n, 10) of the n `removed` records addressed to the caller, as a sub-multiset of them and all of them when n is at most ten, newest first; none left out is newer than one kept |
| Friends.SendPreservesGraph | backend/src/controllers/user.controller.js:36-111 | sending keeps the graph invariant: symmetric, resolving and duplicate-free friends lists, accepted requests backed by friendships, one record per pair |
| Friends.AcceptPreservesGraph | backend/src/controllers/user.controller.js:118-146 | accepting keeps the graph invariant |
| Friends.RemovePreservesGraph | backend/src/controllers/user.controller.js:267-320 | removing keeps the graph invariant |
| Account.RecommendedUsers | backend/src/controllers/user.controller.js:9-15 | recommendations are exactly the onboarded users other than the caller and the caller's friends |
| Account.AcceptHidesFromRecommendations | backend/src/controllers/user.controller.js:9-15 | after an accept, the sender is no longer recommended to the recipient |
| Account.RemoveRestoresRecommendation | backend/src/controllers/user.controller.js:9-15 | after a remove, an onboarded former friend is recommended to the caller again |
| Account.ApplyProfile | backend/src/controllers/user.controller.js:230-236 | name, languages and picture change only when given non-empty, bio and location whenever given; nothing else changes |
| Account.UpdateProfile | backend/src/controllers/user.controller.js:225-260 | a missing caller is a 404; otherwise only the caller's document changes, by the profile rules |
| Account.ApplyProfileIdempotent | backend/src/controllers/user.controller.js:230-236 | sending the same profile update twice stores what the first one stored |
| Account.Overlay | backend/src/controllers/user.controller.js:492-503 | one key of a spread merge: a key the body leaves out keeps the stored value, a key sent as null is stored as null, and a value sent replaces the stored one |
| Account.MergeSettings | backend/src/controllers/user.controller.js:492-503 | each present section is merged key by key (left out: kept; null: stored as null; a value: written), and absent sections stay as they were |
| Account.UpdateSettings | backend/src/controllers/user.controller.js:482-509 | a missing caller is a 404; otherwise only the caller's settings change, by the merge |
| Account.MergeSettingsIdempotent | backend/src/controllers/user.controller.js:492-503 | repeating a settings update stores nothing new |
| Account.MergeSectionsCommute | backend/src/controllers/user.controller.js:492-503 | updates that touch different sections give the same result in either order |
| Account.ValidEmailMatchesPattern | backend/src/controllers/user.controller.js:419-422 | the direct email test accepts exactly the strings the email regular expression matches |
| Account.UpdateEmail | backend/src/controllers/user.controller.js:410-442 | the guards run in order: both fields, email shape, caller exists, password correct, email not held by another user; success changes only the caller's email |
| Account.UpdateEmailKeepsEmailsUnique | backend/src/controllers/user.controller.js:434-437 | an email change never gives two users the same email |
| Account.UpdatePassword | backend/src/controllers/user.controller.js:449-475 | the guards run in order: both fields, length at least 6, caller exists, current password correct; success stores a valid new password and changes nothing else |
| Account.DeleteAccount | backend/src/controllers/user.controller.js:516-539 | the password is required, the caller must exist and the password must match; success removes the caller's document and nothing else |
| Account.DeleteAccountBreaksGraph | backend/src/controllers/user.controller.js:535 | self-service deletion can break the graph invariant: a former friend keeps a dangling reference |
| Groups.Save | backend/src/models/Group.js:35-56 | saving succeeds exactly for a document that passes the required-field validators, else it is a 500 |
| Groups.TrimOrEmpty | backend/src/controllers/group.controller.js:54 | an optional text is trimmed when present, and is empty when absent |
| Groups.NewGroup | backend/src/controllers/group.controller.js:52-74 | a new group has a trimmed name, a trimmed or empty description, the creator as its only member, no events, and the `group-` channel id only when the provider answered |
| Groups.CreateGroup | backend/src/controllers/group.controller.js:42-85 | a missing name or language is a 400; a blank name fails validation with a 500; otherwise exactly the new group is stored |
| Groups.JoinGroup | backend/src/controllers/group.controller.js:192-221 | an unknown group is a 404 and a member a 400; otherwise the caller is appended to the members and nothing else changes |
| Groups.LeaveGroup | backend/src/controllers/group.controller.js:235-268 | the creator is refused before membership is checked, a non-member is refused, and otherwise exactly the caller leaves, the other members keeping their order |
| Groups.ApplyGroupUpdate | backend/src/controllers/group.controller.js:291-294 | name (trimmed) and language change only when given non-empty, description (trimmed) and cover image whenever given; nothing else changes |
| Groups.UpdateGroup | backend/src/controllers/group.controller.js:276-311 | only the creator may update (403 otherwise); the update follows the field rules and is validated |
| Groups.DeleteGroup | backend/src/controllers/group.controller.js:319-345 | only the creator may delete (403 otherwise); exactly that group goes, with its events |
| Groups.EnsureChannel | backend/src/controllers/group.controller.js:11-40 | a group without a channel gets `group-<id>` when the provider answers; a group with a channel keeps it |
| Groups.EnsureChannelIdempotent | backend/src/controllers/group.controller.js:11-40 | once a channel is set it is never replaced |
| Groups.NewEvent | backend/src/controllers/group.controller.js:371-380 | a new event has the caller as organizer and only attendee, a trimmed title, and trimmed or empty description and location |
| Groups.CreateEvent | backend/src/controllers/group.controller.js:353-394 | a falsy title or date is a 400 before the group lookup, then a missing group is a 404 and a non-member a 403; a date `new Date` cannot read is a 500; otherwise success appends exactly one event, with that date, to that group |
| Groups.JoinEvent | backend/src/controllers/group.controller.js:397-421 | an attendee is refused; anyone else is appended, with no membership check |
| Groups.LeaveEvent | backend/src/controllers/group.controller.js:432-456 | a non-attendee is refused; otherwise exactly the caller is removed from the attendees |
| Groups.PullEvent | backend/src/controllers/group.controller.js:482-483 | exactly the events with that id go; the others stay, in order |
| Groups.DeleteEvent | backend/src/controllers/group.controller.js:464-486 | only the organizer may delete (403 otherwise); exactly that event goes and the other events are unchanged |
| Groups.AttendeesKeepValid | backend/src/models/Group.js:25-30 | changing only an event's attendees neither makes nor breaks the group's validity |
| Groups.HandlePreservesInvariants | backend/src/controllers/group.controller.js:235-268 | no group handler separates a creator from their group or stores an invalid document |
| Groups.CreatedEventHasOrganizer | backend/src/controllers/group.controller.js:371-380 | the organizer attends the event they create |
| Groups.LeaveEventDropsOrganizer | backend/src/controllers/group.controller.js:447-453 | an organizer can leave their own event, so organizer attendance is not an invariant |
| Notifications.FindUnreadThread | backend/src/controllers/notification.controller.js:84-89 | the duplicate check finds the first unread message notification for the recipient and channel, or reports that none exists |
| Notifications.CreateMessageNotification | backend/src/controllers/notification.controller.js:68-117 | missing fields are a 400; a missing recipient, or one whose messages flag is false or stored as null, is a no-op; an existing unread thread is overwritten with the preview; otherwise a missing sender is a 404, else one unread message notification is appended |
| Notifications.CreateKeepsCoalesced | backend/src/controllers/notification.controller.js:83-97 | creation keeps at most one unread message notification per recipient and channel |
| Notifications.MarkReadKeepsCoalesced | backend/src/controllers/notification.controller.js:28-45 | marking one notification read keeps coalescing |
| Notifications.MarkAllKeepsCoalesced | backend/src/controllers/notification.controller.js:52-61 | marking all read keeps coalescing |
| Notifications.FindOwned | backend/src/controllers/notification.controller.js:33-36 | the lookup finds the first notification with that id owned by the caller; another user's notification with that id is never found |
| Notifications.MarkNotificationAsRead | backend/src/controllers/notification.controller.js:28-45 | only the caller's own notification is found, 404 otherwise; it becomes read and nothing else changes |
| Notifications.MarkAsReadIdempotent | backend/src/controllers/notification.controller.js:33-42 | marking the same notification read twice changes nothing more |
| Notifications.MarkAllNotificationsAsRead | backend/src/controllers/notification.controller.js:52-61 | every notification of the caller becomes read, and every other user's is untouched |
| Notifications.MarkAllClearsUnread | backend/src/controllers/notification.controller.js:52-61 | afterwards the caller's unread count is zero, and every other user's count is unchanged |
| Notifications.OwnedBy | backend/src/controllers/notification.controller.js:8 | the caller's notifications, in natural order |
| Notifications.UnreadOwnedBy | backend/src/controllers/notification.controller.js:13-16 | the caller's unread notifications |
| Notifications.GetNotifications | backend/src/controllers/notification.controller.js:4-18 | the list is a sub-multiset of the caller's notifications holding min(owned, 100) of them, all of them when at most 100 exist, newest first, leaving out none newer than one it keeps; the unread count covers all of the caller's unread notifications, beyond the cap |
| Notifications.NewestOwned | backend/src/controllers/notification.controller.js:8-11 | the caller's newest hundred notifications as a sub-multiset of them, or all of them when there are fewer, newest first; none left out is newer than one kept |
| Admin.PullFromFriends | backend/src/controllers/admin.controller.js:336-339 | the deleted id vanishes from every friends list, and nothing else in the lists changes |
| Admin.PullFromMembers | backend/src/controllers/admin.controller.js:342-345 | the deleted id vanishes from every group's members, and nothing else in the groups changes |
| Admin.DropRequestsOf | backend/src/controllers/admin.controller.js:348-350 | exactly the requests the user sent or received are deleted |
| Admin.DropNotificationsOf | backend/src/controllers/admin.controller.js:353 | exactly the notifications the user owns are deleted; the ones the user sent to others remain |
| Admin.DeleteUser | backend/src/controllers/admin.controller.js:315-369 | self is a 400, an unknown user a 404, another admin a 403; success runs the whole cascade and deletes the user |
| Admin.DeleteUserPreservesGraph | backend/src/controllers/admin.controller.js:336-364 | the admin cascade keeps the graph invariant |
| Admin.DeleteUserOrphansGroup | backend/src/controllers/admin.controller.js:342-345 | the cascade can leave a group whose creator is not a member |
| Admin.DeleteGroup | backend/src/controllers/admin.controller.js:468-491 | with no ownership check, an unknown group is a 404 and otherwise exactly that group goes |
| Admin.AdminDeleteExtendsCreatorDelete | backend/src/controllers/admin.controller.js:468-491 | whenever the creator's delete succeeds the admin's has the same effect, and the admin's also succeeds where the creator check refuses |
| Admin.IntOr | backend/src/controllers/admin.controller.js:190-191 | a page or limit falls back to its default when missing, unparsable or 0, and never ends up 0 |
| Admin.SortDirection | backend/src/controllers/admin.controller.js:194 | the direction is ascending exactly for the word `asc`, descending otherwise |
| Admin.PageCount | backend/src/controllers/admin.controller.js:249 | the page count is the total divided by the limit, rounded up |
| Admin.PageWindow | backend/src/controllers/admin.controller.js:197-223 | a negative skip is refused with a 500; otherwise the window is the slice starting at (page-1)·limit, at most limit long |
| Admin.ItemOnItsPage | backend/src/controllers/admin.controller.js:197-223 | with a positive limit, item k appears on page k/limit+1 |
| Admin.PageNonEmptyIff | backend/src/controllers/admin.controller.js:197-249 | exactly pages 1 to the page count hold items |
| Admin.ListedVersusCounted | backend/src/controllers/admin.controller.js:200-202 | every user the listing's `$or` filter selects is counted by the dashboard's `$ne: "admin"`, and the only users counted but not listed are those whose role is stored as null |
| Admin.SortedMatches | backend/src/controllers/admin.controller.js:219-221 | the sorted query result is a permutation of the matching documents in descending key order |
| Seqs.SortedOrderUnique | backend/src/controllers/admin.controller.js:219-221 | when keys are pairwise distinct, two sorted permutations of the same documents are equal, so how a sort breaks ties cannot matter |
| Admin.TieFreeOrderIsForced | backend/src/controllers/admin.controller.js:219-223 | when the matches' sort keys are pairwise distinct, any sorted order the database returns for them is the order the listing pages through |
| Admin.ListPage | backend/src/controllers/admin.controller.js:219-223 | a negative skip is a 500; otherwise the page is exactly the run of sorted matches that starts after (page-1)·limit of them, as many as are left up to the magnitude of the limit |
| Admin.ListItemOnItsPage | backend/src/controllers/admin.controller.js:197-223 | no match is skipped: with a positive limit the k-th sorted match is item k mod limit of page k/limit+1, a page within the page count |
| Admin.EveryMatchOnSomePage | backend/src/controllers/admin.controller.js:197-223 | with a positive limit every matching document is on some page within the advertised page count |
| Admin.ListPageNonEmptyIff | backend/src/controllers/admin.controller.js:197-249 | a listing's page holds documents exactly when it is one of pages 1 to the page count |
| Admin.Populated | backend/src/controllers/admin.controller.js:224 | populating an array of references keeps, in order, exactly the references whose user still exists, and keeps them all when none dangles |
| Admin.GetAllUsers | backend/src/controllers/admin.controller.js:188-251 | the parsed defaults apply; page p holds exactly the matching users from position (p-1)·limit of the creation-time order, as many as are left up to the limit; a row holds the user without its password; a row's friend count counts only friends that still exist; the total counts all matches |
| Admin.UserRowsFaithful | backend/src/controllers/admin.controller.js:228-237 | each user row is a matching stored user without its password: the password is empty, and putting the stored one back gives the stored document; its friend count counts the friends that populate and never exceeds the stored list; its group count is the number of groups listing the user |
| Admin.EveryMatchingUserListed | backend/src/controllers/admin.controller.js:188-251 | with a positive limit every matching user has its row on some page within the page count |
| Admin.GetAllGroups | backend/src/controllers/admin.controller.js:379-432 | the same pipeline over groups filtered by language: page p holds exactly the matching groups from position (p-1)·limit; the member count counts only members that still exist, the event count is the number of events |
| Admin.GroupRowsFaithful | backend/src/controllers/admin.controller.js:407-418 | each group row is a matching stored group; its member count counts the members that populate and never exceeds the stored list; its event count is the number of events |
| Admin.EveryMatchingGroupListed | backend/src/controllers/admin.controller.js:379-432 | with a positive limit every matching group has its row on some page within the page count |
| Admin.UserStatsOf | backend/src/controllers/admin.controller.js:22-41 | the user counters count non-admins; notOnboarded is exactly the non-onboarded count; the created-since counters grow with the window |
| Admin.GroupStatsOf | backend/src/controllers/admin.controller.js:43-68 | the group counters: total, member total, and created-since counters that grow with the window |
| Admin.CountGroupEvents | backend/src/controllers/admin.controller.js:76-84 | the inner loop adds one group's events to the total and to exactly one of the upcoming and past counters |
| Admin.UpcomingPastPartition | backend/src/controllers/admin.controller.js:79-83 | every event is exactly one of upcoming and past |
| Admin.CountEvents | backend/src/controllers/admin.controller.js:70-85 | the loop counts every event of every group, and upcoming + past = total |
| Admin.StatusesPartition | backend/src/controllers/admin.controller.js:88-91 | every request has exactly one of the three statuses |
| Admin.RequestStatsOf | backend/src/controllers/admin.controller.js:87-91 | pending + accepted + removed = total |
| Admin.Friendships | backend/src/controllers/admin.controller.js:97-104 | the friendship count is half the friends-list total of the non-admins, rounded down |
| Admin.NewestCounted | backend/src/controllers/admin.controller.js:107-111 | the five newest non-admin users as a sub-multiset of them, or all of them when fewer exist, newest first; none left out is newer than one kept |
| Admin.RecentUsers | backend/src/controllers/admin.controller.js:107-111 | min(5, n) of the n non-admin users, each without its password, as a sub-multiset of the stripped non-admin users and all of them when n is at most five, newest first, position by position the newest non-admin users |
| Admin.WithoutPasswords | backend/src/controllers/admin.controller.js:107-111 | each document of a `.select("-password")` result loses its password and keeps its place, so creation order is kept |
| Admin.RecentGroups | backend/src/controllers/admin.controller.js:113-117 | the five newest groups as a sub-multiset of the groups, or all of them when fewer exist, newest first; none left out is newer than one kept |
| Admin.RecentEvents | backend/src/controllers/admin.controller.js:119-135 | the five newest events across all groups as a sub-multiset of them, or all of them when fewer exist, each with its group, newest by creation time (or date) first; none left out is newer than one kept |
| Admin.GetDashboardStats | backend/src/controllers/admin.controller.js:10-178 | the user, group and request counters are the ones UserStatsOf, GroupStatsOf and RequestStatsOf pin to their queries' counts; upcoming and past are counted over every event and add up to the total; unread is the number of unread notifications; friendships is half the degree sum; the recent lists are the five newest users, groups and events, each a sub-multiset of its candidates (the users stripped of their passwords), and no recent user carries a password |
| RateLimit.SecondsUp | backend/src/middleware/rateLimit.middleware.js:32 | the wait is the remaining time in whole seconds, rounded up |
| RateLimit.Hit | backend/src/middleware/rateLimit.middleware.js:10-38 | a new key or an ended window (strictly after its end) starts a count of 1 and allows; a full count inside the window rejects with the wait and changes nothing; otherwise the count grows by one and the request is allowed; other keys are untouched |
| RateLimit.LoginKey | backend/src/middleware/rateLimit.middleware.js:47 | the login key is `login:` followed by the address |
| RateLimit.LimitersIndependent | backend/src/middleware/rateLimit.middleware.js:41-71 | the two limiters share the map without touching each other's entries, and addresses never share a login entry |
| RateLimit.HitKeepsWithinLimit | backend/src/middleware/rateLimit.middleware.js:29-37 | no entry ever counts past its limit |
| RateLimit.ReplayWithinWindow | backend/src/middleware/rateLimit.middleware.js:29-37 | inside a window, the requests let through add up to at most what the entry had left |
| RateLimit.AtMostMaxPerWindow | backend/src/middleware/rateLimit.middleware.js:16-37 | at most the limit's number of requests pass in one window |
| RateLimit.Sweep | backend/src/middleware/rateLimit.middleware.js:74-81 | the sweep removes exactly the entries whose window has ended and keeps the rest unchanged |
| RateLimit.SweepIsInvisible | backend/src/middleware/rateLimit.middleware.js:74-81 | a later request gets the same decision and entry with or without an earlier sweep |
| MessageHook.SortedPair | frontend/src/hooks/useMessageNotifications.js:29 | the two ids in string order |
| MessageHook.DmChannelId | frontend/src/hooks/useMessageNotifications.js:29 | the channel id splits back into the sorted pair when neither id holds a `-` |
| MessageHook.DmChannelIdSymmetric | frontend/src/hooks/useMessageNotifications.js:29 | both participants compute the same channel id |
| MessageHook.ChatIdOf | frontend/src/hooks/useMessageNotifications.js:26 | the chat id is what follows `/chat/` up to the next `/chat/` |
| MessageHook.ChatIdOfPlainId | frontend/src/hooks/useMessageNotifications.js:26 | a route `/chat/x` with no `/` in x names exactly x |
| MessageHook.ChannelOnRoute | frontend/src/hooks/useMessageNotifications.js:23-38 | a chat route with an id and a signed-in user sets the direct channel; a chat route without them keeps the channel; any other route clears it |
| MessageHook.ChannelChanged | frontend/src/hooks/useMessageNotifications.js:42-44 | an announced channel id is kept only when it is present and non-empty |
| MessageHook.ParseCid | frontend/src/hooks/useMessageNotifications.js:83 | the channel is the text between the first and second colon, or the whole cid without a colon |
| MessageHook.ParseCidOfChannel | frontend/src/hooks/useMessageNotifications.js:83 | reading a channel's cid gives back its id when neither part holds a colon |
| MessageHook.Preview | frontend/src/hooks/useMessageNotifications.js:91-94 | the preview is the text or `New message`, cut to 50 characters plus `...` when longer; never empty and at most 53 long |
| MessageHook.PreviewIdempotent | frontend/src/hooks/useMessageNotifications.js:91-94 | previewing a preview changes nothing |
| MessageHook.HandleNewMessage | frontend/src/hooks/useMessageNotifications.js:72-101 | a notification is requested exactly when a message and user are present, the user is not me, a cid is present and its channel is not the one viewed; the sender is the message's author, else the event's user |
| MessageHook.NoNotificationForOpenChat | frontend/src/hooks/useMessageNotifications.js:25-88 | while a direct chat is open, its messages are not notified |
| MessageHook.AnnouncedChannelSuppressed | frontend/src/hooks/useMessageNotifications.js:42-88 | after an announcement, exactly the announced channel's messages are skipped |
| MessageHook.SentPreviewIsStored | frontend/src/hooks/useMessageNotifications.js:91-101 | the backend stores the preview the hook sent, whether it creates or updates the notification |
| NotificationsPage.MessageList | frontend/src/pages/NotificationsPage.jsx:55-57 | the message list is a reordering of the feed's message notifications, newest first |
| NotificationsPage.MessageListOfFeed | frontend/src/pages/NotificationsPage.jsx:55-57 | shown the backend's feed, the list holds only the caller's own message notifications |
| NotificationsPage.FriendFromChannel | frontend/src/pages/NotificationsPage.jsx:69-70 | no friend is found exactly when every piece of the channel id is the caller's id; otherwise the first other piece |
| NotificationsPage.OnMessageClick | frontend/src/pages/NotificationsPage.jsx:61-75 | a click asks to mark read only when unread, and opens the chat with the piece found, if any, when there is a channel and a signed-in user |
| NotificationsPage.SkippedMarkReadIsNoOp | frontend/src/pages/NotificationsPage.jsx:63-65 | skipping the mark-read request for a read notification loses nothing |
| NotificationsPage.FriendFromDmChannel | frontend/src/pages/NotificationsPage.jsx:68-74 | for two hyphen-free ids, the piece found is the other participant, or none for a chat with oneself |
| NotificationsPage.ClickReopensChannel | frontend/src/pages/NotificationsPage.jsx:68-74 | a click on a direct-chat notification opens the chat whose channel is the notification's channel |
| NotificationsPage.GroupChannelYieldsGroupWord | frontend/src/pages/NotificationsPage.jsx:69-72 | a group channel id yields the word `group` as the friend |
| NotificationsPage.OtherUserOf | frontend/src/pages/NotificationsPage.jsx:143 | the other party is the given one, else the recipient when the caller sent the request, else the sender |
| NotificationsPage.AcceptedLine | frontend/src/pages/NotificationsPage.jsx:144-156 | the sentence says the caller accepted exactly when its role is `recipient` |
| NotificationsPage.AcceptedItemsAgree | frontend/src/pages/NotificationsPage.jsx:143-156 | for each entry of the backend's accepted list, the page names the other party and says who accepted correctly |
| NotificationsPage.EmptyStateNeedsNoNews | frontend/src/pages/NotificationsPage.jsx:272 | the empty state appears only when the caller has no pending, accepted or removed request news |
| NotificationsPage.QuietPageIsEmpty | frontend/src/pages/NotificationsPage.jsx:272 | with no request news and no message notification, the empty state appears |
| NotificationsPage.EmptyStateMeaning | frontend/src/pages/NotificationsPage.jsx:272 | when the caller's notifications fit within the feed's cap, the empty state appears exactly when there is neither request news nor a message notification |
| NotificationsPage.RequestListsEmpty | frontend/src/pages/NotificationsPage.jsx:52-54 | the three request lists are all empty exactly when no request news exists |
| GroupDetailPage.ViewOf | backend/src/controllers/group.controller.js:177-182 | the view carries the caller's membership, whether they created the group, and the member count |
| GroupDetailPage.Header | frontend/src/pages/GroupDetailPage.jsx:235-286 | a member who created the group gets Delete, any other member Leave, a non-member Join |
| GroupDetailPage.HeaderMatchesBackend | frontend/src/pages/GroupDetailPage.jsx:235-286 | the header offers exactly the one group action the backend would carry out |
| GroupDetailPage.EventGuardMatchesBackend | frontend/src/pages/GroupDetailPage.jsx:134-141 | the form is submitted exactly when the backend would not refuse it for a missing field, and a refused form gets the backend's message |
| GroupDetailPage.SortedEvents | frontend/src/pages/GroupDetailPage.jsx:188-190 | a reordering of the events, earliest first; no events array gives an empty list |
| GroupDetailPage.PastDiffersFromDashboardOnlyAtNow | frontend/src/pages/GroupDetailPage.jsx:338 | the page's past test agrees with the dashboard's split everywhere except at exactly now |
| GroupDetailPage.AttendingIffListed | frontend/src/pages/GroupDetailPage.jsx:339-342 | attendance, by raw id or populated document, is membership of the caller's id |
| GroupDetailPage.EventButton | frontend/src/pages/GroupDetailPage.jsx:392-419 | no button unless member and not past; then organizer Delete, attendee Leave, anyone else Join |
| GroupDetailPage.EventButtonMatchesBackend | frontend/src/pages/GroupDetailPage.jsx:392-419 | every event button the page offers is one the backend carries out |
| GroupDetailPage.NonMemberCouldStillJoin | frontend/src/pages/GroupDetailPage.jsx:392-419 | a non-member gets no button although the backend would let them join |
| GroupDetailPage.MemberCountShown | frontend/src/pages/GroupDetailPage.jsx:225 | the count shown is the member count, else the members' length, else 0 |
| GroupDetailPage.MemberCountIsMembers | frontend/src/pages/GroupDetailPage.jsx:225 | for the backend's answer, with or without the count, the page shows the number of members |
| SettingsPage.SubmitPassword | frontend/src/pages/SettingsPage.jsx:127-145 | refusals come in order (empty field, mismatch, shorter than 6), each with its message; otherwise only the current and new passwords are sent |
| SettingsPage.PasswordFormCoversBackend | frontend/src/pages/SettingsPage.jsx:127-145 | a sent form is never refused by the backend for a missing or short password, and a form refused as short would be refused by the backend too |
| SettingsPage.InitialEmail | frontend/src/pages/SettingsPage.jsx:33-36 | the email form starts from the user's email, or empty |
| SettingsPage.SubmitEmail | frontend/src/pages/SettingsPage.jsx:118-125 | both fields are required, and the pair is sent as is |
| SettingsPage.EmailFormMatchesBackend | frontend/src/pages/SettingsPage.jsx:118-125 | the page sends exactly the forms the backend does not refuse for a missing field |
| SettingsPage.SubmitDelete | frontend/src/pages/SettingsPage.jsx:159-171 | a password is required, then the user's confirmation; only then is the password sent |
| SettingsPage.DeleteFormMatchesBackend | frontend/src/pages/SettingsPage.jsx:159-171 | a sent deletion is never refused for a missing password, and succeeds exactly for an existing caller with the right password |
| SettingsPage.FlagOrOn | frontend/src/pages/SettingsPage.jsx:55-58 | a notification flag shows as on unless it is explicitly false; a null flag shows as on |
| SettingsPage.InitialForm | frontend/src/pages/SettingsPage.jsx:49-63 | privacy is the backend's effective privacy, each flag keeps an explicit false and is otherwise on, and the language falls back to `en` |
| SettingsPage.SavePrivacy | frontend/src/pages/SettingsPage.jsx:147-149 | the privacy save sends only the privacy section |
| SettingsPage.SaveNotifications | frontend/src/pages/SettingsPage.jsx:151-153 | the notifications save sends only the notifications section, with all four flags |
| SettingsPage.SaveLanguage | frontend/src/pages/SettingsPage.jsx:155-157 | the language save sends only the language section |
| SettingsPage.SaveThenReload | frontend/src/pages/SettingsPage.jsx:147-157 | after a save the page shows what was saved and the other tabs are unchanged; after a notifications save the backend reads the messages flag as displayed |
| SettingsPage.NullMessagesFlagShowsOnButIsOff | frontend/src/pages/SettingsPage.jsx:58 | a messages flag stored as null shows as on, while the backend treats it as off |
| SettingsPage.ClearedMessagesFlagShowsOnButIsOff | backend/src/controllers/user.controller.js:496-499 | a settings save that sends `messages: null` succeeds and leaves the switch showing on with message notifications off; for a user the schema created, the switch and the flag agree |
| FriendsPage.FilterFriends | frontend/src/pages/FriendsPage.jsx:16-31 | a blank query lists every friend; any other lists, in order, exactly the friends one of whose five fields contains the lowercased, trimmed query |
| FriendsPage.FilterFriendsIdempotent | frontend/src/pages/FriendsPage.jsx:16-31 | searching the result again with the same query changes nothing |
| FriendsPage.MissingFieldsNeverMatch | frontend/src/pages/FriendsPage.jsx:23-27 | a friend only matches through a field it has |
| FriendsPage.SearchIgnoresCase | frontend/src/pages/FriendsPage.jsx:21 | the search ignores the case of the query |
| FriendsPage.ListedCard | backend/src/controllers/user.controller.js:25-27 | the friends list carries name and languages, but no location and no bio |
| FriendsPage.ListedCardIgnoresLocationAndBio | frontend/src/pages/FriendsPage.jsx:23-27 | as served, a friend matches exactly when its name or a language does |
| FriendsPage.LocationSearchMissesListedFriend | frontend/src/pages/FriendsPage.jsx:24 | a friend whose location contains the query is not found |
| FriendsPage.FullCard | frontend/src/pages/FriendsPage.jsx:23-27 | a friend with all five searched fields |
| FriendsPage.FullCardSearchFindsEveryField | frontend/src/pages/FriendsPage.jsx:23-29 | with all fields present, a friend is found exactly when one of the five fields contains the query |
| Migration.UpdateFor | backend/scripts/update-stream-users-remove-role.js:61-80 | an admin keeps the `admin` role and every other user gets none; the name falls back to `User`, and the picture is passed through |
| Migration.BuildUpdates | backend/scripts/update-stream-users-remove-role.js:54-81 | one update per user, in order; admins plus regular users make up all users, and the regular users are exactly the ones the dashboard counts |
| Migration.Batches | backend/scripts/update-stream-users-remove-role.js:88-93 | the batches concatenate back to the updates; each holds 1 to 100 and all but the last exactly 100; their number is the count divided by 100, rounded up |

## Left out

- The chat provider's API calls are not modelled: channel creation, member updates, deletion,
  `upsertUsers` and tokens. Whether the provider answered is the `providerOk` parameter where the
  stored data depends on it; elsewhere the call is dropped, because its failures are swallowed.
- Password hashing and comparison are not modelled; the outcome of a comparison is the `passwordOk`
  parameter.
- The `$regex` search terms of the admin listings are not modelled, because regular-expression
  semantics are out of reach. `Admin.GetAllUsers` and `Admin.GetAllGroups` model the query without
  a search term.
- `searchUsers`, `getGroups` and `getMyGroups` are left out for the same reason; they are search and
  listing handlers built on regular expressions.
- `getOutgoingFriendReqs`, the admin `getUserById` and `getGroupById`, and `getMyFriends` are left out
  because they are plain reads. `getMyFriends` appears only as the fields it selects
  (`FriendsPage.ListedCard`).
- The dashboard's `byLanguage` aggregation is not modelled, because it is an aggregation pipeline
  (group, sort, limit 10).
- Calendar arithmetic (`setHours`, `setDate`, time zones) is not modelled. The dashboard takes
  `today`, `weekAgo` and `monthAgo` as given integers.
- Admin.GetAllUsers: the sort field is always `createdAt`; a custom `sort` query parameter is not
  modelled.
- Admin.GetAllGroups: the sort field is always `createdAt`; a custom `sort` query parameter is not
  modelled.
- Admin.ListPage: documents with equal sort keys are ordered by the model's stable sort. The
  database leaves their order open, and each page is a separate query, so it may break the same tie
  differently on different pages. The page contents hold for any database order only when the
  matches' creation times are pairwise distinct (`Admin.TieFreeOrderIsForced`).
- Admin.EveryMatchOnSomePage: holds for the program only when the matches' creation times are
  pairwise distinct, for the same reason as `Admin.ListItemOnItsPage`.
- Admin.ListItemOnItsPage: holds across pages only when the matches' creation times are pairwise
  distinct. With a tie, one document can show on two pages and another on none.
- Admin.GetAllUsers: ties in creation time follow the model's stable sort; the rows of a page are
  those of the database's answer only when the matches' creation times are pairwise distinct.
- Admin.EveryMatchingUserListed: holds for the program only when the matching users' creation
  times are pairwise distinct; a tie split across a page boundary can leave a user off every page.
- Admin.GetAllGroups: ties in creation time follow the model's stable sort; the rows of a page are
  those of the database's answer only when the matches' creation times are pairwise distinct.
- Admin.EveryMatchingGroupListed: holds for the program only when the matching groups' creation
  times are pairwise distinct; a tie split across a page boundary can leave a group off every page.
- Account.UpdateProfile: a `bio` or `location` sent as null is stored as null. The model's profile
  fields are strings, so it treats null like an absent key.
- Groups.UpdateGroup: a `description` sent as null makes `null.trim()` throw, which the handler
  answers with 500, and a `coverImage` sent as null is stored as null. The update body cannot express
  null, so both cases behave in the model like an absent key.
- Account.UpdateSettings: a privacy value outside the enum, or a flag that does not cast to a
  boolean, fails validation on save with a 500. The body's `Privacy` and `bool` types cannot express
  such a value.
- Groups.CreateEvent: takes the date already classified as falsy, unreadable or a date. JavaScript
  truthiness and `Date` parsing are not modelled.
- Ids are plain strings. An id that is not a well-formed ObjectId makes `findById` throw a cast
  error, which the handlers answer with 500. In the model such an id is just absent, so the handler
  answers as it does for a missing document, usually 404.
- Admin.IntOr: takes the result of `parseInt` as given, and does not model how strings parse.
- Admin.RecentEvents: the order among equal sort keys is that of the model's stable sort. The
  database leaves ties unordered, so the contracts promise nothing about them.
- Admin.NewestCounted: the order among equal creation times is that of the model's stable sort, and
  so is the order of `Admin.RecentUsers`, which is built from it; the contracts promise nothing
  about ties.
- Admin.RecentGroups: the order among equal creation times is that of the model's stable sort; the
  contracts promise nothing about ties.
- Text.ToLower: lowers ASCII letters only, whereas JavaScript lowers every Unicode letter. The
  friends search is modelled for that case mapping.
- String lengths count Dafny characters, not UTF-16 code units. This matters for the 50-character
  preview cut and the 6-character password minimum.
- GroupDetailPage.ViewOf: assumes every member and the creator still resolve to a user.
  `getGroupById` counts only the members that populate. A deleted creator makes the handler fail.
- The periodic sweep's timer is not modelled: `RateLimit.Sweep` is a pure function applied at a
  given time. The same holds for the rest of the timer and concurrency plumbing: intervals, window
  events and query-cache invalidation.
- Handlers are modelled as atomic. Nothing is claimed about interleavings or about a crash between
  the two friends-list writes.
- Route wiring, authentication middleware and the server setup are not modelled. The caller's id is
  a parameter.
- Rendering is not modelled. Toasts are their message strings, `window.confirm` is a boolean,
  navigation is the route string, and request bodies are datatypes.
- Pages outside the core and the layout components are not modelled: home, search, profile,
  onboarding, sign-up, login, the chat pages, the group list, the admin pages and the shared
  components.
- The migration script's database connection, logging, exit codes and the `upsertUsers` call itself
  are not modelled. `Migration.Batches` stops at the batches the call would receive.
- backend/src/models/FriendRequest.js is not part of this model. The request record's shape
  (sender, recipient, status with a pending default, timestamps) follows how the controllers query
  it.

## Findings

| source | as written | input that shows it | evidently intended | confidence | as-written member | corrected member |
|---|---|---|---|---|---|---|
| backend/src/controllers/user.controller.js:25-27 | The friends list populates only name, picture and the two languages, yet the friends page also searches location and bio (its hint reads "name, location, or language"). | A friend located in "Paris", with a name and languages shorter than the query, is not listed for the query "paris". | The friends list carries every field the search reads, so searching by location or bio finds the friend. | medium; not executed | FriendsPage.LocationSearchMissesListedFriend | FriendsPage.FullCardSearchFindsEveryField |
