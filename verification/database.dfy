/** The four collections the backend keeps. Users and groups are looked up by id; friend requests
    and notifications are scanned by queries, so they keep their natural (insertion) order and
    `findOne` returns the first match. */
module Database {
  import opened UserModel
  import opened GroupModel
  import opened NotificationModel
  import opened RequestModel

  datatype Store = Store(
    users: map<Id, User>,
    groups: map<Id, Group>,
    requests: seq<FriendRequest>,
    notifications: seq<Notification>)
}
