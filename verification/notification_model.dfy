/** The Notification document. */
module NotificationModel {
  import opened Wrappers
  import opened UserModel

  /** The `type` enum. */
  datatype NotificationType = FriendRequestNote | MessageNote | FriendAcceptedNote | FriendRemovedNote

  /** A notification owned by `user`. `sender`, `channelId` and the metadata's message preview are
      optional; `isRead` defaults to false. */
  datatype Notification = Notification(
    id: Id,
    user: Id,
    kind: NotificationType,
    message: string,
    sender: Option<Id>,
    channelId: Option<string>,
    isRead: bool,
    messagePreview: Option<string>,
    createdAt: int)

  /** A notification as the schema creates it when only the required fields and the optional
      references are given. */
  function NewNotification(id: Id, user: Id, kind: NotificationType, message: string,
                           sender: Option<Id>, channelId: Option<string>,
                           messagePreview: Option<string>, createdAt: int): (n: Notification)
    ensures !n.isRead && n.user == user && n.kind == kind && n.message == message
  {
    Notification(id, user, kind, message, sender, channelId, false, messagePreview, createdAt)
  }
}
