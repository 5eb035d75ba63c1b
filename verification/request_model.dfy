/** The FriendRequest record. Its schema file is not part of this model; the shape below is the
    one the controllers read and write: a directed pair, a status, and an update time. */
module RequestModel {
  import opened UserModel

  datatype RequestStatus = Pending | Accepted | Removed

  /** A request created without a status is pending, which is how the queries treat it. */
  datatype FriendRequest = FriendRequest(
    id: Id,
    sender: Id,
    recipient: Id,
    status: RequestStatus,
    updatedAt: int)

  /** The record links `a` and `b`, in either direction. */
  predicate Between(r: FriendRequest, a: Id, b: Id)
  {
    (r.sender == a && r.recipient == b) || (r.sender == b && r.recipient == a)
  }

  predicate Active(r: FriendRequest)
  {
    r.status == Pending || r.status == Accepted
  }
}
