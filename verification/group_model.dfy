/** The Group document and the Event sub-document embedded in its `events` array. */
module GroupModel {
  import opened Wrappers
  import opened UserModel

  /** An event. `createdAt` is the sub-document timestamp, absent on legacy events.
      `attendees` is a plain array: the schema does not tie it to the organizer. */
  datatype Event = Event(
    id: Id,
    title: string,
    description: string,
    date: int,
    location: string,
    organizer: Id,
    attendees: seq<Id>,
    createdAt: Option<int>)

  datatype Group = Group(
    name: string,
    description: string,
    language: string,
    coverImage: string,
    creator: Id,
    members: seq<Id>,
    events: seq<Event>,
    streamChannelId: string,
    createdAt: int)

  /** The schema's `required` validators: a Mongoose required string must not be empty. */
  predicate ValidGroup(g: Group)
  {
    g.name != "" && g.language != "" && forall i :: 0 <= i < |g.events| ==> g.events[i].title != ""
  }

  /** The external chat channel id derived from a group id. */
  function GroupChannelId(groupId: Id): (c: string)
    ensures |c| == |groupId| + 6 && c[6..] == groupId
  {
    "group-" + groupId
  }

  /** Index of the first event with the given id, as `group.events.id(eventId)` finds it. */
  function FindEvent(events: seq<Event>, eventId: Id): (r: Option<nat>)
    ensures r.Some? ==> r.value < |events| && events[r.value].id == eventId
    ensures r.None? <==> forall e :: e in events ==> e.id != eventId
  {
    if events == [] then None
    else if events[0].id == eventId then Some(0)
    else
      assert events == [events[0]] + events[1..];
      match FindEvent(events[1..], eventId)
      case None => None
      case Some(k) => Some(k + 1)
  }
}
