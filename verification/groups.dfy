/** The group controller: group membership, creator-only updates and deletes, and the events
    embedded in each group with their RSVP lists. Every handler that writes ends in a `save`, which
    runs the schema validators over the whole document; a document they refuse answers 500. */
module Groups {
  import opened Wrappers
  import opened Text
  import opened Seqs
  import opened UserModel
  import opened GroupModel

  const NameLanguageRequiredMsg := "Name and language are required"
  const AlreadyMemberMsg := "You are already a member of this group"
  const CreatorCannotLeaveMsg := "Group creator cannot leave the group. Delete the group instead."
  const NotMemberMsg := "You are not a member of this group"
  const OnlyCreatorUpdateMsg := "Only the group creator can update the group"
  const OnlyCreatorDeleteMsg := "Only the group creator can delete the group"
  const TitleDateRequiredMsg := "Title and date are required"
  const MembersOnlyEventsMsg := "You must be a member of the group to create events"
  const EventNotFoundMsg := "Event not found"
  const AlreadyAttendingMsg := "You are already attending this event"
  const NotAttendingMsg := "You are not attending this event"
  const OnlyOrganizerDeleteMsg := "Only the event organizer can delete the event"

  /** `group.save()`: the validators accept the document, or the handler answers 500. */
  function Save(groups: map<Id, Group>, gid: Id, g: Group): (r: Result<map<Id, Group>>)
    ensures r.Ok? <==> ValidGroup(g)
    ensures r.Ok? ==> r.value.Keys == groups.Keys + {gid} && r.value[gid] == g
                      && forall h :: h in groups && h != gid ==> r.value[h] == groups[h]
    ensures r.Err? ==> r == Err(InternalError, InternalErrorMsg)
  {
    if ValidGroup(g) then Ok(groups[gid := g]) else Err(InternalError, InternalErrorMsg)
  }

  /** `text?.trim() || ""` for an optional text field. */
  function TrimOrEmpty(s: Option<string>): (r: string)
    ensures s.None? ==> r == ""
    ensures s.Some? ==> r == Trim(s.value)
  {
    match s
    case None => ""
    case Some(t) => Trim(t)
  }

  // ---------------------------------------------------------------------------------------------
  // Groups

  /** The group `createGroup` builds. The chat channel id is set only when the chat provider
      accepted the channel; otherwise the schema default `""` stays. */
  function NewGroup(me: Id, name: string, description: Option<string>, language: string,
                    coverImage: Option<string>, groupId: Id, now: int, providerOk: bool): (g: Group)
    ensures g.name == Trim(name) && g.language == language && g.creator == me
    ensures g.description == TrimOrEmpty(description)
    ensures g.coverImage == OrElse(coverImage, "")
    ensures g.members == [me] && g.events == []
    ensures g.streamChannelId == (if providerOk then GroupChannelId(groupId) else "")
  {
    Group(Trim(name), TrimOrEmpty(description), language, OrElse(coverImage, ""), me, [me], [],
          if providerOk then GroupChannelId(groupId) else "", now)
  }

  /** createGroup. A name that is blank after trimming passes the presence check but fails the
      schema's `required`, which answers 500. */
  function CreateGroup(groups: map<Id, Group>, me: Id, name: Option<string>, description: Option<string>,
                       language: Option<string>, coverImage: Option<string>, groupId: Id, now: int,
                       providerOk: bool): (r: Result<map<Id, Group>>)
    ensures !Present(name) || !Present(language) ==> r == Err(BadRequest, NameLanguageRequiredMsg)
    ensures Present(name) && Present(language) && AllSpace(name.value) ==> r == Err(InternalError, InternalErrorMsg)
    ensures r.Ok? <==> Present(name) && Present(language) && !AllSpace(name.value)
    ensures r.Ok? ==>
              && r.value.Keys == groups.Keys + {groupId}
              && (forall h :: h in groups && h != groupId ==> r.value[h] == groups[h])
              && var g := r.value[groupId];
              && g.creator == me && g.members == [me] && g.events == []
              && g.name == Trim(name.value) && g.name != "" && g.language == language.value
              && g.description == TrimOrEmpty(description)
              && (providerOk ==> g.streamChannelId == GroupChannelId(groupId))
  {
    if !Present(name) || !Present(language) then Err(BadRequest, NameLanguageRequiredMsg)
    else Save(groups, groupId, NewGroup(me, name.value, description, language.value, coverImage, groupId, now, providerOk))
  }

  /** joinGroup: a non-member is appended to the members; nothing else changes. */
  function JoinGroup(groups: map<Id, Group>, me: Id, gid: Id): (r: Result<map<Id, Group>>)
    ensures gid !in groups ==> r == Err(NotFound, GroupNotFoundMsg)
    ensures gid in groups && me in groups[gid].members ==> r == Err(BadRequest, AlreadyMemberMsg)
    ensures gid in groups && me !in groups[gid].members && ValidGroup(groups[gid]) ==> r.Ok?
    ensures r.Ok? ==> gid in groups && me !in groups[gid].members
    ensures r.Ok? ==> r.value == groups[gid := groups[gid].(members := groups[gid].members + [me])]
  {
    if gid !in groups then Err(NotFound, GroupNotFoundMsg)
    else if me in groups[gid].members then Err(BadRequest, AlreadyMemberMsg)
    else Save(groups, gid, groups[gid].(members := groups[gid].members + [me]))
  }

  /** leaveGroup: the creator may not leave (checked before membership); anyone else who is a member
      is filtered out of the members, the others keeping their order. */
  function LeaveGroup(groups: map<Id, Group>, me: Id, gid: Id): (r: Result<map<Id, Group>>)
    ensures gid !in groups ==> r == Err(NotFound, GroupNotFoundMsg)
    ensures gid in groups && groups[gid].creator == me ==> r == Err(BadRequest, CreatorCannotLeaveMsg)
    ensures gid in groups && groups[gid].creator != me && me !in groups[gid].members ==>
              r == Err(BadRequest, NotMemberMsg)
    ensures gid in groups && groups[gid].creator != me && me in groups[gid].members && ValidGroup(groups[gid]) ==> r.Ok?
    ensures r.Ok? ==>
              && gid in groups && groups[gid].creator != me && me in groups[gid].members
              && r.value.Keys == groups.Keys
              && (forall h :: h in groups && h != gid ==> r.value[h] == groups[h])
              && r.value[gid].(members := groups[gid].members) == groups[gid]
              && me !in r.value[gid].members
              && (forall m :: m in r.value[gid].members <==> m in groups[gid].members && m != me)
              && IsSubsequence(r.value[gid].members, groups[gid].members)
  {
    if gid !in groups then Err(NotFound, GroupNotFoundMsg)
    else if groups[gid].creator == me then Err(BadRequest, CreatorCannotLeaveMsg)
    else if me !in groups[gid].members then Err(BadRequest, NotMemberMsg)
    else Save(groups, gid, groups[gid].(members := RemoveAll(groups[gid].members, me)))
  }

  /** The body of an update; an absent key is `None`. */
  datatype GroupUpdate = GroupUpdate(
    name: Option<string>,
    description: Option<string>,
    language: Option<string>,
    coverImage: Option<string>)

  /** The fields an update writes: name (trimmed) and language only when truthy, description
      (trimmed) and cover image whenever the key is present. */
  function ApplyGroupUpdate(g: Group, upd: GroupUpdate): (r: Group)
    ensures r.name == (if Present(upd.name) then Trim(upd.name.value) else g.name)
    ensures r.language == (if Present(upd.language) then upd.language.value else g.language)
    ensures r.description == (if upd.description.Some? then Trim(upd.description.value) else g.description)
    ensures r.coverImage == (if upd.coverImage.Some? then upd.coverImage.value else g.coverImage)
    ensures r.(name := g.name, description := g.description, language := g.language, coverImage := g.coverImage) == g
  {
    g.(name := if Present(upd.name) then Trim(upd.name.value) else g.name,
       description := if upd.description.Some? then Trim(upd.description.value) else g.description,
       language := OrElse(upd.language, g.language),
       coverImage := if upd.coverImage.Some? then upd.coverImage.value else g.coverImage)
  }

  /** updateGroup: creator only. A name that trims to blank fails validation (500). */
  function UpdateGroup(groups: map<Id, Group>, me: Id, gid: Id, upd: GroupUpdate): (r: Result<map<Id, Group>>)
    ensures gid !in groups ==> r == Err(NotFound, GroupNotFoundMsg)
    ensures gid in groups && groups[gid].creator != me ==> r == Err(Forbidden, OnlyCreatorUpdateMsg)
    ensures gid in groups && groups[gid].creator == me && ValidGroup(groups[gid]) ==>
              (r.Ok? <==> !(Present(upd.name) && AllSpace(upd.name.value)))
    ensures r.Ok? ==> gid in groups && groups[gid].creator == me
                      && r.value == groups[gid := ApplyGroupUpdate(groups[gid], upd)]
  {
    if gid !in groups then Err(NotFound, GroupNotFoundMsg)
    else if groups[gid].creator != me then Err(Forbidden, OnlyCreatorUpdateMsg)
    else Save(groups, gid, ApplyGroupUpdate(groups[gid], upd))
  }

  /** deleteGroup: creator only; the group goes, and its embedded events with it. */
  function DeleteGroup(groups: map<Id, Group>, me: Id, gid: Id): (r: Result<map<Id, Group>>)
    ensures gid !in groups ==> r == Err(NotFound, GroupNotFoundMsg)
    ensures gid in groups && groups[gid].creator != me ==> r == Err(Forbidden, OnlyCreatorDeleteMsg)
    ensures r.Ok? <==> gid in groups && groups[gid].creator == me
    ensures r.Ok? ==> r.value.Keys == groups.Keys - {gid} && forall h :: h in r.value ==> r.value[h] == groups[h]
  {
    if gid !in groups then Err(NotFound, GroupNotFoundMsg)
    else if groups[gid].creator != me then Err(Forbidden, OnlyCreatorDeleteMsg)
    else Ok(groups - {gid})
  }

  /** ensureGroupStreamChannel's id derivation: a group without a channel gets `group-<id>` once the
      provider has created it; a group that has one keeps it. */
  function EnsureChannel(g: Group, groupId: Id, providerOk: bool): (r: Group)
    ensures g.streamChannelId != "" ==> r == g
    ensures g.streamChannelId == "" && providerOk ==> r == g.(streamChannelId := GroupChannelId(groupId))
    ensures g.streamChannelId == "" && !providerOk ==> r == g
  {
    if g.streamChannelId != "" then g
    else if providerOk then g.(streamChannelId := GroupChannelId(groupId))
    else g
  }

  /** Once a channel is set it is never replaced, whatever the provider does later. */
  lemma EnsureChannelIdempotent(g: Group, groupId: Id, ok1: bool, ok2: bool)
    ensures EnsureChannel(EnsureChannel(g, groupId, ok1), groupId, ok2) == EnsureChannel(g, groupId, ok1 || ok2)
  {
  }

  // ---------------------------------------------------------------------------------------------
  // Events

  /** The event `createEvent` appends: trimmed title, trimmed-or-empty description and location,
      and the organizer as the only attendee. */
  function NewEvent(me: Id, title: string, description: Option<string>, date: int, location: Option<string>,
                    eventId: Id, now: int): (e: Event)
    ensures e.organizer == me && e.attendees == [me] && e.title == Trim(title) && e.date == date
    ensures e.description == TrimOrEmpty(description) && e.location == TrimOrEmpty(location)
  {
    Event(eventId, Trim(title), TrimOrEmpty(description), date, TrimOrEmpty(location), me, [me], Some(now))
  }

  /** The `date` field of an event body as the handler sees it: missing or falsy (`!date` holds:
      absent, null, `""`, `0`), truthy but unreadable by `new Date(date)`, or a date. Which raw
      values fall in which case is JavaScript's truthiness and `Date` parsing, left to the caller. */
  datatype DateInput = NoDate | InvalidDate | DateAt(time: int)

  /** createEvent: 400 unless title and date are truthy, then 404, then 403. A date `new Date`
      cannot read is stored as an invalid date, which the save refuses with 500. */
  function CreateEvent(groups: map<Id, Group>, me: Id, gid: Id, title: Option<string>, description: Option<string>,
                       date: DateInput, location: Option<string>, eventId: Id, now: int): (r: Result<map<Id, Group>>)
    ensures !Present(title) || date.NoDate? ==> r == Err(BadRequest, TitleDateRequiredMsg)
    ensures Present(title) && !date.NoDate? && gid !in groups ==> r == Err(NotFound, GroupNotFoundMsg)
    ensures Present(title) && !date.NoDate? && gid in groups && me !in groups[gid].members ==>
              r == Err(Forbidden, MembersOnlyEventsMsg)
    ensures Present(title) && date.InvalidDate? && gid in groups && me in groups[gid].members ==>
              r == Err(InternalError, InternalErrorMsg)
    ensures Present(title) && date.DateAt? && gid in groups && me in groups[gid].members && ValidGroup(groups[gid]) ==>
              (r.Ok? <==> !AllSpace(title.value))
    ensures r.Ok? ==>
              && gid in groups && me in groups[gid].members && date.DateAt?
              && r.value.Keys == groups.Keys
              && (forall h :: h in groups && h != gid ==> r.value[h] == groups[h])
              && r.value[gid].(events := groups[gid].events) == groups[gid]
              && |r.value[gid].events| == |groups[gid].events| + 1
              && r.value[gid].events[..|groups[gid].events|] == groups[gid].events
              && var e := r.value[gid].events[|groups[gid].events|];
                 e.organizer == me && e.attendees == [me] && e.date == date.time && e.title == Trim(title.value)
  {
    if !Present(title) || date.NoDate? then Err(BadRequest, TitleDateRequiredMsg)
    else if gid !in groups then Err(NotFound, GroupNotFoundMsg)
    else if me !in groups[gid].members then Err(Forbidden, MembersOnlyEventsMsg)
    else if date.InvalidDate? then Err(InternalError, InternalErrorMsg)
    else
      var g := groups[gid];
      var e := NewEvent(me, title.value, description, date.time, location, eventId, now);
      AppendEvent(g, e);
      Save(groups, gid, g.(events := g.events + [e]))
  }

  /** Appending an event keeps the earlier events, and a valid group stays valid exactly when the
      new event has a title. */
  lemma AppendEvent(g: Group, e: Event)
    ensures (g.events + [e])[..|g.events|] == g.events
    ensures ValidGroup(g) ==> (ValidGroup(g.(events := g.events + [e])) <==> e.title != "")
  {
    var g' := g.(events := g.events + [e]);
    assert g'.events[..|g.events|] == g.events;
    if ValidGroup(g) {
      assert forall i :: 0 <= i < |g.events| ==> g'.events[i] == g.events[i];
      assert g'.events[|g.events|] == e;
    }
  }

  /** The group and event lookup shared by the event handlers. */
  predicate EventExists(groups: map<Id, Group>, gid: Id, eventId: Id)
  {
    gid in groups && FindEvent(groups[gid].events, eventId).Some?
  }

  /** The event the handlers act on. */
  function TheEvent(groups: map<Id, Group>, gid: Id, eventId: Id): Event
    requires EventExists(groups, gid, eventId)
  {
    groups[gid].events[FindEvent(groups[gid].events, eventId).value]
  }

  /** Replace the located event's attendees, leaving every other field of the group alone. */
  function WithAttendees(groups: map<Id, Group>, gid: Id, eventId: Id, attendees: seq<Id>): (g: Group)
    requires EventExists(groups, gid, eventId)
    ensures var i := FindEvent(groups[gid].events, eventId).value;
            g == groups[gid].(events := groups[gid].events[i := groups[gid].events[i].(attendees := attendees)])
  {
    var i := FindEvent(groups[gid].events, eventId).value;
    groups[gid].(events := groups[gid].events[i := groups[gid].events[i].(attendees := attendees)])
  }

  /** Changing only an event's attendees neither makes nor breaks the group's validity. */
  lemma AttendeesKeepValid(groups: map<Id, Group>, gid: Id, eventId: Id, attendees: seq<Id>)
    requires EventExists(groups, gid, eventId)
    ensures ValidGroup(WithAttendees(groups, gid, eventId, attendees)) <==> ValidGroup(groups[gid])
  {
    var g := WithAttendees(groups, gid, eventId, attendees);
    var i := FindEvent(groups[gid].events, eventId).value;
    assert forall k :: 0 <= k < |g.events| ==> g.events[k].title == groups[gid].events[k].title by {
      forall k | 0 <= k < |g.events| ensures g.events[k].title == groups[gid].events[k].title {
        if k != i {
          assert g.events[k] == groups[gid].events[k];
        }
      }
    }
  }

  /** joinEvent: anyone not yet attending is appended; membership of the group is not checked. */
  function JoinEvent(groups: map<Id, Group>, me: Id, gid: Id, eventId: Id): (r: Result<map<Id, Group>>)
    ensures gid !in groups ==> r == Err(NotFound, GroupNotFoundMsg)
    ensures gid in groups && !EventExists(groups, gid, eventId) ==> r == Err(NotFound, EventNotFoundMsg)
    ensures EventExists(groups, gid, eventId) && me in TheEvent(groups, gid, eventId).attendees ==>
              r == Err(BadRequest, AlreadyAttendingMsg)
    ensures (EventExists(groups, gid, eventId) && me !in TheEvent(groups, gid, eventId).attendees
             && ValidGroup(groups[gid])) ==> r.Ok?
    ensures r.Ok? ==>
              && EventExists(groups, gid, eventId) && me !in TheEvent(groups, gid, eventId).attendees
              && r.value == groups[gid := WithAttendees(groups, gid, eventId, TheEvent(groups, gid, eventId).attendees + [me])]
  {
    if gid !in groups then Err(NotFound, GroupNotFoundMsg)
    else if !EventExists(groups, gid, eventId) then Err(NotFound, EventNotFoundMsg)
    else
      var e := TheEvent(groups, gid, eventId);
      if me in e.attendees then Err(BadRequest, AlreadyAttendingMsg)
      else
        AttendeesKeepValid(groups, gid, eventId, e.attendees + [me]);
        Save(groups, gid, WithAttendees(groups, gid, eventId, e.attendees + [me]))
  }

  /** leaveEvent: an attendee is filtered out. Nothing stops the organizer from leaving. */
  function LeaveEvent(groups: map<Id, Group>, me: Id, gid: Id, eventId: Id): (r: Result<map<Id, Group>>)
    ensures gid !in groups ==> r == Err(NotFound, GroupNotFoundMsg)
    ensures gid in groups && !EventExists(groups, gid, eventId) ==> r == Err(NotFound, EventNotFoundMsg)
    ensures EventExists(groups, gid, eventId) && me !in TheEvent(groups, gid, eventId).attendees ==>
              r == Err(BadRequest, NotAttendingMsg)
    ensures (EventExists(groups, gid, eventId) && me in TheEvent(groups, gid, eventId).attendees
             && ValidGroup(groups[gid])) ==> r.Ok?
    ensures r.Ok? ==>
              && EventExists(groups, gid, eventId) && me in TheEvent(groups, gid, eventId).attendees
              && r.value == groups[gid := WithAttendees(groups, gid, eventId, RemoveAll(TheEvent(groups, gid, eventId).attendees, me))]
  {
    if gid !in groups then Err(NotFound, GroupNotFoundMsg)
    else if !EventExists(groups, gid, eventId) then Err(NotFound, EventNotFoundMsg)
    else
      var e := TheEvent(groups, gid, eventId);
      if me !in e.attendees then Err(BadRequest, NotAttendingMsg)
      else
        AttendeesKeepValid(groups, gid, eventId, RemoveAll(e.attendees, me));
        Save(groups, gid, WithAttendees(groups, gid, eventId, RemoveAll(e.attendees, me)))
  }

  /** `events.pull(eventId)`: every event with that id goes, the others stay in order. */
  function PullEvent(events: seq<Event>, eventId: Id): (r: seq<Event>)
    ensures forall e :: e in r <==> e in events && e.id != eventId
    ensures IsSubsequence(r, events)
  {
    var p := (e: Event) => e.id != eventId;
    FilterIsSubsequence(events, p);
    Filter(events, p)
  }

  /** deleteEvent: organizer only; exactly the events with that id are removed. */
  function DeleteEvent(groups: map<Id, Group>, me: Id, gid: Id, eventId: Id): (r: Result<map<Id, Group>>)
    ensures gid !in groups ==> r == Err(NotFound, GroupNotFoundMsg)
    ensures gid in groups && !EventExists(groups, gid, eventId) ==> r == Err(NotFound, EventNotFoundMsg)
    ensures EventExists(groups, gid, eventId) && TheEvent(groups, gid, eventId).organizer != me ==>
              r == Err(Forbidden, OnlyOrganizerDeleteMsg)
    ensures (EventExists(groups, gid, eventId) && TheEvent(groups, gid, eventId).organizer == me
             && ValidGroup(groups[gid])) ==> r.Ok?
    ensures r.Ok? ==>
              && EventExists(groups, gid, eventId) && TheEvent(groups, gid, eventId).organizer == me
              && r.value.Keys == groups.Keys
              && (forall h :: h in groups && h != gid ==> r.value[h] == groups[h])
              && r.value[gid].(events := groups[gid].events) == groups[gid]
              && (forall e :: e in r.value[gid].events <==> e in groups[gid].events && e.id != eventId)
              && IsSubsequence(r.value[gid].events, groups[gid].events)
  {
    if gid !in groups then Err(NotFound, GroupNotFoundMsg)
    else if !EventExists(groups, gid, eventId) then Err(NotFound, EventNotFoundMsg)
    else if TheEvent(groups, gid, eventId).organizer != me then Err(Forbidden, OnlyOrganizerDeleteMsg)
    else
      var g := groups[gid];
      var g' := g.(events := PullEvent(g.events, eventId));
      assert ValidGroup(g) ==> ValidGroup(g') by {
        if ValidGroup(g) {
          forall k | 0 <= k < |g'.events| ensures g'.events[k].title != "" {
            assert g'.events[k] in g.events;
          }
        }
      }
      Save(groups, gid, g')
  }

  // ---------------------------------------------------------------------------------------------
  // Invariants

  /** Every group's creator is one of its members. */
  ghost predicate CreatorIsMember(groups: map<Id, Group>)
  {
    forall gid :: gid in groups ==> groups[gid].creator in groups[gid].members
  }

  ghost predicate AllValid(groups: map<Id, Group>)
  {
    forall gid :: gid in groups ==> ValidGroup(groups[gid])
  }

  /** The organizer of an event attends it. */
  predicate OrganizerAttends(e: Event)
  {
    e.organizer in e.attendees
  }

  /** A request to the group controller, as the route and body deliver it. */
  datatype GroupRequest =
    | CreateGroupReq(name: Option<string>, description: Option<string>, language: Option<string>,
                     coverImage: Option<string>, newId: Id, now: int, providerOk: bool)
    | JoinGroupReq(gid: Id)
    | LeaveGroupReq(gid: Id)
    | UpdateGroupReq(gid: Id, upd: GroupUpdate)
    | DeleteGroupReq(gid: Id)
    | CreateEventReq(gid: Id, title: Option<string>, description: Option<string>, date: DateInput,
                     location: Option<string>, newId: Id, now: int)
    | JoinEventReq(gid: Id, eventId: Id)
    | LeaveEventReq(gid: Id, eventId: Id)
    | DeleteEventReq(gid: Id, eventId: Id)

  /** Dispatch of one request by `me` to its handler. */
  function Handle(groups: map<Id, Group>, me: Id, req: GroupRequest): Result<map<Id, Group>>
  {
    match req
    case CreateGroupReq(name, description, language, coverImage, newId, now, providerOk) =>
      CreateGroup(groups, me, name, description, language, coverImage, newId, now, providerOk)
    case JoinGroupReq(gid) => JoinGroup(groups, me, gid)
    case LeaveGroupReq(gid) => LeaveGroup(groups, me, gid)
    case UpdateGroupReq(gid, upd) => UpdateGroup(groups, me, gid, upd)
    case DeleteGroupReq(gid) => DeleteGroup(groups, me, gid)
    case CreateEventReq(gid, title, description, date, location, newId, now) =>
      CreateEvent(groups, me, gid, title, description, date, location, newId, now)
    case JoinEventReq(gid, eventId) => JoinEvent(groups, me, gid, eventId)
    case LeaveEventReq(gid, eventId) => LeaveEvent(groups, me, gid, eventId)
    case DeleteEventReq(gid, eventId) => DeleteEvent(groups, me, gid, eventId)
  }

  /** Storing a valid document whose creator is a member keeps both invariants. */
  lemma SaveKeepsInvariants(groups: map<Id, Group>, gid: Id, g: Group)
    requires CreatorIsMember(groups) && AllValid(groups)
    requires g.creator in g.members
    ensures var r := Save(groups, gid, g);
            r.Ok? ==> CreatorIsMember(r.value) && AllValid(r.value)
  {
  }

  /** No group handler ever separates a creator from their group, and every document they store
      passes validation. */
  lemma HandlePreservesInvariants(groups: map<Id, Group>, me: Id, req: GroupRequest)
    requires CreatorIsMember(groups) && AllValid(groups)
    ensures var r := Handle(groups, me, req);
            r.Ok? ==> CreatorIsMember(r.value) && AllValid(r.value)
  {
    var r := Handle(groups, me, req);
    if r.Ok? {
      match req
      case CreateGroupReq(name, description, language, coverImage, newId, now, providerOk) =>
        SaveKeepsInvariants(groups, newId,
          NewGroup(me, name.value, description, language.value, coverImage, newId, now, providerOk));
      case JoinGroupReq(gid) =>
        SaveKeepsInvariants(groups, gid, groups[gid].(members := groups[gid].members + [me]));
      case LeaveGroupReq(gid) =>
        SaveKeepsInvariants(groups, gid, groups[gid].(members := RemoveAll(groups[gid].members, me)));
      case UpdateGroupReq(gid, upd) =>
        SaveKeepsInvariants(groups, gid, ApplyGroupUpdate(groups[gid], upd));
      case DeleteGroupReq(gid) =>
      case CreateEventReq(gid, title, description, date, location, newId, now) =>
        var g := groups[gid];
        SaveKeepsInvariants(groups, gid,
          g.(events := g.events + [NewEvent(me, title.value, description, date.time, location, newId, now)]));
      case JoinEventReq(gid, eventId) =>
        var e := TheEvent(groups, gid, eventId);
        SaveKeepsInvariants(groups, gid, WithAttendees(groups, gid, eventId, e.attendees + [me]));
      case LeaveEventReq(gid, eventId) =>
        var e := TheEvent(groups, gid, eventId);
        SaveKeepsInvariants(groups, gid, WithAttendees(groups, gid, eventId, RemoveAll(e.attendees, me)));
      case DeleteEventReq(gid, eventId) =>
        SaveKeepsInvariants(groups, gid, groups[gid].(events := PullEvent(groups[gid].events, eventId)));
    }
  }

  /** The organizer attends the event `createEvent` appends. */
  lemma CreatedEventHasOrganizer(groups: map<Id, Group>, me: Id, gid: Id, title: Option<string>,
                                 description: Option<string>, date: DateInput, location: Option<string>,
                                 eventId: Id, now: int)
    requires CreateEvent(groups, me, gid, title, description, date, location, eventId, now).Ok?
    ensures var g := CreateEvent(groups, me, gid, title, description, date, location, eventId, now).value[gid];
            OrganizerAttends(g.events[|g.events| - 1])
  {
  }

  /** Organizer attendance is not kept: the organizer may leave their own event. */
  lemma LeaveEventDropsOrganizer()
    ensures var e := Event("e", "Meetup", "", 1, "", "u", ["u"], None);
            var groups := map["g" := Group("G", "", "en", "", "u", ["u"], [e], "", 0)];
            && OrganizerAttends(e)
            && LeaveEvent(groups, "u", "g", "e").Ok?
            && !OrganizerAttends(LeaveEvent(groups, "u", "g", "e").value["g"].events[0])
  {
    var e := Event("e", "Meetup", "", 1, "", "u", ["u"], None);
    var groups := map["g" := Group("G", "", "en", "", "u", ["u"], [e], "", 0)];
    assert FindEvent(groups["g"].events, "e") == Some(0);
    assert ValidGroup(groups["g"]);
    assert RemoveAll(["u"], "u") == [];
  }
}
