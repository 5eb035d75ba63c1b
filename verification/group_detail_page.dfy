/** The group page: the event-form guard, the event list order, which button the header and each
    event offer, and the member count it displays. Every button is set against the backend handler
    it calls. */
module GroupDetailPage {
  import opened Wrappers
  import opened Seqs
  import opened UserModel
  import opened GroupModel
  import Groups
  import Admin

  // ---------------------------------------------------------------------------------------------
  // What the backend sends

  /** getGroupById's answer: the group plus the caller's flags and the member count, each of which
      the page reads as possibly absent. */
  datatype GroupView = GroupView(group: Group, isMember: Option<bool>, isCreator: Option<bool>, memberCount: Option<int>)

  /** The flags getGroupById computes for the caller. */
  function ViewOf(g: Group, me: Id): (v: GroupView)
    ensures v.group == g
    ensures v.isMember == Some(me in g.members) && v.isCreator == Some(g.creator == me)
    ensures v.memberCount == Some(|g.members|)
  {
    GroupView(g, Some(me in g.members), Some(g.creator == me), Some(|g.members|))
  }

  /** `flag || false`. */
  function Flag(b: Option<bool>): (r: bool)
    ensures r <==> b == Some(true)
  {
    b.Some? && b.value
  }

  // ---------------------------------------------------------------------------------------------
  // The header

  datatype HeaderAction = DeleteGroupButton | LeaveGroupButton | JoinGroupButton

  /** A member who created the group may delete it, any other member may leave it, and everyone
      else may join it. */
  function Header(v: GroupView): (a: HeaderAction)
    ensures a == DeleteGroupButton <==> Flag(v.isMember) && Flag(v.isCreator)
    ensures a == LeaveGroupButton <==> Flag(v.isMember) && !Flag(v.isCreator)
    ensures a == JoinGroupButton <==> !Flag(v.isMember)
  {
    if Flag(v.isMember) then (if Flag(v.isCreator) then DeleteGroupButton else LeaveGroupButton)
    else JoinGroupButton
  }

  /** For a valid group whose creator is a member, the header offers exactly the one group action
      the backend would carry out for the caller. */
  lemma HeaderMatchesBackend(groups: map<Id, Group>, gid: Id, me: Id)
    requires gid in groups && ValidGroup(groups[gid]) && groups[gid].creator in groups[gid].members
    ensures var a := Header(ViewOf(groups[gid], me));
            && (a == DeleteGroupButton <==> Groups.DeleteGroup(groups, me, gid).Ok?)
            && (a == LeaveGroupButton <==> Groups.LeaveGroup(groups, me, gid).Ok?)
            && (a == JoinGroupButton <==> Groups.JoinGroup(groups, me, gid).Ok?)
  {
  }

  // ---------------------------------------------------------------------------------------------
  // Events

  /** The event form's guard: both fields filled in. */
  predicate CanCreateEvent(title: string, date: string)
  {
    title != "" && date != ""
  }

  /** The message the page shows when the guard fails. */
  const MissingFieldsToast := "Title and date are required"

  /** The page's guard is the backend's own first check: with `parsedDate` the date field as the
      backend reads it (falsy exactly when the field is empty, as the form sends a string), the form
      is submitted exactly when the backend would not refuse it for a missing field, and a refused
      form gets the backend's own message. */
  lemma EventGuardMatchesBackend(groups: map<Id, Group>, me: Id, gid: Id, title: string, date: string,
                                 parsedDate: Groups.DateInput, description: Option<string>, location: Option<string>,
                                 eventId: Id, now: int)
    requires date == "" <==> parsedDate.NoDate?
    ensures var r := Groups.CreateEvent(groups, me, gid, Some(title), description, parsedDate, location, eventId, now);
            && (CanCreateEvent(title, date) <==> r != Err(BadRequest, Groups.TitleDateRequiredMsg))
            && (!CanCreateEvent(title, date) ==> r == Err(BadRequest, MissingFieldsToast))
  {
  }

  function NegDate(e: Event): int
  {
    -e.date
  }

  /** `[...events].sort((a, b) => date(a) - date(b))`, or nothing when the group has no events
      array: a reordering of the events, earliest first. The group itself is left as it was. */
  function SortedEvents(events: Option<seq<Event>>): (r: seq<Event>)
    ensures events.None? ==> r == []
    ensures events.Some? ==> multiset(r) == multiset(events.value)
    ensures forall i, j :: 0 <= i < j < |r| ==> r[i].date <= r[j].date
  {
    if events.None? then []
    else
      var r := SortDesc(events.value, NegDate);
      assert forall i, j :: 0 <= i < j < |r| ==> NegDate(r[i]) >= NegDate(r[j]);
      r
  }

  /** `new Date(event.date) < new Date()`. */
  predicate IsPast(date: int, now: int)
  {
    date < now
  }

  /** The page and the dashboard split time differently: an event dated exactly now is past for
      the dashboard but not yet past for the page; at every other time they agree. */
  lemma PastDiffersFromDashboardOnlyAtNow(e: Admin.RecentEvent, now: int)
    ensures Admin.PastAt(now)(e) <==> IsPast(e.event.date, now) || e.event.date == now
    ensures Admin.UpcomingAt(now)(e) <==> !IsPast(e.event.date, now) && e.event.date != now
  {
  }

  /** A user reference as the page may receive it: a raw id, or a populated document. */
  datatype Ref = RawRef(id: Id) | DocRef(id: Id)

  /** `ref._id === me || ref === me`. */
  predicate RefersTo(r: Ref, me: Id)
  {
    match r
    case RawRef(id) => id == me
    case DocRef(id) => id == me
  }

  function IdsOf(refs: seq<Ref>): (ids: seq<Id>)
    ensures |ids| == |refs| && forall i :: 0 <= i < |refs| ==> ids[i] == refs[i].id
  {
    seq(|refs|, i requires 0 <= i < |refs| => refs[i].id)
  }

  /** `attendees?.some(...)`: some reference, raw or populated, is the caller. */
  predicate IsAttending(refs: seq<Ref>, me: Id)
  {
    exists i :: 0 <= i < |refs| && RefersTo(refs[i], me)
  }

  /** Whichever form the references come in, attendance is membership of the caller's id. */
  lemma AttendingIffListed(refs: seq<Ref>, me: Id)
    ensures IsAttending(refs, me) <==> me in IdsOf(refs)
  {
    var ids := IdsOf(refs);
    if me in ids {
      var i :| 0 <= i < |ids| && ids[i] == me;
      assert RefersTo(refs[i], me);
    }
  }

  datatype EventAction = NoEventAction | DeleteEventButton | LeaveEventButton | JoinEventButton

  /** The per-event button: none unless the caller is a member and the event is not past; then the
      organizer may delete it, an attendee may leave it, and anyone else may join it. */
  function EventButton(isMember: bool, past: bool, organizer: Ref, attendees: seq<Ref>, me: Id): (a: EventAction)
    ensures a == NoEventAction <==> !isMember || past
    ensures a == DeleteEventButton <==> isMember && !past && RefersTo(organizer, me)
    ensures a == LeaveEventButton <==> isMember && !past && !RefersTo(organizer, me) && IsAttending(attendees, me)
    ensures a == JoinEventButton <==> isMember && !past && !RefersTo(organizer, me) && !IsAttending(attendees, me)
  {
    if !isMember || past then NoEventAction
    else if RefersTo(organizer, me) then DeleteEventButton
    else if IsAttending(attendees, me) then LeaveEventButton
    else JoinEventButton
  }

  /** The button the page draws for an event of a valid group, from the group's view and any mix
      of raw and populated references to the event's users. */
  function ButtonFor(groups: map<Id, Group>, gid: Id, eventId: Id, me: Id, now: int,
                     organizer: Ref, attendees: seq<Ref>): EventAction
    requires Groups.EventExists(groups, gid, eventId)
  {
    var e := Groups.TheEvent(groups, gid, eventId);
    EventButton(Flag(ViewOf(groups[gid], me).isMember), IsPast(e.date, now), organizer, attendees, me)
  }

  /** Every button the page offers on an event is one the backend carries out. */
  lemma EventButtonMatchesBackend(groups: map<Id, Group>, gid: Id, eventId: Id, me: Id, now: int,
                                  organizer: Ref, attendees: seq<Ref>)
    requires Groups.EventExists(groups, gid, eventId) && ValidGroup(groups[gid])
    requires organizer.id == Groups.TheEvent(groups, gid, eventId).organizer
    requires IdsOf(attendees) == Groups.TheEvent(groups, gid, eventId).attendees
    ensures var a := ButtonFor(groups, gid, eventId, me, now, organizer, attendees);
            && (a == DeleteEventButton ==> Groups.DeleteEvent(groups, me, gid, eventId).Ok?)
            && (a == LeaveEventButton ==> Groups.LeaveEvent(groups, me, gid, eventId).Ok?)
            && (a == JoinEventButton ==> Groups.JoinEvent(groups, me, gid, eventId).Ok?)
  {
    AttendingIffListed(attendees, me);
  }

  /** The page is stricter than the backend: a non-member who does not attend gets no button, yet
      the backend would let them join the event. */
  lemma NonMemberCouldStillJoin(groups: map<Id, Group>, gid: Id, eventId: Id, me: Id, now: int,
                                organizer: Ref, attendees: seq<Ref>)
    requires Groups.EventExists(groups, gid, eventId) && ValidGroup(groups[gid])
    requires me !in groups[gid].members && me !in Groups.TheEvent(groups, gid, eventId).attendees
    ensures ButtonFor(groups, gid, eventId, me, now, organizer, attendees) == NoEventAction
    ensures Groups.JoinEvent(groups, me, gid, eventId).Ok?
  {
  }

  // ---------------------------------------------------------------------------------------------
  // The member count

  /** `memberCount || members?.length || 0`. */
  function MemberCountShown(memberCount: Option<int>, members: Option<seq<Id>>): (n: int)
    ensures memberCount.Some? && memberCount.value != 0 ==> n == memberCount.value
    ensures (memberCount.None? || memberCount.value == 0) && members.Some? ==> n == |members.value|
    ensures (memberCount.None? || memberCount.value == 0) && members.None? ==> n == 0
  {
    if memberCount.Some? && memberCount.value != 0 then memberCount.value
    else if members.Some? && |members.value| != 0 then |members.value|
    else 0
  }

  /** For the backend's answer, and for an answer without the count, the page shows the number of
      members. */
  lemma MemberCountIsMembers(g: Group, me: Id)
    ensures MemberCountShown(ViewOf(g, me).memberCount, Some(g.members)) == |g.members|
    ensures MemberCountShown(None, Some(g.members)) == |g.members|
  {
  }
}
