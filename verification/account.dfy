/** The self-service account handlers of the user controller: recommendations, the partial profile
    and settings updates, and the credential changes guarded by the current password. */
module Account {
  import opened Wrappers
  import opened Text
  import opened UserModel
  import opened RequestModel
  import opened Database
  import Friends

  // ---------------------------------------------------------------------------------------------
  // getRecommendedUsers

  /** The users offered to `me`: not `me`, not on the caller's friends list, and onboarded. The
      friends list is the one on the caller's session document. */
  function RecommendedUsers(users: map<Id, User>, me: Id, myFriends: seq<Id>): (r: set<Id>)
    ensures r <= users.Keys
    ensures me !in r
    ensures forall f :: f in myFriends ==> f !in r
    ensures forall u :: u in users && u != me && u !in myFriends && users[u].isOnboarded ==> u in r
    ensures forall u :: u in r ==> users[u].isOnboarded
  {
    set u | u in users && u != me && u !in myFriends && users[u].isOnboarded
  }

  /** Accepting a request takes the sender out of the recipient's recommendations for good. */
  lemma AcceptHidesFromRecommendations(st: Store, requestId: Id, me: Id, now: int)
    requires Friends.AcceptFriendRequest(st, requestId, me, now).Ok?
    requires me in st.users
    ensures var st' := Friends.AcceptFriendRequest(st, requestId, me, now).value;
            var q := st.requests[Friends.FindRequest(st.requests, requestId).value];
            q.sender !in RecommendedUsers(st'.users, me, st'.users[me].friends)
  {
    var st' := Friends.AcceptFriendRequest(st, requestId, me, now).value;
    var q := st.requests[Friends.FindRequest(st.requests, requestId).value];
    assert q.sender in st'.users[me].friends;
  }

  /** Removing a friend puts an onboarded former friend back among the caller's recommendations. */
  lemma RemoveRestoresRecommendation(st: Store, me: Id, friendId: Id, requestId: Id, now: int)
    requires Friends.RemoveFriend(st, me, friendId, requestId, now).Ok?
    requires st.users[friendId].isOnboarded
    ensures var st' := Friends.RemoveFriend(st, me, friendId, requestId, now).value;
            friendId in RecommendedUsers(st'.users, me, st'.users[me].friends)
  {
    var st' := Friends.RemoveFriend(st, me, friendId, requestId, now).value;
    assert friendId !in st'.users[me].friends;
    assert st'.users[friendId].isOnboarded;
  }

  // ---------------------------------------------------------------------------------------------
  // updateProfile

  /** The body of a profile update; an absent key is `None`. */
  datatype ProfileUpdate = ProfileUpdate(
    fullName: Option<string>,
    bio: Option<string>,
    nativeLanguage: Option<string>,
    learningLanguage: Option<string>,
    location: Option<string>,
    profilePic: Option<string>)

  /** The update document: name, languages and picture only when truthy (an empty string is
      skipped), bio and location whenever the key is present (an empty string clears them). */
  function ApplyProfile(u: User, upd: ProfileUpdate): (r: User)
    ensures r.fullName == (if Present(upd.fullName) then upd.fullName.value else u.fullName)
    ensures r.nativeLanguage == (if Present(upd.nativeLanguage) then upd.nativeLanguage.value else u.nativeLanguage)
    ensures r.learningLanguage == (if Present(upd.learningLanguage) then upd.learningLanguage.value else u.learningLanguage)
    ensures r.profilePic == (if Present(upd.profilePic) then upd.profilePic.value else u.profilePic)
    ensures r.bio == (if upd.bio.Some? then upd.bio.value else u.bio)
    ensures r.location == (if upd.location.Some? then upd.location.value else u.location)
    ensures r.(fullName := u.fullName, bio := u.bio, nativeLanguage := u.nativeLanguage,
               learningLanguage := u.learningLanguage, location := u.location, profilePic := u.profilePic) == u
  {
    u.(fullName := OrElse(upd.fullName, u.fullName),
       bio := match upd.bio case Some(b) => b case None => u.bio,
       nativeLanguage := OrElse(upd.nativeLanguage, u.nativeLanguage),
       learningLanguage := OrElse(upd.learningLanguage, u.learningLanguage),
       location := match upd.location case Some(l) => l case None => u.location,
       profilePic := OrElse(upd.profilePic, u.profilePic))
  }

  /** updateProfile: 404 for a missing caller; otherwise only the caller's document changes. The
      chat-provider profile sync that follows is best effort and not part of the result. */
  function UpdateProfile(users: map<Id, User>, me: Id, upd: ProfileUpdate): (r: Result<map<Id, User>>)
    ensures me !in users <==> r == Err(NotFound, UserNotFoundMsg)
    ensures r.Ok? ==> r.value.Keys == users.Keys && forall u :: u in users && u != me ==> r.value[u] == users[u]
    ensures r.Ok? ==> r.value[me] == ApplyProfile(users[me], upd)
  {
    if me !in users then Err(NotFound, UserNotFoundMsg) else Ok(users[me := ApplyProfile(users[me], upd)])
  }

  /** Sending the same profile update twice leaves the document as the first one did. */
  lemma ApplyProfileIdempotent(u: User, upd: ProfileUpdate)
    ensures ApplyProfile(ApplyProfile(u, upd), upd) == ApplyProfile(u, upd)
  {
  }

  // ---------------------------------------------------------------------------------------------
  // updateSettings

  /** One key of a settings section in the request body: absent, an explicit `null`, or a value. */
  datatype Patch<+T> = Keep | Clear | Put(value: T)

  datatype PrivacyBody = PrivacyBody(whoCanSendFriendRequests: Patch<Privacy>)

  datatype NotificationsBody = NotificationsBody(
    friendRequests: Patch<bool>,
    friendAcceptances: Patch<bool>,
    friendRemovals: Patch<bool>,
    messages: Patch<bool>)

  datatype LanguageBody = LanguageBody(preferredLanguage: Patch<string>)

  /** The body of a settings update: each section may be absent (or falsy); a present section
      carries only the keys the client sent. */
  datatype SettingsUpdate = SettingsUpdate(
    privacy: Option<PrivacyBody>,
    notifications: Option<NotificationsBody>,
    language: Option<LanguageBody>)

  /** What a stored key holds after `{ ...prev, ...upd }`: the old value when the body leaves the key
      out, a stored null when the body sends null, and the sent value otherwise. */
  predicate KeyMerged<T(==)>(r: Option<T>, prev: Option<T>, upd: Patch<T>)
  {
    match upd
    case Keep => r == prev
    case Clear => r == None
    case Put(v) => r == Some(v)
  }

  /** `{ ...prev, ...upd }` on one key. */
  function Overlay<T(==)>(prev: Option<T>, upd: Patch<T>): (r: Option<T>)
    ensures KeyMerged(r, prev, upd)
  {
    if upd.Put? then Some(upd.value) else if upd.Clear? then None else prev
  }

  function MergePrivacy(prev: PrivacySettings, upd: PrivacyBody): PrivacySettings
  {
    PrivacySettings(Overlay(prev.whoCanSendFriendRequests, upd.whoCanSendFriendRequests))
  }

  function MergeNotifications(prev: NotificationSettings, upd: NotificationsBody): NotificationSettings
  {
    NotificationSettings(
      Overlay(prev.friendRequests, upd.friendRequests),
      Overlay(prev.friendAcceptances, upd.friendAcceptances),
      Overlay(prev.friendRemovals, upd.friendRemovals),
      Overlay(prev.messages, upd.messages))
  }

  function MergeLanguage(prev: LanguageSettings, upd: LanguageBody): LanguageSettings
  {
    LanguageSettings(Overlay(prev.preferredLanguage, upd.preferredLanguage))
  }

  /** The shallow merge of each section that is present; absent sections stay as they were. */
  function MergeSettings(s: Settings, upd: SettingsUpdate): (r: Settings)
    ensures upd.privacy.None? ==> r.privacy == s.privacy
    ensures upd.notifications.None? ==> r.notifications == s.notifications
    ensures upd.language.None? ==> r.language == s.language
    ensures upd.privacy.Some? ==>
              KeyMerged(r.privacy.whoCanSendFriendRequests, s.privacy.whoCanSendFriendRequests,
                        upd.privacy.value.whoCanSendFriendRequests)
    ensures upd.notifications.Some? ==>
              var n := upd.notifications.value;
              && KeyMerged(r.notifications.friendRequests, s.notifications.friendRequests, n.friendRequests)
              && KeyMerged(r.notifications.friendAcceptances, s.notifications.friendAcceptances, n.friendAcceptances)
              && KeyMerged(r.notifications.friendRemovals, s.notifications.friendRemovals, n.friendRemovals)
              && KeyMerged(r.notifications.messages, s.notifications.messages, n.messages)
    ensures upd.language.Some? ==>
              KeyMerged(r.language.preferredLanguage, s.language.preferredLanguage, upd.language.value.preferredLanguage)
  {
    Settings(
      if upd.privacy.Some? then MergePrivacy(s.privacy, upd.privacy.value) else s.privacy,
      if upd.notifications.Some? then MergeNotifications(s.notifications, upd.notifications.value) else s.notifications,
      if upd.language.Some? then MergeLanguage(s.language, upd.language.value) else s.language)
  }

  /** updateSettings: 404 for a missing caller; otherwise only the caller's settings change. */
  function UpdateSettings(users: map<Id, User>, me: Id, upd: SettingsUpdate): (r: Result<map<Id, User>>)
    ensures me !in users <==> r == Err(NotFound, UserNotFoundMsg)
    ensures r.Ok? ==> r.value.Keys == users.Keys && forall u :: u in users && u != me ==> r.value[u] == users[u]
    ensures r.Ok? ==> r.value[me].(settings := users[me].settings) == users[me]
    ensures r.Ok? ==> r.value[me].settings == MergeSettings(users[me].settings, upd)
  {
    if me !in users then Err(NotFound, UserNotFoundMsg)
    else Ok(users[me := users[me].(settings := MergeSettings(users[me].settings, upd))])
  }

  /** Merging is idempotent: a repeated save stores nothing new. */
  lemma MergeSettingsIdempotent(s: Settings, upd: SettingsUpdate)
    ensures MergeSettings(MergeSettings(s, upd), upd) == MergeSettings(s, upd)
  {
  }

  /** A section sent on its own overwrites exactly the keys it carries, so the client's one-section
      saves commute when they touch different sections. */
  lemma MergeSectionsCommute(s: Settings, a: SettingsUpdate, b: SettingsUpdate)
    requires a.privacy.None? || b.privacy.None?
    requires a.notifications.None? || b.notifications.None?
    requires a.language.None? || b.language.None?
    ensures MergeSettings(MergeSettings(s, a), b) == MergeSettings(MergeSettings(s, b), a)
  {
  }

  // ---------------------------------------------------------------------------------------------
  // updateEmail

  /** Neither white space (JavaScript's `\s`) nor `@`: the class `[^\s@]`. */
  predicate PlainChar(c: char)
  {
    !IsSpace(c) && c != '@'
  }

  /** Positions `lo` to `hi` (exclusive) of `s` are all in `[^\s@]`. */
  predicate PlainBetween(s: string, lo: int, hi: int)
    requires 0 <= lo <= hi <= |s|
  {
    forall k :: lo <= k < hi ==> PlainChar(s[k])
  }

  /** The email pattern `^[^\s@]+@[^\s@]+\.[^\s@]+$`, read as: a non-empty local part, `@`, a
      non-empty domain part, a literal `.`, and a non-empty final part, none of the three parts
      holding white space or `@`. */
  ghost predicate MatchesEmailPattern(s: string)
  {
    exists i, j :: 0 < i && i + 1 < j && j + 1 < |s| && s[i] == '@' && s[j] == '.'
      && PlainBetween(s, 0, i) && PlainBetween(s, i + 1, j) && PlainBetween(s, j + 1, |s|)
  }

  /** A direct test of the pattern: no white space, exactly one `@` and not in front, and a `.`
      with at least one character on each side between that `@` and the end. */
  predicate ValidEmail(s: string)
  {
    && (forall k :: 0 <= k < |s| ==> !IsSpace(s[k]))
    && '@' in s
    && var i := FirstIndex(s, '@');
       && i > 0
       && '@' !in s[i + 1..]
       && i + 2 < |s| && '.' in s[i + 2..|s| - 1]
  }

  lemma ValidEmailHasPattern(s: string)
    requires ValidEmail(s)
    ensures MatchesEmailPattern(s)
  {
    var i := FirstIndex(s, '@');
    var tail := s[i + 2..|s| - 1];
    var d := FirstIndex(tail, '.');
    var j := i + 2 + d;
    assert s[j] == tail[d];
    assert forall k :: i < k < |s| ==> s[k] != '@' by {
      forall k | i < k < |s| ensures s[k] != '@' {
        assert s[k] == s[i + 1..][k - i - 1];
      }
    }
    assert forall k :: 0 <= k < i ==> s[k] != '@' by {
      forall k | 0 <= k < i ensures s[k] != '@' {
        assert s[k] == s[..i][k];
      }
    }
    assert PlainBetween(s, 0, i) && PlainBetween(s, i + 1, j) && PlainBetween(s, j + 1, |s|);
  }

  lemma PatternIsValidEmail(s: string)
    requires MatchesEmailPattern(s)
    ensures ValidEmail(s)
  {
    var i, j :| 0 < i && i + 1 < j && j + 1 < |s| && s[i] == '@' && s[j] == '.'
      && PlainBetween(s, 0, i) && PlainBetween(s, i + 1, j) && PlainBetween(s, j + 1, |s|);
    PatternChars(s, i, j);
    assert '@' !in s[..i] by {
      forall k | 0 <= k < i ensures s[..i][k] != '@' {
        assert s[..i][k] == s[k];
      }
    }
    FirstIndexUnique(s, '@', i);
    assert '@' !in s[i + 1..] by {
      var rest := s[i + 1..];
      forall k | 0 <= k < |rest| ensures rest[k] != '@' {
        assert rest[k] == s[i + 1 + k];
      }
    }
    assert s[i + 2..|s| - 1][j - i - 2] == '.';
  }

  /** In a string the pattern matches at `i` and `j`, no character is white space and only the one
      at `i` is `@`. */
  lemma PatternChars(s: string, i: int, j: int)
    requires 0 < i && i + 1 < j && j + 1 < |s| && s[i] == '@' && s[j] == '.'
    requires PlainBetween(s, 0, i) && PlainBetween(s, i + 1, j) && PlainBetween(s, j + 1, |s|)
    ensures forall k :: 0 <= k < |s| ==> !IsSpace(s[k])
    ensures forall k :: 0 <= k < |s| && k != i ==> s[k] != '@'
  {
    forall k | 0 <= k < |s| ensures !IsSpace(s[k]) && (k != i ==> s[k] != '@') {
      if k < i {
        assert PlainChar(s[k]);
      } else if i < k < j {
        assert PlainChar(s[k]);
      } else if j < k {
        assert PlainChar(s[k]);
      }
    }
  }

  /** The direct test accepts exactly the strings the pattern matches. */
  lemma ValidEmailMatchesPattern(s: string)
    ensures ValidEmail(s) <==> MatchesEmailPattern(s)
  {
    if ValidEmail(s) {
      ValidEmailHasPattern(s);
    }
    if MatchesEmailPattern(s) {
      PatternIsValidEmail(s);
    }
  }

  const CredentialsRequiredMsg := "Email and password are required"
  const InvalidEmailMsg := "Invalid email format"
  const IncorrectPasswordMsg := "Incorrect password"
  const EmailExistsMsg := "Email already exists"

  /** Some user other than `me` already holds `email`. */
  predicate EmailTakenByOther(users: map<Id, User>, me: Id, email: string)
  {
    exists u :: u in users && u != me && users[u].email == email
  }

  /** updateEmail. `passwordOk` is the outcome of comparing the given password with the stored hash.
      The guards run in this order; on success only the caller's email changes. */
  function UpdateEmail(users: map<Id, User>, me: Id, email: string, password: string, passwordOk: bool)
    : (r: Result<map<Id, User>>)
    ensures email == "" || password == "" ==> r == Err(BadRequest, CredentialsRequiredMsg)
    ensures email != "" && password != "" && !MatchesEmailPattern(email) ==> r == Err(BadRequest, InvalidEmailMsg)
    ensures email != "" && password != "" && MatchesEmailPattern(email) && me !in users ==>
              r == Err(NotFound, UserNotFoundMsg)
    ensures email != "" && password != "" && MatchesEmailPattern(email) && me in users && !passwordOk ==>
              r == Err(Unauthorized, IncorrectPasswordMsg)
    ensures (email != "" && password != "" && MatchesEmailPattern(email) && me in users && passwordOk
             && EmailTakenByOther(users, me, email)) ==> r == Err(BadRequest, EmailExistsMsg)
    ensures r.Ok? <==> email != "" && password != "" && MatchesEmailPattern(email) && me in users && passwordOk
                       && !EmailTakenByOther(users, me, email)
    ensures r.Ok? ==> r.value == users[me := users[me].(email := email)]
  {
    ValidEmailMatchesPattern(email);
    if email == "" || password == "" then Err(BadRequest, CredentialsRequiredMsg)
    else if !ValidEmail(email) then Err(BadRequest, InvalidEmailMsg)
    else if me !in users then Err(NotFound, UserNotFoundMsg)
    else if !passwordOk then Err(Unauthorized, IncorrectPasswordMsg)
    else if EmailTakenByOther(users, me, email) then Err(BadRequest, EmailExistsMsg)
    else Ok(users[me := users[me].(email := email)])
  }

  /** The unique index on `email` is never violated by an email change. */
  lemma UpdateEmailKeepsEmailsUnique(users: map<Id, User>, me: Id, email: string, password: string, passwordOk: bool)
    requires EmailsUnique(users)
    ensures var r := UpdateEmail(users, me, email, password, passwordOk);
            r.Ok? ==> EmailsUnique(r.value)
  {
  }

  // ---------------------------------------------------------------------------------------------
  // updatePassword

  const PasswordsRequiredMsg := "Current password and new password are required"
  const PasswordTooShortMsg := "New password must be at least 6 characters"
  const CurrentPasswordWrongMsg := "Current password is incorrect"

  /** updatePassword. The stored value is the new password (its hashing is not modelled). */
  function UpdatePassword(users: map<Id, User>, me: Id, currentPassword: string, newPassword: string, passwordOk: bool)
    : (r: Result<map<Id, User>>)
    ensures currentPassword == "" || newPassword == "" ==> r == Err(BadRequest, PasswordsRequiredMsg)
    ensures currentPassword != "" && newPassword != "" && !ValidPassword(newPassword) ==>
              r == Err(BadRequest, PasswordTooShortMsg)
    ensures currentPassword != "" && ValidPassword(newPassword) && me !in users ==> r == Err(NotFound, UserNotFoundMsg)
    ensures currentPassword != "" && ValidPassword(newPassword) && me in users && !passwordOk ==>
              r == Err(Unauthorized, CurrentPasswordWrongMsg)
    ensures r.Ok? <==> currentPassword != "" && ValidPassword(newPassword) && me in users && passwordOk
    ensures r.Ok? ==> r.value == users[me := users[me].(password := newPassword)]
    ensures r.Ok? ==> ValidPassword(r.value[me].password)
  {
    if currentPassword == "" || newPassword == "" then Err(BadRequest, PasswordsRequiredMsg)
    else if |newPassword| < MinPasswordLength then Err(BadRequest, PasswordTooShortMsg)
    else if me !in users then Err(NotFound, UserNotFoundMsg)
    else if !passwordOk then Err(Unauthorized, CurrentPasswordWrongMsg)
    else Ok(users[me := users[me].(password := newPassword)])
  }

  // ---------------------------------------------------------------------------------------------
  // deleteAccount

  const DeletePasswordRequiredMsg := "Password is required to delete account"

  /** deleteAccount: removes the caller's user document and nothing else. */
  function DeleteAccount(st: Store, me: Id, password: string, passwordOk: bool): (r: Result<Store>)
    ensures password == "" ==> r == Err(BadRequest, DeletePasswordRequiredMsg)
    ensures password != "" && me !in st.users ==> r == Err(NotFound, UserNotFoundMsg)
    ensures password != "" && me in st.users && !passwordOk ==> r == Err(Unauthorized, IncorrectPasswordMsg)
    ensures r.Ok? <==> password != "" && me in st.users && passwordOk
    ensures r.Ok? ==> r.value.users.Keys == st.users.Keys - {me}
                      && (forall u :: u in r.value.users ==> r.value.users[u] == st.users[u])
    ensures r.Ok? ==> r.value.groups == st.groups && r.value.requests == st.requests
                      && r.value.notifications == st.notifications
  {
    if password == "" then Err(BadRequest, DeletePasswordRequiredMsg)
    else if me !in st.users then Err(NotFound, UserNotFoundMsg)
    else if !passwordOk then Err(Unauthorized, IncorrectPasswordMsg)
    else Ok(st.(users := st.users - {me}))
  }

  /** A two-user store where each is the other's friend, with the request that made them friends. */
  function TwoFriends(): (st: Store)
    ensures Friends.GraphInvariant(st)
  {
    var a := NewUser("A", "a@x.io", "secret1", 0).(friends := ["b"]);
    var b := NewUser("B", "b@x.io", "secret2", 0).(friends := ["a"]);
    var st := Store(map["a" := a, "b" := b], map[], [FriendRequest("r", "a", "b", Accepted, 0)], []);
    assert Friends.OneRequestPerPair(st.requests);
    st
  }

  /** Deleting one's own account does NOT keep the friend graph closed: the former friend keeps a
      reference to the deleted user, and the accepted request still names them. */
  lemma DeleteAccountBreaksGraph()
    ensures var st := TwoFriends();
            && Friends.GraphInvariant(st)
            && DeleteAccount(st, "a", "secret1", true).Ok?
            && !Friends.FriendsResolve(DeleteAccount(st, "a", "secret1", true).value.users)
            && !Friends.RequestsResolve(DeleteAccount(st, "a", "secret1", true).value.users,
                                        DeleteAccount(st, "a", "secret1", true).value.requests)
  {
    var st' := DeleteAccount(TwoFriends(), "a", "secret1", true).value;
    assert "a" in st'.users["b"].friends;
    assert st'.requests[0] in st'.requests;
  }
}
