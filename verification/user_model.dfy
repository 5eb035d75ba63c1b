/** The User document: profile, credential, role, friends list and the settings block. */
module UserModel {
  import opened Wrappers

  /** Document ids (Mongo ObjectIds, compared through their string form). */
  type Id = string

  /** The `role` field as the database stores it. The enum validator lets a null through, which
      `NullRole` stands for; legacy documents may lack the field, hence `Option<Role>` in `User`. */
  datatype Role = UserRole | Admin | NullRole

  /** The `whoCanSendFriendRequests` enum. */
  datatype Privacy = Everyone | FriendsOfFriends | Nobody

  /** The settings block as the handlers read it. Loading a document fills in the schema default of
      every key it lacks, so `None` here is a key stored as null. */
  datatype PrivacySettings = PrivacySettings(whoCanSendFriendRequests: Option<Privacy>)

  datatype NotificationSettings = NotificationSettings(
    friendRequests: Option<bool>,
    friendAcceptances: Option<bool>,
    friendRemovals: Option<bool>,
    messages: Option<bool>)

  datatype LanguageSettings = LanguageSettings(preferredLanguage: Option<string>)

  datatype Settings = Settings(
    privacy: PrivacySettings,
    notifications: NotificationSettings,
    language: LanguageSettings)

  /** A stored user. `password` is the stored credential; its hashing is not modelled.
      `friends` is a plain array of references: nothing in the schema makes it duplicate-free. */
  datatype User = User(
    fullName: string,
    email: string,
    password: string,
    bio: string,
    profilePic: string,
    nativeLanguage: string,
    learningLanguage: string,
    location: string,
    isOnboarded: bool,
    role: Option<Role>,
    friends: seq<Id>,
    settings: Settings,
    createdAt: int)

  /** A user as a `.select("-password")` query returns it: every stored field except the password,
      whose place holds the empty string, which the schema's `minlength` rules out for a stored
      password. Putting the password back gives the stored document. */
  function WithoutPassword(u: User): (r: User)
    ensures r.password == "" && !ValidPassword(r.password)
    ensures r.(password := u.password) == u
  {
    u.(password := "")
  }

  /** The schema's `minlength` on the password. */
  const MinPasswordLength: nat := 6

  predicate ValidPassword(p: string)
  {
    |p| >= MinPasswordLength
  }

  /** The unique index on `email`. */
  ghost predicate EmailsUnique(users: map<Id, User>)
  {
    forall a, b :: a in users && b in users && a != b ==> users[a].email != users[b].email
  }

  /** `settings?.privacy?.whoCanSendFriendRequests || "everyone"`. */
  function EffectivePrivacy(u: User): Privacy
  {
    match u.settings.privacy.whoCanSendFriendRequests
    case Some(p) => p
    case None => Everyone
  }

  /** `settings?.notifications?.messages` read as a condition. The handlers read users through the
      schema, which fills in the default `true` for a flag the stored document lacks, so a flag they
      see as `None` is a stored null, and that is falsy. */
  predicate MessageNotificationsOn(u: User)
  {
    u.settings.notifications.messages == Some(true)
  }

  function DefaultSettings(): Settings
  {
    Settings(
      PrivacySettings(Some(Everyone)),
      NotificationSettings(Some(true), Some(true), Some(true), Some(true)),
      LanguageSettings(Some("en")))
  }

  /** A user as the schema creates it from the required fields alone: every default filled in. */
  function NewUser(fullName: string, email: string, password: string, createdAt: int): (u: User)
    ensures u.role == Some(UserRole) && !u.isOnboarded && u.friends == []
    ensures EffectivePrivacy(u) == Everyone && MessageNotificationsOn(u)
    ensures u.settings.notifications.friendRequests == Some(true)
    ensures u.settings.notifications.friendAcceptances == Some(true)
    ensures u.settings.notifications.friendRemovals == Some(true)
    ensures u.settings.language.preferredLanguage == Some("en")
    ensures u.bio == "" && u.profilePic == "" && u.location == ""
    ensures u.nativeLanguage == "" && u.learningLanguage == ""
  {
    User(fullName, email, password, "", "", "", "", "", false, Some(UserRole), [], DefaultSettings(), createdAt)
  }
}
