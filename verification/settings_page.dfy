/** The settings page: the checks its forms make before calling the backend, the values its
    settings tabs start from, and the one-section bodies its save buttons send. */
module SettingsPage {
  import opened Wrappers
  import opened UserModel
  import opened Database
  import Account

  /** What a form handler does: refuse with a message, stop because the user cancelled the
      confirmation, or send a request body. */
  datatype Submit<T> = Refused(toast: string) | Cancelled | Sent(body: T)

  const FillAllFieldsToast := "Please fill in all fields"
  const MismatchToast := "New passwords do not match"
  const TooShortToast := "Password must be at least 6 characters"
  const EnterPasswordToast := "Please enter your password"

  // ---------------------------------------------------------------------------------------------
  // Password

  datatype PasswordForm = PasswordForm(currentPassword: string, newPassword: string, confirmPassword: string)

  /** The body of the password request: the confirmation is not sent. */
  datatype PasswordBody = PasswordBody(currentPassword: string, newPassword: string)

  predicate AllFilled(f: PasswordForm)
  {
    f.currentPassword != "" && f.newPassword != "" && f.confirmPassword != ""
  }

  /** handlePasswordSubmit: an empty field, then a mismatch, then a short password refuse, in that
      order; otherwise the current and new passwords are sent. */
  function SubmitPassword(f: PasswordForm): (r: Submit<PasswordBody>)
    ensures !AllFilled(f) ==> r == Refused(FillAllFieldsToast)
    ensures AllFilled(f) && f.newPassword != f.confirmPassword ==> r == Refused(MismatchToast)
    ensures AllFilled(f) && f.newPassword == f.confirmPassword && !ValidPassword(f.newPassword) ==>
              r == Refused(TooShortToast)
    ensures r.Sent? <==> AllFilled(f) && f.newPassword == f.confirmPassword && ValidPassword(f.newPassword)
    ensures r.Sent? ==> r.body == PasswordBody(f.currentPassword, f.newPassword)
    ensures !r.Cancelled?
  {
    if !AllFilled(f) then Refused(FillAllFieldsToast)
    else if f.newPassword != f.confirmPassword then Refused(MismatchToast)
    else if |f.newPassword| < MinPasswordLength then Refused(TooShortToast)
    else Sent(PasswordBody(f.currentPassword, f.newPassword))
  }

  /** The page's checks cover the backend's own field checks: a sent body is never refused for a
      missing or short password, and a form the page refuses as too short the backend would refuse
      too. */
  lemma PasswordFormCoversBackend(users: map<Id, User>, me: Id, f: PasswordForm, passwordOk: bool)
    ensures var r := SubmitPassword(f);
            r.Sent? ==>
              var b := Account.UpdatePassword(users, me, r.body.currentPassword, r.body.newPassword, passwordOk);
              && (b.Ok? <==> me in users && passwordOk)
              && b != Err(BadRequest, Account.PasswordsRequiredMsg)
              && b != Err(BadRequest, Account.PasswordTooShortMsg)
    ensures SubmitPassword(f) == Refused(TooShortToast) ==>
              Account.UpdatePassword(users, me, f.currentPassword, f.newPassword, passwordOk)
                == Err(BadRequest, Account.PasswordTooShortMsg)
  {
  }

  // ---------------------------------------------------------------------------------------------
  // Email and account deletion

  datatype EmailBody = EmailBody(email: string, password: string)

  /** The email form starts from the signed-in user's email, or empty. */
  function InitialEmail(u: Option<User>): (e: string)
    ensures u.Some? ==> e == u.value.email
    ensures u.None? ==> e == ""
  {
    if u.Some? && u.value.email != "" then u.value.email else ""
  }

  /** handleEmailSubmit: both fields must be filled in; the format is left to the backend. */
  function SubmitEmail(email: string, password: string): (r: Submit<EmailBody>)
    ensures r.Sent? <==> email != "" && password != ""
    ensures r.Sent? ==> r.body == EmailBody(email, password)
    ensures !r.Sent? ==> r == Refused(FillAllFieldsToast)
  {
    if email == "" || password == "" then Refused(FillAllFieldsToast) else Sent(EmailBody(email, password))
  }

  /** The page sends exactly the forms the backend does not refuse for a missing field; a sent form
      may still be refused for its format. */
  lemma EmailFormMatchesBackend(users: map<Id, User>, me: Id, email: string, password: string, passwordOk: bool)
    ensures SubmitEmail(email, password).Sent? <==>
              Account.UpdateEmail(users, me, email, password, passwordOk) != Err(BadRequest, Account.CredentialsRequiredMsg)
    ensures SubmitEmail(email, password).Sent? && !Account.MatchesEmailPattern(email) ==>
              Account.UpdateEmail(users, me, email, password, passwordOk) == Err(BadRequest, Account.InvalidEmailMsg)
  {
  }

  /** handleDeleteAccount: a password is required, then the user's confirmation. */
  function SubmitDelete(password: string, confirmed: bool): (r: Submit<string>)
    ensures password == "" ==> r == Refused(EnterPasswordToast)
    ensures password != "" && !confirmed ==> r == Cancelled
    ensures r.Sent? <==> password != "" && confirmed
    ensures r.Sent? ==> r.body == password
  {
    if password == "" then Refused(EnterPasswordToast)
    else if !confirmed then Cancelled
    else Sent(password)
  }

  /** A confirmed deletion with a password is never refused by the backend for a missing
      password, and it goes through exactly when the caller exists and the password is right. */
  lemma DeleteFormMatchesBackend(st: Store, me: Id, password: string, confirmed: bool, passwordOk: bool)
    ensures SubmitDelete(password, confirmed).Sent? ==>
              var b := Account.DeleteAccount(st, me, password, passwordOk);
              && b != Err(BadRequest, Account.DeletePasswordRequiredMsg)
              && (b.Ok? <==> me in st.users && passwordOk)
  {
  }

  // ---------------------------------------------------------------------------------------------
  // The settings tabs

  /** The state of the three settings tabs. */
  datatype SettingsForm = SettingsForm(
    privacy: Privacy,
    friendRequests: bool,
    friendAcceptances: bool,
    friendRemovals: bool,
    messages: bool,
    preferredLanguage: string)

  /** `flag ?? true`: an explicit false is kept, a null flag shows as on. */
  function FlagOrOn(flag: Option<bool>): (b: bool)
    ensures b <==> flag != Some(false)
  {
    if flag.Some? then flag.value else true
  }

  /** The tabs' starting values: the stored privacy or `everyone`, each stored notification flag or
      on, and the stored language or `en` when it is missing or empty. */
  function InitialForm(u: Option<User>): (f: SettingsForm)
    ensures u.None? ==> f == SettingsForm(Everyone, true, true, true, true, "en")
    ensures u.Some? ==> f.privacy == EffectivePrivacy(u.value)
    ensures u.Some? ==>
              var n := u.value.settings.notifications;
              && (f.friendRequests <==> n.friendRequests != Some(false))
              && (f.friendAcceptances <==> n.friendAcceptances != Some(false))
              && (f.friendRemovals <==> n.friendRemovals != Some(false))
              && (f.messages <==> n.messages != Some(false))
    ensures u.Some? ==> f.preferredLanguage == OrElse(u.value.settings.language.preferredLanguage, "en")
    ensures f.preferredLanguage != ""
  {
    if u.None? then SettingsForm(Everyone, true, true, true, true, "en")
    else
      var s := u.value.settings;
      SettingsForm(
        EffectivePrivacy(u.value),
        FlagOrOn(s.notifications.friendRequests),
        FlagOrOn(s.notifications.friendAcceptances),
        FlagOrOn(s.notifications.friendRemovals),
        FlagOrOn(s.notifications.messages),
        OrElse(s.language.preferredLanguage, "en"))
  }

  /** The privacy save: only the privacy section. */
  function SavePrivacy(f: SettingsForm): (upd: Account.SettingsUpdate)
    ensures upd.notifications.None? && upd.language.None?
    ensures upd.privacy == Some(Account.PrivacyBody(Account.Put(f.privacy)))
  {
    Account.SettingsUpdate(Some(Account.PrivacyBody(Account.Put(f.privacy))), None, None)
  }

  /** The notifications save: only the notifications section, with all four flags. */
  function SaveNotifications(f: SettingsForm): (upd: Account.SettingsUpdate)
    ensures upd.privacy.None? && upd.language.None?
    ensures upd.notifications == Some(Account.NotificationsBody(Account.Put(f.friendRequests), Account.Put(f.friendAcceptances),
                                                                Account.Put(f.friendRemovals), Account.Put(f.messages)))
  {
    Account.SettingsUpdate(None,
      Some(Account.NotificationsBody(Account.Put(f.friendRequests), Account.Put(f.friendAcceptances),
                                     Account.Put(f.friendRemovals), Account.Put(f.messages))),
      None)
  }

  /** The language save: only the language section. */
  function SaveLanguage(f: SettingsForm): (upd: Account.SettingsUpdate)
    ensures upd.privacy.None? && upd.notifications.None?
    ensures upd.language == Some(Account.LanguageBody(Account.Put(f.preferredLanguage)))
  {
    Account.SettingsUpdate(None, None, Some(Account.LanguageBody(Account.Put(f.preferredLanguage))))
  }

  function WithSettings(u: User, upd: Account.SettingsUpdate): User
  {
    u.(settings := Account.MergeSettings(u.settings, upd))
  }

  /** What is saved is what the page shows next time, and the other two tabs show what they showed
      before. After a notifications save the backend's reading of the messages flag is the one the
      page displayed. */
  lemma SaveThenReload(u: User, f: SettingsForm)
    requires f.preferredLanguage != ""
    ensures var g := InitialForm(Some(WithSettings(u, SavePrivacy(f))));
            g == InitialForm(Some(u)).(privacy := f.privacy)
    ensures var g := InitialForm(Some(WithSettings(u, SaveNotifications(f))));
            g == InitialForm(Some(u)).(friendRequests := f.friendRequests, friendAcceptances := f.friendAcceptances,
                                       friendRemovals := f.friendRemovals, messages := f.messages)
    ensures var g := InitialForm(Some(WithSettings(u, SaveLanguage(f))));
            g == InitialForm(Some(u)).(preferredLanguage := f.preferredLanguage)
    ensures MessageNotificationsOn(WithSettings(u, SaveNotifications(f))) <==> f.messages
  {
  }

  /** A user whose messages flag is stored as null sees the switch on, while the backend, reading
      the null as false, creates no message notifications for them. */
  lemma NullMessagesFlagShowsOnButIsOff(u: User)
    requires u.settings.notifications.messages.None?
    ensures InitialForm(Some(u)).messages
    ensures !MessageNotificationsOn(u)
  {
  }

  /** The settings handler stores that null: a notifications section sending `messages: null`
      leaves the switch showing on and message notifications off, while a user the schema created
      has the two agree. */
  lemma ClearedMessagesFlagShowsOnButIsOff(users: map<Id, User>, me: Id, n: Account.NotificationsBody)
    requires me in users && n.messages.Clear?
    ensures var r := Account.UpdateSettings(users, me, Account.SettingsUpdate(None, Some(n), None));
            && r.Ok?
            && InitialForm(Some(r.value[me])).messages
            && !MessageNotificationsOn(r.value[me])
    ensures forall name, email, password, t ::
              InitialForm(Some(NewUser(name, email, password, t))).messages == MessageNotificationsOn(NewUser(name, email, password, t))
  {
  }
}
