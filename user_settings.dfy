/** The `UserSettings` screen controller: its state hooks as fields, and one
    method per event handler. `handleSubmit` suspends at the update request,
    so it is two methods here: `BeginSubmit` runs up to the request and
    `FinishSubmit` runs when its reply arrives. Edits and tab switches may
    happen in between. */
module UserSettingsScreen {
  import opened Wrappers
  import opened JsValues
  import opened AccountSettings

  class UserSettings {
    /** The bearer token from the auth context; only its truthiness matters here. */
    const token: string
    /** The mirror of the known user, `null` until a profile arrives. */
    var user: Option<User>
    var loading: bool
    var successMessage: string
    var errorMessage: string
    var activeTab: Tab
    var formData: Form
    var errors: Errors

    /** Every error entry is shown: the messages are non-empty. */
    ghost predicate Valid()
      reads this
    {
      forall f | f in errors :: Truthy(errors[f])
    }

    /** The initial state of the hooks. */
    constructor (token: string)
      ensures Valid()
      ensures this.token == token && user == None && !loading
      ensures successMessage == "" && errorMessage == "" && activeTab == Personal
      ensures formData == EmptyForm && errors == map[]
    {
      this.token := token;
      user := None;
      loading := false;
      successMessage := "";
      errorMessage := "";
      activeTab := Personal;
      formData := EmptyForm;
      errors := map[];
    }

    /** A successful profile fetch: the user mirror is replaced and the two
        contact fields are reset from it; the passwords stay. */
    method LoadProfile(p: Profile)
      requires Valid()
      modifies this`user, this`formData
      ensures Valid()
      ensures user == Some(UserOf(p))
      ensures formData == old(formData).(email := OrElse(p.email, ""), phone := OrElse(p.phone, ""))
    {
      user := Some(UserOf(p));
      formData := formData.(email := OrElse(p.email, ""), phone := OrElse(p.phone, ""));
    }

    /** A keystroke in input `f`: that field takes the value and its error, if
        shown, is cleared; the other fields and errors are untouched. */
    method HandleInputChange(f: Field, value: string)
      requires Valid()
      modifies this`formData, this`errors
      ensures Valid()
      ensures formData == old(formData).With(f, value)
      ensures errors == old(errors) - {f}
    {
      formData := formData.With(f, value);
      if f in errors && Truthy(errors[f]) {
        errors := errors - {f};
      }
    }

    method ClearMessages()
      requires Valid()
      modifies this`successMessage, this`errorMessage
      ensures Valid()
      ensures successMessage == "" && errorMessage == ""
    {
      successMessage := "";
      errorMessage := "";
    }

    /** A click on a tab: the tab changes and both banners are cleared; the
        form and its errors are left as they are. */
    method SelectTab(tab: Tab)
      requires Valid()
      modifies this`activeTab, this`successMessage, this`errorMessage
      ensures Valid()
      ensures activeTab == tab && successMessage == "" && errorMessage == ""
    {
      activeTab := tab;
      ClearMessages();
    }

    /** `validateForm`: the error map is replaced by the active tab's errors,
        and the form is valid exactly when that map is empty. */
    method ValidateForm() returns (ok: bool)
      requires Valid()
      modifies this`errors
      ensures Valid()
      ensures errors == Validate(formData, activeTab, user)
      ensures ok <==> errors == map[]
    {
      errors := Validate(formData, activeTab, user);
      ok := |errors| == 0;
    }

    /** The payload of `handleSubmit`, filled in one field at a time: it is
        the minimal diff of the form against the known user. */
    method BuildPayload() returns (payload: Payload)
      ensures payload == MinimalDiff(formData, user)
    {
      MinimalDiffFields(formData, user);
      payload := map[];
      if Truthy(formData.email) && Some(formData.email) != KnownEmail(user) {
        payload := payload[Email := formData.email];
      }
      if Some(formData.phone) != KnownPhone(user) {
        payload := payload[Phone := formData.phone];
      }
      if Truthy(formData.oldPassword) {
        payload := payload[OldPassword := formData.oldPassword];
      }
      if Truthy(formData.newPassword) {
        payload := payload[NewPassword := formData.newPassword];
      }
    }

    /** `handleSubmit` up to the update request. An invalid form changes only
        the errors. A valid form with nothing to send shows "No changes
        detected" and sends nothing. Otherwise the banners are cleared, the
        screen is loading, and the payload goes out with the current tab. */
    method BeginSubmit() returns (start: SubmitStart)
      requires Valid()
      modifies this`errors, this`loading, this`successMessage, this`errorMessage
      ensures Valid()
      ensures errors == Validate(formData, activeTab, user)
      ensures errors != map[] ==>
        && start == Rejected
        && loading == old(loading)
        && successMessage == old(successMessage)
        && errorMessage == old(errorMessage)
      ensures errors == map[] && MinimalDiff(formData, user) == map[] ==>
        && start == NoChanges
        && !loading
        && successMessage == ""
        && errorMessage == NoChangesMessage
      ensures errors == map[] && MinimalDiff(formData, user) != map[] ==>
        && start == Sent(MinimalDiff(formData, user), activeTab)
        && loading
        && successMessage == ""
        && errorMessage == ""
    {
      var ok := ValidateForm();
      if !ok {
        return Rejected;
      }
      loading := true;
      errorMessage := "";
      successMessage := "";
      var payload := BuildPayload();
      if |payload| == 0 {
        errorMessage := NoChangesMessage;
        loading := false;
        return NoChanges;
      }
      start := Sent(payload, activeTab);
    }

    /** `handleSubmit` from the reply of the update request `pending` on. A
        failure sets the error banner. A success sets the success banner,
        empties the two password fields if the request came from the
        security tab, and, given a token, refreshes the user: a refreshed
        profile replaces the mirror, a rejected one is ignored, and an
        exception sets the error banner beside the success one. Loading
        always ends. */
    method FinishSubmit(pending: SubmitStart, response: UpdateResponse, refresh: RefreshResponse)
      requires Valid() && pending.Sent?
      modifies this`successMessage, this`errorMessage, this`formData, this`user, this`loading
      ensures Valid()
      ensures !loading
      ensures !response.Ok? ==>
        && successMessage == old(successMessage)
        && formData == old(formData)
        && user == old(user)
      ensures response.Exception? ==> errorMessage == CaughtMessage(response.msg)
      ensures response.Err? ==> errorMessage == CaughtMessage(Some(RejectionMessage(response.detail)))
      ensures response.Ok? ==>
        && successMessage == SuccessMessage(response.message)
        && formData == (if pending.tab == Security
                        then old(formData).(oldPassword := "", newPassword := "")
                        else old(formData))
        && user == (if Truthy(token) && refresh.Refreshed?
                    then Some(UserOf(refresh.profile))
                    else old(user))
        && errorMessage == (if Truthy(token) && refresh.RefreshException?
                            then CaughtMessage(refresh.msg)
                            else old(errorMessage))
    {
      match response {
        case Exception(msg) =>
          errorMessage := CaughtMessage(msg);
        case Err(detail) =>
          errorMessage := CaughtMessage(Some(RejectionMessage(detail)));
        case Ok(message) =>
          successMessage := SuccessMessage(message);
          if pending.tab == Security {
            formData := formData.(oldPassword := "", newPassword := "");
          }
          if Truthy(token) {
            match refresh {
              case Refreshed(p) =>
                user := Some(UserOf(p));
              case RefreshRejected =>
              case RefreshException(msg) =>
                errorMessage := CaughtMessage(msg);
            }
          }
      }
      loading := false;
    }
  }

  /** How the first half of a submit ends. */
  datatype SubmitStart =
    | Rejected                              // validation failed
    | NoChanges                             // nothing to send
    | Sent(payload: Payload, tab: Tab)      // request issued from `tab`

  /** Submitting right after a profile load, with nothing edited, sends
      nothing and says so. */
  method UnchangedSubmitScenario(token: string, p: Profile)
    requires Utf16Length(OrElse(p.phone, "")) <= MaxPhoneLength
  {
    var screen := new UserSettings(token);
    screen.LoadProfile(p);
    PersonalEmailRule(screen.formData, screen.user);
    PersonalPhoneRule(screen.formData, screen.user);
    NoChangesExactly(screen.formData, screen.user);
    var start := screen.BeginSubmit();
    assert start == NoChanges && screen.errorMessage == NoChangesMessage && !screen.loading;
  }

  /** A password change from the security tab that succeeds empties both
      password fields and keeps the contact fields. */
  method PasswordChangeScenario(token: string, p: Profile)
  {
    var screen := new UserSettings(token);
    screen.LoadProfile(p);
    screen.SelectTab(Security);
    screen.HandleInputChange(OldPassword, "secret");
    screen.HandleInputChange(NewPassword, "hunter22");
    Utf16LengthBounds(screen.formData.newPassword);
    SecurityValidExactly(screen.formData, screen.user);
    var start := screen.BeginSubmit();
    assert start.Sent? && start.tab == Security;
    screen.FinishSubmit(start, Ok(None), RefreshRejected);
    assert screen.successMessage == UpdatedMessage && !screen.loading;
    assert screen.formData == Form(OrElse(p.email, ""), OrElse(p.phone, ""), "", "");
  }

  /** Editing only the e-mail after a profile load sends the e-mail alone. */
  method EmailChangeScenario(token: string, p: Profile, newEmail: string)
    requires Truthy(newEmail) && Some(newEmail) != p.email
  {
    var screen := new UserSettings(token);
    screen.LoadProfile(p);
    screen.HandleInputChange(Email, newEmail);
    EmailOnlyChange(screen.formData, screen.user.value);
    var payload := screen.BuildPayload();
    assert payload == map[Email := newEmail];
  }
}
