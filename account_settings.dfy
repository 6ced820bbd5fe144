/** The pure rules of the account-settings screen: the form record, the
    per-field validation of the active tab, the minimal-diff update payload,
    and the messages shown after an update request. */
module AccountSettings {
  import opened Wrappers
  import opened JsValues
  import opened EmailPattern

  /** The four inputs of the form, by their `name` attribute. */
  datatype Field = Email | Phone | OldPassword | NewPassword

  const AllFields: set<Field> := {Email, Phone, OldPassword, NewPassword}

  datatype Tab = Personal | Security

  /** The form record `{email, phone, old_password, new_password}`. */
  datatype Form = Form(email: string, phone: string, oldPassword: string, newPassword: string)
  {
    /** `formData[f]` */
    function Get(f: Field): string {
      match f
      case Email => email
      case Phone => phone
      case OldPassword => oldPassword
      case NewPassword => newPassword
    }

    /** `{...formData, [f]: v}`: field `f` becomes `v`, the other three stay. */
    function With(f: Field, v: string): (r: Form)
      ensures r.Get(f) == v
      ensures forall g | g != f :: r.Get(g) == Get(g)
    {
      match f
      case Email => this.(email := v)
      case Phone => this.(phone := v)
      case OldPassword => this.(oldPassword := v)
      case NewPassword => this.(newPassword := v)
    }
  }

  const EmptyForm := Form("", "", "", "")

  /** The known user `{id, email, phone?}`; `email` may be missing from a
      server reply, `phone` is optional. */
  datatype User = User(id: string, email: Option<string>, phone: Option<string>)

  /** `user?.email`: undefined when there is no user. */
  function KnownEmail(user: Option<User>): Option<string> {
    if user.Some? then user.value.email else None
  }

  /** `user?.phone`: undefined when there is no user. */
  function KnownPhone(user: Option<User>): Option<string> {
    if user.Some? then user.value.phone else None
  }

  /** A per-field error map; a cleared entry is a missing key. */
  type Errors = map<Field, string>

  /** The body of the update request: the fields it carries. */
  type Payload = map<Field, string>

  const InvalidEmailMessage := "Please enter a valid email address"
  const PhoneTooLongMessage := "Phone number is too long"
  const OldPasswordRequiredMessage := "Old password is required when setting new password"
  const NewPasswordRequiredMessage := "New password is required"
  const PasswordTooShortMessage := "Password must be at least 6 characters"
  const NoChangesMessage := "No changes detected"
  const UpdateFailedMessage := "Failed to update user information"
  const UpdatedMessage := "Information updated successfully!"
  const GenericErrorMessage := "An error occurred"

  const MaxPhoneLength := 15
  const MinPasswordLength := 6

  /** The fields each tab shows. */
  function TabFields(tab: Tab): set<Field> {
    if tab == Personal then {Email, Phone} else {OldPassword, NewPassword}
  }

  /** The error map `validateForm` builds from scratch for the active tab. It
      flags only fields of that tab, and every message is non-empty, so each
      flagged input shows its error. */
  function Validate(form: Form, tab: Tab, user: Option<User>): (errs: Errors)
    ensures errs.Keys <= TabFields(tab)
    ensures forall f | f in errs :: Truthy(errs[f])
  {
    match tab
    case Personal =>
      var withEmail :=
        if Truthy(form.email) && Some(form.email) != KnownEmail(user) && !EmailAccepted(form.email)
        then map[Email := InvalidEmailMessage]
        else map[];
      if Truthy(form.phone) && Utf16Length(form.phone) > MaxPhoneLength
      then withEmail[Phone := PhoneTooLongMessage]
      else withEmail
    case Security =>
      if Truthy(form.oldPassword) || Truthy(form.newPassword) then
        var withOld :=
          if !Truthy(form.oldPassword) && Truthy(form.newPassword)
          then map[OldPassword := OldPasswordRequiredMessage]
          else map[];
        var withNew :=
          if Truthy(form.oldPassword) && !Truthy(form.newPassword)
          then withOld[NewPassword := NewPasswordRequiredMessage]
          else withOld;
        if Truthy(form.newPassword) && Utf16Length(form.newPassword) < MinPasswordLength
        then withNew[NewPassword := PasswordTooShortMessage]
        else withNew
      else map[]
  }

  /** Whether the update payload carries field `f`. `formData.phone !==
      undefined` always holds, because every write to the form stores a string. */
  predicate InPayload(form: Form, user: Option<User>, f: Field) {
    match f
    case Email => Truthy(form.email) && Some(form.email) != KnownEmail(user)
    case Phone => Some(form.phone) != KnownPhone(user)
    case OldPassword => Truthy(form.oldPassword)
    case NewPassword => Truthy(form.newPassword)
  }

  /** The minimal diff sent to the server: the changed contact fields and the
      filled-in password fields, each with its form value. */
  function MinimalDiff(form: Form, user: Option<User>): (p: Payload)
    ensures forall f | f in p :: p[f] == form.Get(f)
  {
    map f | f in AllFields && InPayload(form, user, f) :: form.Get(f)
  }

  /** How the first request of `handleSubmit` completes. */
  datatype UpdateResponse =
    | Ok(message: Option<string>)       // 2xx with body `{message?}`
    | Err(detail: Option<string>)       // other status with body `{detail?}`
    | Exception(msg: Option<string>)    // the request or the body parse threw

  /** The reply of the protected-profile endpoint: `{user_id, email, phone?}`. */
  datatype Profile = Profile(userId: string, email: Option<string>, phone: Option<string>)

  /** How the profile refresh after a successful update completes. */
  datatype RefreshResponse =
    | Refreshed(profile: Profile)
    | RefreshRejected
    | RefreshException(msg: Option<string>)

  /** The user record built from a profile reply; a missing phone becomes `""`. */
  function UserOf(p: Profile): (u: User)
    ensures u.id == p.userId && u.email == p.email
    ensures u.phone.Some? && (TruthyOpt(p.phone) ==> u.phone == p.phone)
    ensures !TruthyOpt(p.phone) ==> u.phone == Some("")
  {
    User(p.userId, p.email, Some(OrElse(p.phone, "")))
  }

  /** What the `catch` shows for a thrown error: `error.message || 'An error occurred'`. */
  function CaughtMessage(thrown: Option<string>): (r: string)
    ensures Truthy(r)
    ensures TruthyOpt(thrown) ==> r == thrown.value
    ensures !TruthyOpt(thrown) ==> r == GenericErrorMessage
  {
    OrElse(thrown, GenericErrorMessage)
  }

  /** The message of the error thrown for a non-2xx reply. */
  function RejectionMessage(detail: Option<string>): (r: string)
    ensures Truthy(r)
    ensures TruthyOpt(detail) ==> r == detail.value
    ensures !TruthyOpt(detail) ==> r == UpdateFailedMessage
  {
    OrElse(detail, UpdateFailedMessage)
  }

  /** The success banner text. */
  function SuccessMessage(message: Option<string>): (r: string)
    ensures Truthy(r)
    ensures TruthyOpt(message) ==> r == message.value
    ensures !TruthyOpt(message) ==> r == UpdatedMessage
  {
    OrElse(message, UpdatedMessage)
  }

  // ----- Validation of the personal tab -----

  /** A filled-in address that differs from the known one is flagged exactly
      when the e-mail regular expression rejects it; the known address is
      never flagged, whatever its form. */
  lemma PersonalEmailRule(form: Form, user: Option<User>)
    ensures var errs := Validate(form, Personal, user);
      && (Email in errs <==>
            Truthy(form.email) && Some(form.email) != KnownEmail(user) && !MatchesEmailRegex(form.email))
      && (Email in errs ==> errs[Email] == InvalidEmailMessage)
      && (KnownEmail(user) == Some(form.email) ==> Email !in errs)
  {
    EmailAcceptedMatchesRegex(form.email);
  }

  /** The phone is flagged exactly when it is filled in and longer than 15
      UTF-16 code units. */
  lemma PersonalPhoneRule(form: Form, user: Option<User>)
    ensures var errs := Validate(form, Personal, user);
      && (Phone in errs <==> Truthy(form.phone) && Utf16Length(form.phone) > MaxPhoneLength)
      && (Phone in errs ==> errs[Phone] == PhoneTooLongMessage)
  {
  }

  /** For a phone written in the basic plane the limit is 15 characters:
      16 characters are always flagged, 15 or fewer never. */
  lemma PhoneLimitInCharacters(form: Form, user: Option<User>)
    requires forall k | 0 <= k < |form.phone| :: form.phone[k] as int < 0x1_0000
    ensures Phone in Validate(form, Personal, user) <==> |form.phone| > MaxPhoneLength
  {
    Utf16LengthOfBasicPlane(form.phone);
  }

  // ----- Validation of the security tab -----

  /** The old password is required exactly when only the new one is filled in. */
  lemma SecurityOldPasswordRule(form: Form, user: Option<User>)
    ensures var errs := Validate(form, Security, user);
      && (OldPassword in errs <==> !Truthy(form.oldPassword) && Truthy(form.newPassword))
      && (OldPassword in errs ==> errs[OldPassword] == OldPasswordRequiredMessage)
  {
  }

  /** The new password is flagged when it is missing beside an old one, or
      filled in and shorter than 6 code units; the length message wins. */
  lemma SecurityNewPasswordRule(form: Form, user: Option<User>)
    ensures var errs := Validate(form, Security, user);
      && (NewPassword in errs <==>
            (Truthy(form.oldPassword) && !Truthy(form.newPassword))
            || (Truthy(form.newPassword) && Utf16Length(form.newPassword) < MinPasswordLength))
      && (NewPassword in errs ==>
            errs[NewPassword] ==
              if Truthy(form.newPassword) then PasswordTooShortMessage else NewPasswordRequiredMessage)
  {
  }

  /** With both password fields empty the security tab reports nothing. */
  lemma SecurityEmptyPasswordsPass(form: Form, user: Option<User>)
    requires !Truthy(form.oldPassword) && !Truthy(form.newPassword)
    ensures Validate(form, Security, user) == map[]
  {
  }

  /** Old `""` with new `"abc123"` gives only the old-password error; old
      `"x"` with new `"ab"` gives only the length error. */
  lemma SecurityExamples(email: string, phone: string, user: Option<User>)
    ensures Validate(Form(email, phone, "", "abc123"), Security, user)
              == map[OldPassword := OldPasswordRequiredMessage]
    ensures Validate(Form(email, phone, "x", "ab"), Security, user)
              == map[NewPassword := PasswordTooShortMessage]
  {
    assert Utf16Length("abc123") == 6 by {
      assert "abc123"[1..] == "bc123";
      assert "bc123"[1..] == "c123";
      assert "c123"[1..] == "123";
      assert "123"[1..] == "23";
      assert "23"[1..] == "3";
      assert "3"[1..] == "";
    }
    assert Utf16Length("ab") == 2 by {
      assert "ab"[1..] == "b";
      assert "b"[1..] == "";
    }
  }

  // ----- Properties of validation as a whole -----

  /** The security tab passes exactly when both passwords are filled in or
      both are empty, and a filled-in new password has at least 6 code units. */
  lemma SecurityValidExactly(form: Form, user: Option<User>)
    ensures Validate(form, Security, user) == map[] <==>
      && (Truthy(form.oldPassword) <==> Truthy(form.newPassword))
      && (Truthy(form.newPassword) ==> Utf16Length(form.newPassword) >= MinPasswordLength)
  {
    SecurityOldPasswordRule(form, user);
    SecurityNewPasswordRule(form, user);
  }

  /** A security form that passes validation sends both passwords or neither. */
  lemma ValidSecurityFormPairsPasswords(form: Form, user: Option<User>)
    requires Validate(form, Security, user) == map[]
    ensures OldPassword in MinimalDiff(form, user) <==> NewPassword in MinimalDiff(form, user)
  {
    SecurityValidExactly(form, user);
    MinimalDiffFields(form, user);
  }

  /** Validation covers only the active tab while the payload takes every
      field: a lone old password left in the form passes the personal tab
      and is sent without a new one. */
  lemma PersonalTabSendsLoneOldPassword(user: Option<User>)
    ensures var form := Form("", "", "secret", "");
      && Validate(form, Personal, user) == map[]
      && MinimalDiff(form, user)[OldPassword] == "secret"
      && NewPassword !in MinimalDiff(form, user)
  {
    var form := Form("", "", "secret", "");
    assert InPayload(form, user, OldPassword);
  }

  // ----- The update payload -----

  /** Each field is in the payload, with its form value, exactly under its rule. */
  lemma MinimalDiffFields(form: Form, user: Option<User>)
    ensures var p := MinimalDiff(form, user);
      && (Email in p <==> Truthy(form.email) && Some(form.email) != KnownEmail(user))
      && (Phone in p <==> Some(form.phone) != KnownPhone(user))
      && (OldPassword in p <==> Truthy(form.oldPassword))
      && (NewPassword in p <==> Truthy(form.newPassword))
      && forall f | f in p :: p[f] == form.Get(f)
  {
    var p := MinimalDiff(form, user);
    assert InPayload(form, user, Email) ==> Email in p;
    assert InPayload(form, user, Phone) ==> Phone in p;
    assert InPayload(form, user, OldPassword) ==> OldPassword in p;
    assert InPayload(form, user, NewPassword) ==> NewPassword in p;
  }

  /** "No changes detected" happens exactly when a user is known, the phone
      equals the known one, the e-mail is empty or equals the known one, and
      both password fields are empty. */
  lemma NoChangesExactly(form: Form, user: Option<User>)
    ensures MinimalDiff(form, user) == map[] <==>
      && user.Some?
      && user.value.phone == Some(form.phone)
      && (!Truthy(form.email) || user.value.email == Some(form.email))
      && !Truthy(form.oldPassword)
      && !Truthy(form.newPassword)
  {
    MinimalDiffFields(form, user);
  }

  /** Without a known user the phone is always sent, so the payload is never empty. */
  lemma NoUserAlwaysSends(form: Form)
    ensures Phone in MinimalDiff(form, None)
    ensures MinimalDiff(form, None) != map[]
  {
    MinimalDiffFields(form, None);
  }

  /** A changed e-mail with the phone and passwords untouched sends the e-mail only. */
  lemma EmailOnlyChange(form: Form, u: User)
    requires Truthy(form.email) && u.email != Some(form.email)
    requires u.phone == Some(form.phone)
    requires !Truthy(form.oldPassword) && !Truthy(form.newPassword)
    ensures MinimalDiff(form, Some(u)) == map[Email := form.email]
  {
    MinimalDiffFields(form, Some(u));
  }

  // ----- Messages after the update request -----

  /** A non-2xx reply shows its `detail` exactly when it has one, otherwise
      the fixed failure text; the generic text never appears. */
  lemma RejectedUpdateMessage(detail: Option<string>)
    ensures CaughtMessage(Some(RejectionMessage(detail))) ==
      if TruthyOpt(detail) then detail.value else UpdateFailedMessage
  {
  }
}
