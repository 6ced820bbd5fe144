# UserSettings account-settings controller, modelled in Dafny

This project models the logic of the `UserSettings` screen of the HR web
front-end. The screen lets a signed-in user change their e-mail address and
phone number (the personal tab) and their password (the security tab). The
markup and styling are not modelled. What remains is a small state machine
with these parts:

- the form record `{email, phone, old_password, new_password}`;
- a per-field error map;
- the active tab;
- a success banner and an error banner;
- a `loading` flag;
- a mirror of the known user `{id, email, phone?}`, which is `null` until a profile arrives.

Files and modules:

- `wrappers.dfy` (`Wrappers`): `Option`. `None` stands for JavaScript's `undefined`.
- `js_values.dfy` (`JsValues`): the JavaScript semantics the screen depends on.
  - String truthiness, and the `a || fallback` idiom.
  - The exact `\s` class of ECMAScript regular expressions.
  - `length`, counted in UTF-16 code units.
- `email_pattern.dfy` (`EmailPattern`): the pattern `^[^\s@]+@[^\s@]+\.[^\s@]+$`.
  - `MatchesEmailRegex` reads the pattern off the regular expression's structure.
  - `EmailAccepted` is a direct check, proved to accept exactly the same strings.
  - `EmailShape` describes the accepted strings by their parts, also proved equivalent.
- `account_settings.dfy` (`AccountSettings`): the pure rules.
  - `Validate`: the error map `validateForm` builds for the active tab.
  - `MinimalDiff`: the update payload.
  - The texts of the outcome messages.
  - The lemmas about all of these.
- `user_settings.dfy` (`UserSettingsScreen`): the class `UserSettings`.
  - Its fields are the state hooks, and it has one method per event handler.
  - `handleSubmit` suspends at its update request, so it is split in two. `BeginSubmit` runs up to the request. `FinishSubmit` runs when the reply arrives, using the tab that was active at submit time (the handler's closure captured it).
  - Edits and tab switches may run between the two halves.
  - The network is an input: `UpdateResponse` (`Ok`, `Err`, `Exception`) for the update, and `RefreshResponse` for the profile refresh that follows a success.
  - Three client methods at the end chain the handlers through typical runs: an unchanged submit, a password change and an e-mail change.

Three behaviours differ from what a reader of the screen might expect. The
model follows the code in each:

- One might expect a failed profile refresh after a successful update to go
  unnoticed. The code ignores only a non-2xx reply to that refresh. An
  exception thrown by the refresh reaches the same `catch` as the update.
  That `catch` sets the error banner while the success banner is still
  shown. `FinishSubmit` states this.
- One might expect a password never to be sent without its partner. The
  code checks the pairing only on the security tab, yet the payload takes
  every field whatever the tab. A lone old password left in the form
  therefore passes the personal tab and is sent
  (`PersonalTabSendsLoneOldPassword`). In the same way, an e-mail address is
  sent unchecked when the submit comes from the security tab. On the
  security tab itself the pairing does hold (`ValidSecurityFormPairsPasswords`).
- One might read `formData.phone !== undefined` as "send the phone only if
  it was entered". Every write to the form stores a string, so that test
  always passes. The phone is sent whenever it differs from the known one.
  When no user is known it is always sent, so "No changes detected" cannot
  happen then (`NoUserAlwaysSends`).

## Model

| member | source | states |
|---|---|---|
| `EmailPattern.MatchesEmailRegex` | src/components/usersetting.tsx:115 | what `/^[^\s@]+@[^\s@]+\.[^\s@]+$/` matches: the whole string splits as a run of non-space non-`@` characters, `@`, such a run, `.`, such a run; characterised by `MatchesEmailRegexShape` |
| `EmailPattern.EmailAccepted` | src/components/usersetting.tsx:116 | `emailRegex.test(email)`: a non-empty local part before the first `@`, then a domain of non-space non-`@` characters with an inner `.`; proved equal to `MatchesEmailRegex` by `EmailAcceptedMatchesRegex` |
| `EmailPattern.EmailAcceptedMatchesRegex` | src/components/usersetting.tsx:115-116 | the check used by validation accepts a string exactly when `^[^\s@]+@[^\s@]+\.[^\s@]+$` matches all of it (both directions) |
| `EmailPattern.MatchesEmailRegexShape` | src/components/usersetting.tsx:115 | the regular expression matches exactly the strings with no whitespace, exactly one `@`, a non-empty part before it, and a `.` after it that is neither the first nor the last character of the part after the `@` |
| `EmailPattern.FirstIndexOf` | src/components/usersetting.tsx:115 | the index found holds the sought character and none precedes it; no index means the character does not occur (the first `@` the pattern splits at) |
| `JsValues.IsJsWhitespace` | src/components/usersetting.tsx:115 | membership in the regular-expression class `\s`: the ECMAScript WhiteSpace and LineTerminator code points, used by the pattern character class `[^\s@]` |
| `JsValues.Utf16Length` | src/components/usersetting.tsx:121 | `.length` of a string as used at lines 121 and 132: UTF-16 code units, two for a supplementary-plane character; bounded by `Utf16LengthBounds` and equal to the character count by `Utf16LengthOfBasicPlane` |
| `JsValues.OrElse` | src/components/usersetting.tsx:189-192 | the logical-or default idiom (`x` or else a fallback) used at lines 59, 64-65, 189, 192 and 222: a truthy `x` is kept, an undefined or empty `x` gives the fallback, and a truthy fallback makes the result truthy |
| `JsValues.Utf16LengthBounds` | src/components/usersetting.tsx:121 | JavaScript `length` lies between the number of code points and twice that number |
| `JsValues.Utf16LengthOfBasicPlane` | src/components/usersetting.tsx:132 | for text without supplementary-plane characters, `length` is the number of characters |
| `AccountSettings.Form.With` | src/components/usersetting.tsx:97-100 | after an edit of field `f` that field holds the new value and the other three fields are unchanged |
| `AccountSettings.Validate` | src/components/usersetting.tsx:111-136 | the error map `validateForm` builds for the active tab: it flags only that tab's fields and every message is non-empty; characterised field by field by `PersonalEmailRule`, `PersonalPhoneRule`, `SecurityOldPasswordRule`, `SecurityNewPasswordRule` and `SecurityValidExactly` |
| `AccountSettings.PersonalEmailRule` | src/components/usersetting.tsx:113-119 | on the personal tab, `email` gets "Please enter a valid email address" exactly when it is non-empty, differs from `user?.email` and fails the regular expression; an address equal to the known one is never flagged |
| `AccountSettings.PersonalPhoneRule` | src/components/usersetting.tsx:121-123 | `phone` gets "Phone number is too long" exactly when it is non-empty and longer than 15 UTF-16 code units |
| `AccountSettings.PhoneLimitInCharacters` | src/components/usersetting.tsx:121-123 | for a phone of basic-plane characters, 16 or more characters are always flagged and 15 or fewer never |
| `AccountSettings.SecurityOldPasswordRule` | src/components/usersetting.tsx:124-128 | `old_password` gets "Old password is required when setting new password" exactly when it is empty and the new password is not |
| `AccountSettings.SecurityNewPasswordRule` | src/components/usersetting.tsx:124-134 | `new_password` is flagged exactly when it is empty beside an old password ("New password is required") or non-empty and shorter than 6 ("Password must be at least 6 characters") |
| `AccountSettings.SecurityEmptyPasswordsPass` | src/components/usersetting.tsx:125-136 | with both password fields empty the security tab produces no error |
| `AccountSettings.SecurityExamples` | src/components/usersetting.tsx:124-135 | old `""` with new `"abc123"` yields only the old-password error; old `"x"` with new `"ab"` yields only the too-short error |
| `AccountSettings.SecurityValidExactly` | src/components/usersetting.tsx:124-139 | the security tab passes exactly when both passwords are filled or both empty and a filled new password has at least 6 code units |
| `AccountSettings.ValidSecurityFormPairsPasswords` | src/components/usersetting.tsx:164-169 | a security form that passed validation sends both passwords or neither |
| `AccountSettings.PersonalTabSendsLoneOldPassword` | src/components/usersetting.tsx:113-166 | a form holding only an old password passes the personal tab and its payload carries that password without a new one |
| `AccountSettings.InPayload` | src/components/usersetting.tsx:156-169 | the condition under which each field is put in the payload: email when non-empty and not `user?.email`, phone when not `user?.phone`, a password when non-empty; spelled out per field by `MinimalDiffFields` |
| `AccountSettings.MinimalDiff` | src/components/usersetting.tsx:154-169 | the payload `handleSubmit` builds: every value it carries is the form's value for that field; characterised by `MinimalDiffFields` and `NoChangesExactly`, and built field by field by `BuildPayload` |
| `AccountSettings.MinimalDiffFields` | src/components/usersetting.tsx:154-169 | email is sent iff non-empty and different from `user?.email`; phone iff different from `user?.phone`; each password iff non-empty; each with its form value |
| `AccountSettings.NoChangesExactly` | src/components/usersetting.tsx:154-175 | the payload is empty exactly when a user is known, the phone equals the known one, the e-mail is empty or known, and both passwords are empty |
| `AccountSettings.NoUserAlwaysSends` | src/components/usersetting.tsx:160-162 | with no known user the phone is always sent, so the payload is never empty |
| `AccountSettings.EmailOnlyChange` | src/components/usersetting.tsx:156-169 | a changed e-mail with the phone unchanged and no passwords sends only `email` |
| `AccountSettings.UserOf` | src/components/usersetting.tsx:56-60 | the user record built from a profile reply (also at lines 213-217): id and email as received, and a phone that is always defined, the received one when non-empty and `""` otherwise |
| `AccountSettings.CaughtMessage` | src/components/usersetting.tsx:222 | the error banner set in the `catch`: the thrown message when non-empty, else "An error occurred"; never empty |
| `AccountSettings.RejectionMessage` | src/components/usersetting.tsx:189 | the message thrown for a non-2xx reply: its `detail` when non-empty, else "Failed to update user information"; never empty |
| `AccountSettings.SuccessMessage` | src/components/usersetting.tsx:192 | the success banner: the reply's `message` when non-empty, else "Information updated successfully!"; never empty |
| `AccountSettings.RejectedUpdateMessage` | src/components/usersetting.tsx:188-222 | after a non-2xx reply the error banner is the reply's `detail` when there is one and "Failed to update user information" otherwise |
| `UserSettingsScreen.UserSettings.constructor` | src/components/usersetting.tsx:21-37 | the initial state: no user, not loading, empty banners, personal tab, empty form, no errors |
| `UserSettingsScreen.UserSettings.LoadProfile` | src/components/usersetting.tsx:54-66 | a profile reply replaces the user mirror (missing phone as `""`) and resets email and phone of the form, leaving the passwords |
| `UserSettingsScreen.UserSettings.HandleInputChange` | src/components/usersetting.tsx:95-108 | the edited field takes the value, the other fields stay, and only that field's error entry is cleared |
| `UserSettingsScreen.UserSettings.ClearMessages` | src/components/usersetting.tsx:228-231 | both banners become empty |
| `UserSettingsScreen.UserSettings.SelectTab` | src/components/usersetting.tsx:391-394 | the tab changes and both banners are cleared; the form and the errors are untouched |
| `UserSettingsScreen.UserSettings.ValidateForm` | src/components/usersetting.tsx:110-140 | the error map is replaced wholesale by the active tab's errors and the result is true exactly when that map is empty |
| `UserSettingsScreen.UserSettings.BuildPayload` | src/components/usersetting.tsx:154-169 | the payload filled in field by field is exactly the minimal diff of the form against the known user |
| `UserSettingsScreen.UserSettings.BeginSubmit` | src/components/usersetting.tsx:142-177 | an invalid form changes only the errors; an empty diff shows "No changes detected", ends loading and sends nothing; otherwise the banners are cleared, loading starts and the diff is sent with the current tab |
| `UserSettingsScreen.UserSettings.FinishSubmit` | src/components/usersetting.tsx:186-225 | a failure sets the error banner (detail or fallback, exception message or fallback) and nothing else; a success sets the success banner, empties only the two password fields when sent from the security tab, applies the profile refresh, and shows a refresh exception in the error banner; loading always ends |

## Left out

- The profile fetch on mount (src/components/usersetting.tsx:40-76) is left out as asynchronous network I/O. Only its successful reply is modelled, as `LoadProfile`. The token test, the `isLoadingUser` flag and the logged failure are not modelled.
- The auth-context sync effect (src/components/usersetting.tsx:83-93) is left out. It races with the mount fetch, and no order between the two is defined.
- `handleBack` (src/components/usersetting.tsx:79-81) is left out. It is only an external router call.
- The JSX, the styles, the animations and the `Math.random` particle layout (src/components/usersetting.tsx:233-1169) are left out. They are presentation only.
- BeginSubmit: models `handleSubmit` as always invoked. The browser's built-in constraint check of the `type="email"` input (src/components/usersetting.tsx:604-608, inside a form without `noValidate` at line 551) is not modelled. That check blocks the submit before `handleSubmit` runs when the address is non-empty and not a valid HTML e-mail address (for example "a b@c.d"). In the running screen, the "Please enter a valid email address" error of `PersonalEmailRule` therefore appears only for addresses the browser accepts and the regular expression rejects (for example "a@b").
- src/api/apiConfig.tsx is not part of this model. It is a table of URL constants.
- `fetch`, the request headers, `JSON.stringify` and `response.json()` are left out as browser APIs. Their effect is the `UpdateResponse` and `RefreshResponse` inputs. A body that fails to parse is an `Exception`.
- FinishSubmit: covers the rest of `handleSubmit` as one step. Events that arrive between reading the update's body and the refresh reply are not interleaved with it.
- BeginSubmit: the disabled submit button while `loading` (src/components/usersetting.tsx:1001) is not a precondition. A second submit while one is pending is not excluded.
- HandleInputChange: the source writes `undefined` under the edited key, and the model removes the key instead. Only the entry's truthiness is ever read, so nothing observable differs.
- A `detail` or `message` in a server reply that is not a string is not modelled. Such a value would be converted with `String(...)`, while the model carries strings only.
- Unmounting the screen while a request is pending is not modelled.
