/** The account settings form (frontend/src/pages/UserSettings.js): the
    guard chains in front of the username and password updates, the
    availability lookup condition, and the form state that the handlers
    update.  Replies of the API requests are method inputs. */
module UserSettings {
  import opened Common

  const EmptyPasswordField := "Bitte alle Passwortfelder ausfüllen"
  const PasswordMismatch := "Neue Passwörter stimmen nicht überein"
  const PasswordTooShort := "Neues Passwort muss mindestens 6 Zeichen lang sein"
  const EmptyUsername := "Benutzername darf nicht leer sein"
  const UsernameTaken := "Dieser Benutzername ist bereits vergeben"
  const PasswordUpdated := "Passwort erfolgreich aktualisiert"
  const UsernameUpdated := "Benutzername erfolgreich aktualisiert"
  const PasswordUpdateFailed := "Failed to update password"
  const UsernameUpdateFailed := "Failed to update username"
  const FetchFailed := "Failed to fetch user information"

  /** The shortest new password the form accepts. */
  const MinPasswordLength := 6

  /** The outcome of a guard chain: go ahead with the request, or show the
      first failing guard's message. */
  datatype Check = Pass | Reject(message: string)

  /** The guards of updatePassword, in order: all three fields filled, new
      and confirmation equal, new password long enough. */
  function PasswordCheck(current: string, newPassword: string, confirm: string): (c: Check)
    ensures c == Pass <==>
              current != "" && newPassword != "" && confirm != "" && newPassword == confirm && |newPassword| >= MinPasswordLength
    ensures current == "" || newPassword == "" || confirm == "" ==> c == Reject(EmptyPasswordField)
    ensures current != "" && newPassword != "" && confirm != "" && newPassword != confirm ==> c == Reject(PasswordMismatch)
    ensures current != "" && newPassword != "" && newPassword == confirm && |newPassword| < MinPasswordLength ==>
              c == Reject(PasswordTooShort)
  {
    if current == "" || newPassword == "" || confirm == "" then Reject(EmptyPasswordField)
    else if newPassword != confirm then Reject(PasswordMismatch)
    else if |newPassword| < MinPasswordLength then Reject(PasswordTooShort)
    else Pass
  }

  /** Only the first failing password guard is reported, for every input:
      a mismatch is reported only when all three fields are filled, and a
      short password only when, in addition, the two new entries agree. */
  lemma PasswordGuardsInOrder(current: string, newPassword: string, confirm: string)
    ensures PasswordCheck(current, newPassword, confirm).Reject? ==>
              PasswordCheck(current, newPassword, confirm).message in {EmptyPasswordField, PasswordMismatch, PasswordTooShort}
    ensures PasswordCheck(current, newPassword, confirm) == Reject(PasswordMismatch) ==>
              current != "" && newPassword != "" && confirm != ""
    ensures PasswordCheck(current, newPassword, confirm) == Reject(PasswordTooShort) ==>
              current != "" && newPassword != "" && confirm != "" && newPassword == confirm
    ensures PasswordCheck("", "abc", "xyz") == Reject(EmptyPasswordField)
    ensures PasswordCheck("old", "abc", "xyz") == Reject(PasswordMismatch)
    ensures PasswordCheck("old", "abc", "abc") == Reject(PasswordTooShort)
  {
  }

  /** The guards of updateUsername, in order: a non-empty name, and the
      last completed availability lookup did not report it taken. */
  function UsernameCheck(newUsername: string, usernameAvailable: bool): (c: Check)
    ensures c == Pass <==> newUsername != "" && usernameAvailable
    ensures newUsername == "" ==> c == Reject(EmptyUsername)
    ensures newUsername != "" && !usernameAvailable ==> c == Reject(UsernameTaken)
  {
    if newUsername == "" then Reject(EmptyUsername)
    else if !usernameAvailable then Reject(UsernameTaken)
    else Pass
  }

  /** The availability lookup runs only for a non-empty name that differs
      from the current one. */
  predicate NeedsAvailabilityCheck(newUsername: string, currentUsername: string) {
    newUsername != "" && newUsername != currentUsername
  }

  /** `error.response?.data?.error || fallback`: the server's message when
      there is a non-empty one. */
  function ErrorText(serverError: Option<string>, fallback: string): (t: string)
    ensures serverError.Some? && serverError.value != "" ==> t == serverError.value
    ensures serverError.None? || serverError.value == "" ==> t == fallback
  {
    if serverError.Some? && serverError.value != "" then serverError.value else fallback
  }

  datatype UserInfo = UserInfo(username: string, email: string)

  /** The reply of an update request: success, or failure with the `error`
      field of the response body when there is one. */
  datatype RequestResult = Succeeded | Failed(serverError: Option<string>)

  /** The form inputs, named as in the form. */
  datatype Field = NewUsername | CurrentPassword | NewPassword | ConfirmPassword

  datatype FormData = FormData(newUsername: string, currentPassword: string,
                               newPassword: string, confirmPassword: string)
  {
    function Get(f: Field): string {
      match f
      case NewUsername => newUsername
      case CurrentPassword => currentPassword
      case NewPassword => newPassword
      case ConfirmPassword => confirmPassword
    }

    /** `{ ...formData, [name]: value }`: the named field replaced. */
    function With(f: Field, value: string): (d: FormData)
      ensures d.Get(f) == value
      ensures forall g :: g != f ==> d.Get(g) == Get(g)
    {
      match f
      case NewUsername => this.(newUsername := value)
      case CurrentPassword => this.(currentPassword := value)
      case NewPassword => this.(newPassword := value)
      case ConfirmPassword => this.(confirmPassword := value)
    }
  }

  class SettingsForm {
    var userInfo: UserInfo
    var formData: FormData
    var loading: bool
    var error: string
    var success: string
    var usernameAvailable: bool

    constructor ()
      ensures userInfo == UserInfo("", "") && formData == FormData("", "", "", "")
      ensures !loading && error == "" && success == "" && usernameAvailable
    {
      userInfo := UserInfo("", "");
      formData := FormData("", "", "", "");
      loading, error, success, usernameAvailable := false, "", "", true;
    }

    /** fetchUserInfo with the reply of GET /api/me: the profile is shown and
        the username field starts from the current name. */
    method FetchUserInfo(reply: Option<UserInfo>)
      modifies this
      ensures reply.Some? ==>
                (userInfo == reply.value &&
                 formData == old(formData).With(NewUsername, reply.value.username) && error == old(error))
      ensures reply.None? ==> userInfo == old(userInfo) && formData == old(formData) && error == FetchFailed
      ensures success == old(success) && loading == old(loading) && usernameAvailable == old(usernameAvailable)
    {
      if reply.Some? {
        userInfo := reply.value;
        formData := formData.With(NewUsername, reply.value.username);
      } else {
        error := FetchFailed;
      }
    }

    /** handleChange: the named field takes the typed value, and both the
        error and the success message are cleared. */
    method HandleChange(field: Field, value: string)
      modifies this
      ensures formData.Get(field) == value
      ensures forall g :: g != field ==> formData.Get(g) == old(formData).Get(g)
      ensures error == "" && success == ""
      ensures userInfo == old(userInfo) && loading == old(loading) && usernameAvailable == old(usernameAvailable)
    {
      formData := formData.With(field, value);
      error := "";
      success := "";
    }

    /** The debounced availability effect: with `reply` the answer of the
        lookup (None when it fails, which only logs). */
    method CheckUsername(reply: Option<bool>)
      modifies this
      ensures NeedsAvailabilityCheck(formData.newUsername, userInfo.username) && reply.Some? ==>
                usernameAvailable == reply.value
      ensures !NeedsAvailabilityCheck(formData.newUsername, userInfo.username) || reply.None? ==>
                usernameAvailable == old(usernameAvailable)
      ensures userInfo == old(userInfo) && formData == old(formData)
      ensures error == old(error) && success == old(success) && loading == old(loading)
    {
      if NeedsAvailabilityCheck(formData.newUsername, userInfo.username) && reply.Some? {
        usernameAvailable := reply.value;
      }
    }

    /** updateUsername: a failing guard sets its message and sends nothing;
        otherwise the request's result sets the success or error message,
        and a success reloads the profile with `refetch`. */
    method UpdateUsername(result: RequestResult, refetch: Option<UserInfo>) returns (sent: bool)
      modifies this
      ensures sent <==> old(UsernameCheck(formData.newUsername, usernameAvailable)) == Pass
      ensures !sent ==>
                (error == old(UsernameCheck(formData.newUsername, usernameAvailable)).message &&
                 success == old(success) && formData == old(formData) && userInfo == old(userInfo))
      ensures sent && result.Succeeded? ==> success == UsernameUpdated
      ensures sent && result.Succeeded? && refetch.Some? ==>
                userInfo == refetch.value && formData.newUsername == refetch.value.username
      ensures sent && result.Failed? ==>
                error == ErrorText(result.serverError, UsernameUpdateFailed) &&
                success == old(success) && formData == old(formData) && userInfo == old(userInfo)
      ensures sent && result.Succeeded? && refetch.None? ==>
                error == FetchFailed && formData == old(formData) && userInfo == old(userInfo)
      ensures sent && result.Succeeded? && refetch.Some? ==> error == old(error)
      ensures sent && result.Succeeded? ==>
                formData.currentPassword == old(formData.currentPassword) &&
                formData.newPassword == old(formData.newPassword) &&
                formData.confirmPassword == old(formData.confirmPassword)
      ensures sent ==> !loading
      ensures !sent ==> loading == old(loading)
      ensures usernameAvailable == old(usernameAvailable)
    {
      var check := UsernameCheck(formData.newUsername, usernameAvailable);
      if check.Reject? {
        error := check.message;
        return false;
      }
      sent := true;
      loading := true;
      if result.Succeeded? {
        success := UsernameUpdated;
        FetchUserInfo(refetch);
      } else {
        error := ErrorText(result.serverError, UsernameUpdateFailed);
      }
      loading := false;
    }

    /** updatePassword: a failing guard sets its message and sends nothing;
        a successful request shows the success message and empties the
        three password fields. */
    method UpdatePassword(result: RequestResult) returns (sent: bool)
      modifies this
      ensures sent <==>
                old(PasswordCheck(formData.currentPassword, formData.newPassword, formData.confirmPassword)) == Pass
      ensures !sent ==>
                error == old(PasswordCheck(formData.currentPassword, formData.newPassword, formData.confirmPassword)).message &&
                success == old(success) && formData == old(formData)
      ensures sent && result.Succeeded? ==>
                success == PasswordUpdated && error == old(error) &&
                formData == old(formData).(currentPassword := "", newPassword := "", confirmPassword := "")
      ensures sent && result.Failed? ==>
                error == ErrorText(result.serverError, PasswordUpdateFailed) &&
                success == old(success) && formData == old(formData)
      ensures sent ==> !loading
      ensures !sent ==> loading == old(loading)
      ensures userInfo == old(userInfo) && usernameAvailable == old(usernameAvailable)
    {
      var check := PasswordCheck(formData.currentPassword, formData.newPassword, formData.confirmPassword);
      if check.Reject? {
        error := check.message;
        return false;
      }
      sent := true;
      loading := true;
      if result.Succeeded? {
        success := PasswordUpdated;
        formData := formData.(currentPassword := "", newPassword := "", confirmPassword := "");
      } else {
        error := ErrorText(result.serverError, PasswordUpdateFailed);
      }
      loading := false;
    }
  }
}
