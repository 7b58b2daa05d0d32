/**
 * The login screen: one form for two roles, the input guards run before any
 * request is sent, the message shown when the backend refuses, and the role
 * switch that empties the form.
 */
module Login {
  import opened Wrappers
  import opened Values
  import opened Text

  datatype Role = Admin | Student

  /** `Alert.alert(title, message)` */
  datatype Alert = Alert(title: string, message: string)

  /** The request `handleLogin` hands to the shared context once the guards pass. */
  datatype Request = AdminLogin(username: string, password: string) | StudentLogin(name: string, registerNo: string)

  /** The backend's answer as the screen reads it: `response.status` and `response.message`. */
  datatype Reply = Reply(status: Value, message: MaybeStr)

  const UsernameMissing := Alert("Required Field", "Please enter your username")
  const PasswordMissing := Alert("Required Field", "Please enter your password")
  const NameMissing := Alert("Required Field", "Please enter your name")
  const RegisterNoMissing := Alert("Required Field", "Please enter your register number")
  const RegisterNoFormat := Alert("Invalid Format", "Register number must contain only digits")

  /** The administrator's guards: the first failing one is reported. */
  function AdminGuard(username: string, password: string): Option<Alert>
  {
    if IsBlank(username) then Some(UsernameMissing)
    else if IsBlank(password) then Some(PasswordMissing)
    else None
  }

  /** The student's guards, first failure wins; the digits test sees the untrimmed register number. */
  function StudentGuard(name: string, registerNo: string): Option<Alert>
  {
    if IsBlank(name) then Some(NameMissing)
    else if IsBlank(registerNo) then Some(RegisterNoMissing)
    else if !MatchesDigits(registerNo) then Some(RegisterNoFormat)
    else None
  }

  /** The administrator may proceed exactly when neither field is blank; a blank username is always the one reported. */
  lemma AdminGuardIff(username: string, password: string)
    ensures AdminGuard(username, password).None? <==> !IsBlank(username) && !IsBlank(password)
    ensures IsBlank(username) ==> AdminGuard(username, password) == Some(UsernameMissing)
    ensures !IsBlank(username) && IsBlank(password) ==> AdminGuard(username, password) == Some(PasswordMissing)
  {
  }

  /** A student may proceed exactly when the name is not blank and the register number is all digits. */
  lemma StudentGuardIff(name: string, registerNo: string)
    ensures StudentGuard(name, registerNo).None? <==> !IsBlank(name) && MatchesDigits(registerNo)
    ensures IsBlank(name) ==> StudentGuard(name, registerNo) == Some(NameMissing)
    ensures !IsBlank(name) && IsBlank(registerNo) ==> StudentGuard(name, registerNo) == Some(RegisterNoMissing)
    ensures !IsBlank(name) && !IsBlank(registerNo) && !MatchesDigits(registerNo) ==>
      StudentGuard(name, registerNo) == Some(RegisterNoFormat)
  {
    if MatchesDigits(registerNo) {
      DigitsAreNotBlank(registerNo);
    }
  }

  /** A register number with a surrounding space passes the blank check but fails the digits check. */
  lemma PaddedRegisterNoRejected(name: string, digits: string)
    requires !IsBlank(name) && MatchesDigits(digits)
    ensures StudentGuard(name, " " + digits) == Some(RegisterNoFormat)
    ensures StudentGuard(name, digits + " ") == Some(RegisterNoFormat)
  {
    DigitsAreNotBlank(digits);
    BlankIffAllSpace(digits);
    BlankIffAllSpace(" " + digits);
    BlankIffAllSpace(digits + " ");
    assert !IsSpace(digits[0]);
    assert (" " + digits)[1] == digits[0];
    assert (digits + " ")[0] == digits[0];
    assert !IsDigit((" " + digits)[0]);
    assert !IsDigit((digits + " ")[|digits|]);
  }

  /** The message after a refused login: the backend's own message, else the role's fallback. */
  function ReplyAlert(role: Role, response: Option<Reply>): Option<Alert>
  {
    if response.Some? && response.value.status == Str("success") then None
    else
      var fallback := if role == Admin then "Invalid credentials" else "Invalid name or register number";
      Some(Alert("Login Failed", OrStr(if response.Some? then response.value.message else None, fallback)))
  }

  /** Only a reply whose status is 'success' is accepted; every other reply shows a non-empty message. */
  lemma ReplyAlertIff(role: Role, response: Option<Reply>)
    ensures ReplyAlert(role, response).None? <==> response.Some? && response.value.status == Str("success")
    ensures ReplyAlert(role, response).Some? ==>
      ReplyAlert(role, response).value.title == "Login Failed" && |ReplyAlert(role, response).value.message| > 0
    ensures response.Some? && response.value.status != Str("success") && TruthyStr(response.value.message) ==>
      ReplyAlert(role, response) == Some(Alert("Login Failed", response.value.message.value))
    ensures ReplyAlert(role, response).Some? && !(response.Some? && TruthyStr(response.value.message)) ==>
      ReplyAlert(role, response).value.message ==
        (if role == Admin then "Invalid credentials" else "Invalid name or register number")
  {
  }

  /** The `catch`: the thrown error's message, else the shared error, else a generic text. */
  function CatchAlert(errMessage: MaybeStr, contextError: MaybeStr): (a: Alert)
    ensures a.title == "Login Failed" && |a.message| > 0
    ensures TruthyStr(errMessage) ==> a.message == errMessage.value
    ensures !TruthyStr(errMessage) && TruthyStr(contextError) ==> a.message == contextError.value
    ensures !TruthyStr(errMessage) && !TruthyStr(contextError) ==> a.message == "Unknown error occurred"
  {
    Alert("Login Failed", if TruthyStr(errMessage) then errMessage.value else OrStr(contextError, "Unknown error occurred"))
  }

  /** The screen's state: the selected role, the four inputs, and whether the shared error is set. */
  class Screen {
    var role: Role
    var username: string
    var password: string
    var name: string
    var registerNo: string
    var hasError: bool

    constructor(contextError: bool)
      ensures role == Admin && username == "" && password == "" && name == "" && registerNo == ""
      ensures hasError == contextError
    {
      role := Admin;
      username, password, name, registerNo := "", "", "", "";
      hasError := contextError;
    }

    /** The role buttons: select the role, empty all four inputs, clear the shared error. */
    method SwitchRole(r: Role)
      modifies this
      ensures role == r && username == "" && password == "" && name == "" && registerNo == ""
      ensures !hasError
    {
      role := r;
      username := "";
      password := "";
      name := "";
      registerNo := "";
      if hasError {
        hasError := false;
      }
    }

    /** `handleLogin` up to the request: clear the shared error, run the role's guards, and either alert or send. */
    method HandleLogin() returns (request: Option<Request>, alert: Option<Alert>)
      modifies this
      ensures !hasError
      ensures role == old(role) && username == old(username) && password == old(password)
      ensures name == old(name) && registerNo == old(registerNo)
      ensures role == Admin ==> alert == AdminGuard(username, password)
      ensures role == Student ==> alert == StudentGuard(name, registerNo)
      ensures request.Some? <==> alert.None?
      ensures request.Some? ==> request.value == if role == Admin then AdminLogin(username, password) else StudentLogin(name, registerNo)
    {
      if hasError {
        hasError := false;
      }
      alert := if role == Admin then AdminGuard(username, password) else StudentGuard(name, registerNo);
      if alert.Some? {
        return None, alert;
      }
      request := Some(if role == Admin then AdminLogin(username, password) else StudentLogin(name, registerNo));
    }
  }
}
