/**
 * The login page: both fields are checked for presence, then the credentials are
 * looked up, exactly, in `Login.json`; a match is stored in the session.
 */
module Login {
  import opened Wrappers
  import JsText
  import opened Remote
  import opened Modal

  datatype User = User(username: string, password: string, nama: string)

  /** The field errors; `None` is an absent key. */
  datatype LoginErrors = LoginErrors(username: Option<string>, password: Option<string>)

  const NoLoginErrors: LoginErrors := LoginErrors(None, None)
  const UsernameRequired: string := "Username is required"
  const PasswordRequired: string := "Password is required"

  /**
   * The checks of `handleLogin`: a username of only white space is missing, while a
   * password is missing only when empty (it is not trimmed).
   */
  function ValidateLogin(username: string, password: string): (e: LoginErrors)
    ensures e.username.Some? <==> JsText.IsBlank(username)
    ensures e.password.Some? <==> password == ""
    ensures e.username.Some? ==> e.username.value == UsernameRequired
    ensures e.password.Some? ==> e.password.value == PasswordRequired
  {
    LoginErrors(if JsText.Trim(username) == "" then Some(UsernameRequired) else None,
                if password == "" then Some(PasswordRequired) else None)
  }

  /** A password of spaces passes the check that a username of spaces fails. */
  lemma PasswordNotTrimmed()
    ensures ValidateLogin(" ", " ") == LoginErrors(Some(UsernameRequired), None)
  {
    assert JsText.IsWhiteSpace(" "[0]);
  }

  const LoginPrefix: string := "Error fetching login data: "

  /** `fetchLoginData`: the users of `Login.json`, a single object read as one user. */
  function LoadLoginData(response: Response<Json<User>>): (r: Result<seq<User>>)
    ensures r.Success? <==> response.Ok?
    ensures response.Ok? ==> r.value == AsList(response.body)
    ensures response.NotOk? ==> r.error == LoginPrefix + "Failed to fetch Login.json"
    ensures response.Rejected? ==> r.error == LoginPrefix + response.message
  {
    var inner := match response
      case Ok(content) => Success(AsList(content))
      case NotOk(_) => Failure("Failed to fetch Login.json")
      case Rejected(m) => Failure(m);
    Rethrow(LoginPrefix, inner)
  }

  predicate Credentials(user: User, username: string, password: string) {
    user.username == username && user.password == password
  }

  /** `loginData.find(...)`: the first user with exactly these credentials. */
  function FindUser(users: seq<User>, username: string, password: string): (r: Option<User>)
    ensures r.None? <==> forall i :: 0 <= i < |users| ==> !Credentials(users[i], username, password)
    ensures r.Some? ==> Credentials(r.value, username, password)
    ensures r.Some? ==> exists i :: 0 <= i < |users| && users[i] == r.value
    decreases |users|
  {
    if users == [] then None
    else if Credentials(users[0], username, password) then Some(users[0])
    else
      var r := FindUser(users[1..], username, password);
      assert forall i :: 0 < i < |users| ==> users[i] == users[1..][i - 1];
      r
  }

  /** The user found is the first with these credentials: no earlier user has them. */
  lemma {:induction false} FindUserFirst(users: seq<User>, username: string, password: string) returns (i: nat)
    requires FindUser(users, username, password).Some?
    ensures i < |users| && users[i] == FindUser(users, username, password).value
    ensures forall k :: 0 <= k < i ==> !Credentials(users[k], username, password)
    decreases |users|
  {
    if Credentials(users[0], username, password) {
      i := 0;
    } else {
      var j := FindUserFirst(users[1..], username, password);
      i := j + 1;
    }
  }

  const InvalidCredentials: string := "Invalid username or password"

  /** The lookup after the token: the matching user, or the message the modal shows. */
  function Authenticate(tokenResponse: Response<string>, loginResponse: Response<Json<User>>,
                        username: string, password: string): (r: Result<User>)
    ensures r.Success? <==>
      && tokenResponse.Ok? && loginResponse.Ok?
      && exists i :: 0 <= i < |AsList(loginResponse.body)| && Credentials(AsList(loginResponse.body)[i], username, password)
    ensures r.Success? ==> Credentials(r.value, username, password)
    ensures tokenResponse.Ok? && loginResponse.Ok? && r.Failure? ==> r.error == InvalidCredentials
    ensures !tokenResponse.Ok? ==> r == Failure("Error: " + TokenResult(tokenResponse).error)
    ensures tokenResponse.Ok? && !loginResponse.Ok? ==> r == Failure("Error: " + LoadLoginData(loginResponse).error)
  {
    match TokenResult(tokenResponse)
    case Failure(e) => Failure("Error: " + e)
    case Success(_) =>
      match LoadLoginData(loginResponse)
      case Failure(e) => Failure("Error: " + e)
      case Success(users) =>
        match FindUser(users, username, password)
        case None => Failure(InvalidCredentials)
        case Some(user) => Success(user)
  }

  /** The page state: the two fields, their errors, the modal, and the session's user. */
  class LoginPage {
    var username: string
    var password: string
    var errors: LoginErrors
    var modal: ModalState
    /** The `user` entry of the session storage. */
    var sessionUser: Option<User>

    constructor()
      ensures username == "" && password == "" && errors == NoLoginErrors && modal == Closed && sessionUser == None
    {
      username, password, errors, modal, sessionUser := "", "", NoLoginErrors, Closed, None;
    }

    method SetUsername(value: string)
      modifies this
      ensures username == value && password == old(password) && errors == old(errors)
      ensures modal == old(modal) && sessionUser == old(sessionUser)
    {
      username := value;
    }

    method SetPassword(value: string)
      modifies this
      ensures password == value && username == old(username) && errors == old(errors)
      ensures modal == old(modal) && sessionUser == old(sessionUser)
    {
      password := value;
    }

    /**
     * `handleLogin`, with the two answers as inputs: missing fields stop it before
     * any request; otherwise the session holds the user exactly when these
     * credentials match a user of `Login.json`.
     */
    method HandleLogin(tokenResponse: Response<string>, loginResponse: Response<Json<User>>)
      modifies this
      ensures username == old(username) && password == old(password)
      ensures errors == ValidateLogin(username, password)
      ensures errors != NoLoginErrors ==> modal == Show(ErrorModal, FillRequired) && sessionUser == old(sessionUser)
      ensures errors == NoLoginErrors ==>
        var outcome := Authenticate(tokenResponse, loginResponse, username, password);
        && (outcome.Success? ==>
              sessionUser == Some(outcome.value)
              && modal == Show(SuccessModal, "Welcome, " + outcome.value.nama + "! Redirecting..."))
        && (outcome.Failure? ==> sessionUser == old(sessionUser) && modal == Show(ErrorModal, outcome.error))
    {
      Settle(ValidateLogin(username, password), Authenticate(tokenResponse, loginResponse, username, password));
    }

    /**
     * The state `handleLogin` leaves, given the field check and what the lookup would
     * answer: the lookup counts only when no field is missing.
     */
    method Settle(checked: LoginErrors, outcome: Result<User>)
      modifies this
      ensures username == old(username) && password == old(password) && errors == checked
      ensures checked != NoLoginErrors ==> modal == Show(ErrorModal, FillRequired) && sessionUser == old(sessionUser)
      ensures checked == NoLoginErrors ==>
        && (outcome.Success? ==>
              sessionUser == Some(outcome.value)
              && modal == Show(SuccessModal, "Welcome, " + outcome.value.nama + "! Redirecting..."))
        && (outcome.Failure? ==> sessionUser == old(sessionUser) && modal == Show(ErrorModal, outcome.error))
    {
      errors := checked;
      if checked != NoLoginErrors {
        modal := Show(ErrorModal, FillRequired);
        return;
      }
      modal := Show(LoadingModal, "Logging in...");
      if outcome.Success? {
        sessionUser := Some(outcome.value);
        modal := Show(SuccessModal, "Welcome, " + outcome.value.nama + "! Redirecting...");
      } else {
        modal := Show(ErrorModal, outcome.error);
      }
    }

    /** `closeModal`. */
    method CloseModal()
      modifies this
      ensures modal == Closed
      ensures username == old(username) && password == old(password) && errors == old(errors)
      ensures sessionUser == old(sessionUser)
    {
      modal := Closed;
    }
  }
}
