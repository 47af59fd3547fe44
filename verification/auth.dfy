/** The admin session routes (`/api/auth`): a process-wide set of bearer tokens. */
module Auth {
  import opened Common

  /** The contents of `data/admin.json`. */
  datatype Credentials = Credentials(username: string, password: string)

  /** `username === admin.username && password === admin.password`. */
  predicate Matches(admin: Credentials, username: string, password: string) {
    username == admin.username && password == admin.password
  }

  /** The `adminSessions` set shared by the auth routes. */
  class AdminSessions {
    var tokens: set<string>

    constructor ()
      ensures tokens == {}
    {
      tokens := {};
    }

    /** POST `/login`: on matching credentials register `token` (the 32 random
        bytes in hex the server draws) and answer it. */
    method Login(username: Option<string>, password: Option<string>, admin: Credentials, token: string)
      returns (r: Result<string>)
      modifies this
      ensures !(Given(username) && Given(password)) ==>
        r.Err? && r.error.status == 400 && tokens == old(tokens)
      ensures Given(username) && Given(password) && Matches(admin, username.value, password.value) ==>
        r == Ok(token) && tokens == old(tokens) + {token}
      ensures Given(username) && Given(password) && !Matches(admin, username.value, password.value) ==>
        r.Err? && r.error.status == 401 && tokens == old(tokens)
    {
      if !Given(username) || !Given(password) {
        return Err(BadRequest("Username and password are required"));
      }
      if username.value == admin.username && password.value == admin.password {
        tokens := tokens + {token};
        r := Ok(token);
      } else {
        r := Err(Unauthorized("Invalid credentials"));
      }
    }

    /** GET `/check`: authenticated exactly when the `Authorization` header holds a registered token. */
    method Check(authorization: Option<string>) returns (authenticated: bool)
      ensures authenticated <==> Given(authorization) && authorization.value in tokens
    {
      authenticated := Given(authorization) && authorization.value in tokens;
    }

    /** POST `/logout`: forget the header's token, if any; always a success. */
    method Logout(authorization: Option<string>) returns (success: bool)
      modifies this
      ensures success
      ensures Given(authorization) ==> tokens == old(tokens) - {authorization.value}
      ensures !Given(authorization) ==> tokens == old(tokens)
    {
      if Given(authorization) {
        tokens := tokens - {authorization.value};
      }
      success := true;
    }
  }

  /** A session's life on a fresh set: the token a login answers authenticates
      exactly when the credentials matched, no longer does after logout, and a
      second logout with the same token changes nothing. */
  method SessionLifecycle(username: string, password: string, admin: Credentials, token: string)
    returns (afterLogin: bool, afterLogout: bool, repeatChanged: bool)
    requires username != "" && password != "" && token != ""
    ensures afterLogin <==> Matches(admin, username, password)
    ensures !afterLogout
    ensures !repeatChanged
  {
    var sessions := new AdminSessions();
    var _ := sessions.Login(Some(username), Some(password), admin, token);
    afterLogin := sessions.Check(Some(token));
    var _ := sessions.Logout(Some(token));
    afterLogout := sessions.Check(Some(token));
    var before := sessions.tokens;
    var _ := sessions.Logout(Some(token));
    repeatChanged := sessions.tokens != before;
  }
}
