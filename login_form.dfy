/** The sign-in screen (LoginForm.tsx): the in-memory user directory, the
    e-mail form in its log-in and sign-up modes, and the Google button. */
module Login {
  import opened Types

  const MissingFields: string := "Vui lòng điền đầy đủ thông tin"
  const NameRequired: string := "Vui lòng nhập tên của bạn"
  const EmailTaken: string := "Email đã được sử dụng"
  const UnknownEmail: string := "Email không tồn tại"

  const AvatarBase: string := "https://api.dicebear.com/7.x/avataaars/svg?seed="

  /** The one account the directory starts with. */
  function InitialUsers(): (r: seq<User>)
    ensures |r| == 1 && r[0].id == "user_1" && r[0].email == "dohuynhgiavi@example.com"
    ensures r[0].password == Some("hashed_demo123")
  {
    [User("user_1", "Đỗ Huỳnh Gia Vĩ", "dohuynhgiavi@example.com", Some("hashed_demo123"), Some(AvatarBase + "Giavi"))]
  }

  /** No two accounts share an e-mail address. */
  ghost predicate DistinctEmails(users: seq<User>)
  {
    forall i, j :: 0 <= i < j < |users| ==> users[i].email != users[j].email
  }

  /** `users.find(u => u.email === email)`: the first account with that
      address, if any. */
  function FindByEmail(users: seq<User>, email: string): (r: Option<User>)
    ensures r.None? <==> forall u :: u in users ==> u.email != email
    ensures r.Some? ==> r.value in users && r.value.email == email
  {
    if users == [] then None
    else if users[0].email == email then Some(users[0])
    else FindByEmail(users[1..], email)
  }

  /** The lookup returns the account at the first index with that address. */
  lemma {:induction false} FindByEmailFirst(users: seq<User>, email: string, i: nat)
    requires i < |users| && users[i].email == email
    requires forall j :: 0 <= j < i ==> users[j].email != email
    ensures FindByEmail(users, email) == Some(users[i])
  {
    if i > 0 {
      assert users[0].email != email;
      assert users[1..][i - 1] == users[i];
      FindByEmailFirst(users[1..], email, i - 1);
    }
  }

  /** In a directory without duplicate addresses, the lookup finds the one
      account with that address. */
  lemma FindByEmailUnique(users: seq<User>, i: nat)
    requires DistinctEmails(users) && i < |users|
    ensures FindByEmail(users, users[i].email) == Some(users[i])
  {
    FindByEmailFirst(users, users[i].email, i);
  }

  /** The account a sign-up creates; `stamp` is the text of `Date.now()`. */
  function NewUser(name: string, email: string, password: string, stamp: string): (u: User)
    ensures u.id == "user_" + stamp && u.name == name && u.email == email
    ensures u.password == Some("hashed_" + password)
    ensures u.image == Some(AvatarBase + email)
  {
    User("user_" + stamp, name, email, Some("hashed_" + password), Some(AvatarBase + email))
  }

  datatype Outcome = Failed(message: string) | LoggedIn(user: User)

  /** What submitting the e-mail form yields: the outcome and the directory
      afterwards. */
  datatype Attempt = Attempt(outcome: Outcome, users: seq<User>)

  /** `handleEmailLogin`: the checks in order, then either a new account
      (sign-up) or a lookup by address (log-in). The password is only
      required to be non-empty; it is never compared. */
  function EmailLogin(users: seq<User>, isSignUp: bool, name: string, email: string, password: string, stamp: string): (r: Attempt)
    ensures r.outcome.Failed? ==> r.users == users
    ensures email == "" || password == "" ==> r.outcome == Failed(MissingFields)
    ensures email != "" && password != "" && isSignUp && name == "" ==> r.outcome == Failed(NameRequired)
    ensures email != "" && password != "" && isSignUp && name != "" ==>
              (FindByEmail(users, email).Some? ==> r.outcome == Failed(EmailTaken))
              && (FindByEmail(users, email).None? ==> r == Attempt(LoggedIn(NewUser(name, email, password, stamp)), users + [NewUser(name, email, password, stamp)]))
    ensures email != "" && password != "" && !isSignUp ==>
              r.users == users
              && (FindByEmail(users, email).None? ==> r.outcome == Failed(UnknownEmail))
              && (FindByEmail(users, email).Some? ==> r.outcome == LoggedIn(FindByEmail(users, email).value))
  {
    if email == "" || password == "" then Attempt(Failed(MissingFields), users)
    else if isSignUp then
      if name == "" then Attempt(Failed(NameRequired), users)
      else if FindByEmail(users, email).Some? then Attempt(Failed(EmailTaken), users)
      else
        var u := NewUser(name, email, password, stamp);
        Attempt(LoggedIn(u), users + [u])
    else
      match FindByEmail(users, email)
      case None => Attempt(Failed(UnknownEmail), users)
      case Some(u) => Attempt(LoggedIn(u), users)
  }

  /** Signing up keeps the addresses in the directory distinct. */
  lemma SignUpKeepsEmailsDistinct(users: seq<User>, name: string, email: string, password: string, stamp: string)
    requires DistinctEmails(users)
    ensures DistinctEmails(EmailLogin(users, true, name, email, password, stamp).users)
  {
    var r := EmailLogin(users, true, name, email, password, stamp);
    if r.outcome.LoggedIn? {
      var u := NewUser(name, email, password, stamp);
      assert r.users == users + [u];
      forall i, j | 0 <= i < j < |r.users|
        ensures r.users[i].email != r.users[j].email
      {
        if j == |users| {
          assert users[i] in users;
        } else {
          assert r.users[i] == users[i] && r.users[j] == users[j];
        }
      }
    }
  }

  /** Logging in depends on the password only through its being non-empty. */
  lemma LoginIgnoresPassword(users: seq<User>, name: string, email: string, p: string, q: string, stamp: string)
    requires p != "" && q != ""
    ensures EmailLogin(users, false, name, email, p, stamp) == EmailLogin(users, false, name, email, q, stamp)
  {
  }

  /** A new account can log in at once, with any non-empty password, and
      the log-in returns exactly the account sign-up created. */
  lemma SignUpThenLogIn(users: seq<User>, name: string, email: string, password: string, other: string, stamp: string)
    requires EmailLogin(users, true, name, email, password, stamp).outcome.LoggedIn?
    requires other != ""
    ensures var signed := EmailLogin(users, true, name, email, password, stamp);
            EmailLogin(signed.users, false, "", email, other, stamp) == Attempt(signed.outcome, signed.users)
  {
    var u := NewUser(name, email, password, stamp);
    FindAppended(users, u);
  }

  /** Looking up the address of an account appended to a directory that
      did not have it finds that account. */
  lemma {:induction false} FindAppended(users: seq<User>, u: User)
    requires FindByEmail(users, u.email).None?
    ensures FindByEmail(users + [u], u.email) == Some(u)
  {
    if users != [] {
      assert (users + [u])[1..] == users[1..] + [u];
      FindAppended(users[1..], u);
    } else {
      assert users + [u] == [u];
    }
  }

  /** The Google button's account: always the same address and no
      password; `stamp` is the text of `Date.now()`. */
  function GoogleUser(stamp: string): (u: User)
    ensures u.id == "google_" + stamp && u.email == "user@gmail.com"
    ensures u.name == "Người dùng Google" && u.password.None?
    ensures u.image == Some(AvatarBase + "google")
  {
    User("google_" + stamp, "Người dùng Google", "user@gmail.com", None, Some(AvatarBase + "google"))
  }

  /** The module-level `mockUsers` array: it outlives each form and grows
      with every sign-up. */
  class UserDirectory {
    var users: seq<User>

    constructor()
      ensures users == InitialUsers()
    {
      users := InitialUsers();
    }

    /** `mockUsers.push(u)`. */
    method Push(u: User)
      modifies this
      ensures users == old(users) + [u]
    {
      users := users + [u];
    }
  }

  /** The form's state: its three fields, its mode and its error line. */
  class LoginForm {
    const directory: UserDirectory
    var email: string
    var password: string
    var name: string
    var isSignUp: bool
    var error: string

    constructor(directory: UserDirectory)
      ensures this.directory == directory
      ensures email == "" && password == "" && name == "" && !isSignUp && error == ""
    {
      this.directory := directory;
      email, password, name := "", "", "";
      isSignUp := false;
      error := "";
    }

    /** Typing into the three fields. */
    method SetFields(email: string, password: string, name: string)
      modifies this`email, this`password, this`name
      ensures this.email == email && this.password == password && this.name == name
    {
      this.email, this.password, this.name := email, password, name;
    }

    /** The link under the form: switches between log-in and sign-up and
        clears the error. */
    method ToggleMode()
      modifies this`isSignUp, this`error
      ensures isSignUp == !old(isSignUp) && error == ""
    {
      isSignUp := !isSignUp;
      error := "";
    }

    /** `handleEmailLogin`: clears the error, runs the checks in order,
        and either sets the error or returns the account to log in, pushing
        it onto the directory on sign-up. */
    method HandleEmailLogin(stamp: string) returns (loggedIn: Option<User>)
      modifies this`error, directory
      ensures var r := EmailLogin(old(directory.users), isSignUp, name, email, password, stamp);
              directory.users == r.users
              && (r.outcome.Failed? ==> loggedIn == None && error == r.outcome.message)
              && (r.outcome.LoggedIn? ==> loggedIn == Some(r.outcome.user) && error == "")
    {
      error := "";
      if email == "" || password == "" {
        error := MissingFields;
        return None;
      }
      if isSignUp {
        if name == "" {
          error := NameRequired;
          return None;
        }
        var existing := FindByEmail(directory.users, email);
        if existing.Some? {
          error := EmailTaken;
          return None;
        }
        var u := NewUser(name, email, password, stamp);
        directory.Push(u);
        loggedIn := Some(u);
      } else {
        var u := FindByEmail(directory.users, email);
        if u.None? {
          error := UnknownEmail;
          return None;
        }
        loggedIn := u;
      }
    }

    /** `handleGoogleLogin`: hands over the Google account; the directory
        and the form are untouched. */
    method HandleGoogleLogin(stamp: string) returns (user: User)
      ensures user == GoogleUser(stamp)
      ensures user.email == "user@gmail.com" && user.password.None?
    {
      user := GoogleUser(stamp);
    }
  }
}
