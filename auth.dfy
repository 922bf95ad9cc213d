/** Sign-up and login: password strength and username format rules, the
    users table with account creation and authentication, and the checks
    the login and sign-up forms make before calling them.  Password hashing
    is a caller-supplied function standing for SHA-256. */
module Auth {
  import opened Wrappers
  import Text
  import Tables

  /** A row of `users`; `isActive` is the `is_active` integer column. */
  datatype User = User(id: int, username: string, passwordHash: string, fullName: string, role: string,
                       lastLogin: int, isActive: int)

  /** What `authenticate_user` returns about the user. */
  datatype UserInfo = UserInfo(id: int, username: string, fullName: string, role: string)

  /** The roles the `CHECK` on `users.role` allows. */
  const Roles: set<string> := {"analyst", "supervisor", "admin"}

  const UsernameTaken: string := "Username already exists. Please choose another one."

  function Username(u: User): string { u.username }
  function UserId(u: User): int { u.id }

  predicate HasUpper(s: string) { exists i :: 0 <= i < |s| && Text.IsUpper(s[i]) }
  predicate HasLower(s: string) { exists i :: 0 <= i < |s| && Text.IsLower(s[i]) }
  predicate HasDigit(s: string) { exists i :: 0 <= i < |s| && Text.IsDigit(s[i]) }

  /** The password is strong: eight characters or more, with an uppercase
      letter, a lowercase letter and a digit. */
  predicate StrongPassword(p: string) {
    |p| >= 8 && HasUpper(p) && HasLower(p) && HasDigit(p)
  }

  /** `validate_password`: the checks run in the order length, uppercase,
      lowercase, digit, and the first one that fails gives the message. */
  function ValidatePassword(p: string): (r: (bool, string))
    ensures r.0 <==> StrongPassword(p)
    ensures r.0 <==> r.1 == ""
    ensures |p| < 8 ==> r.1 == "Password must be at least 8 characters long"
    ensures |p| >= 8 && !HasUpper(p) ==> r.1 == "Password must contain at least one uppercase letter"
    ensures |p| >= 8 && HasUpper(p) && !HasLower(p) ==> r.1 == "Password must contain at least one lowercase letter"
    ensures |p| >= 8 && HasUpper(p) && HasLower(p) && !HasDigit(p) ==> r.1 == "Password must contain at least one digit"
  {
    if |p| < 8 then (false, "Password must be at least 8 characters long")
    else if !HasUpper(p) then (false, "Password must contain at least one uppercase letter")
    else if !HasLower(p) then (false, "Password must contain at least one lowercase letter")
    else if !HasDigit(p) then (false, "Password must contain at least one digit")
    else (true, "")
  }

  predicate AllWordChars(s: string) { forall i :: 0 <= i < |s| ==> Text.IsWordChar(s[i]) }

  /** `re.match(r'^[a-zA-Z0-9_]+$', s)` as Python evaluates it: `$` also
      matches before a newline that ends the string. */
  predicate UsernameFormatAsWritten(s: string) {
    (|s| >= 1 && AllWordChars(s)) || (|s| >= 2 && s[|s| - 1] == '\n' && AllWordChars(s[..|s| - 1]))
  }

  /** The intended format: one or more letters, digits and underscores and
      nothing else (`re.fullmatch`, or `\Z` for `$`). */
  predicate UsernameFormat(s: string) {
    |s| >= 1 && AllWordChars(s)
  }

  /** As written, a name with a trailing newline passes the format check and
      the length check counts the newline: "abc\n" is a 4-character name
      that passes both, and so does "abcd\n"; the intended check rejects
      both.  Otherwise the two agree. */
  lemma TrailingNewlineAcceptedAsWritten()
    ensures UsernameFormatAsWritten("abc\n") && |"abc\n"| >= 4 && !UsernameFormat("abc\n")
    ensures forall s :: UsernameFormatAsWritten(s) <==>
                          UsernameFormat(s) || (|s| >= 2 && s[|s| - 1] == '\n' && UsernameFormat(s[..|s| - 1]))
  {
    var s := "abc\n";
    assert AllWordChars(s[..3]) by {
      assert s[..3] == "abc";
    }
    assert !Text.IsWordChar(s[3]);
  }

  /** An accepted name holds no character outside letters, digits and `_`,
      so in particular no newline. */
  lemma UsernameFormatChars(s: string)
    requires UsernameFormat(s)
    ensures forall i :: 0 <= i < |s| ==> s[i] != '\n' && Text.IsWordChar(s[i])
  {
  }

  /** A user table, with the last id `AUTOINCREMENT` handed out. */
  class UserStore {
    var users: seq<User>
    var lastId: int

    /** Usernames are `UNIQUE`, ids are keys below the next one, and roles
        meet their `CHECK`. */
    ghost predicate Valid()
      reads this
    {
      Tables.UniqueKeys(users, Username) && Tables.UniqueKeys(users, UserId)
      && (forall i :: 0 <= i < |users| ==> users[i].id <= lastId && users[i].role in Roles)
    }

    /** `init_auth_database` on a file without a users table. */
    constructor ()
      ensures users == [] && lastId == 0
      ensures Valid()
    {
      users, lastId := [], 0;
    }

    /** `validate_username`: length, then format, then whether the name is
        taken, and the first failure's message. */
    function ValidateUsername(name: string): (r: (bool, string))
      reads this
      ensures r.0 <==> |name| >= 4 && UsernameFormat(name) && !Tables.HasKey(users, Username, name)
      ensures r.0 <==> r.1 == ""
      ensures |name| < 4 ==> r.1 == "Username must be at least 4 characters long"
      ensures |name| >= 4 && !UsernameFormat(name) ==> r.1 == "Username can only contain letters, numbers, and underscores"
      ensures |name| >= 4 && UsernameFormat(name) && Tables.HasKey(users, Username, name) ==> r.1 == UsernameTaken
    {
      if |name| < 4 then (false, "Username must be at least 4 characters long")
      else if !UsernameFormat(name) then (false, "Username can only contain letters, numbers, and underscores")
      else if Tables.HasKey(users, Username, name) then (false, UsernameTaken)
      else (true, "")
    }

    /** The row `create_user` inserts. */
    function NewUser(name: string, password: string, fullName: string, role: string, now: int,
                     hash: string -> string): User
      reads this
    {
      User(lastId + 1, name, hash(password), fullName, role, now, 1)
    }

    /** `create_user`: the username is validated before the password and
        nothing is inserted when either fails.  The insert raises an
        `IntegrityError` when the role fails its `CHECK` (reported as a
        taken username) and any other error when the statement fails
        (`failure` holds its text). */
    method CreateUser(name: string, password: string, fullName: string, role: string, now: int,
                      hash: string -> string, failure: Option<string>) returns (ok: bool, message: string)
      modifies this
      ensures var vu := old(ValidateUsername(name));
              var vp := ValidatePassword(password);
              (!vu.0 ==> !ok && message == vu.1)
              && (vu.0 && !vp.0 ==> !ok && message == vp.1)
              && (vu.0 && vp.0 && role !in Roles ==> !ok && message == UsernameTaken)
              && (vu.0 && vp.0 && role in Roles && failure.Some? ==>
                    !ok && message == "Error creating user: " + failure.value)
              && (ok <==> vu.0 && vp.0 && role in Roles && failure.None?)
      ensures ok ==> message == "User created successfully"
                     && users == old(users) + [old(NewUser(name, password, fullName, role, now, hash))]
                     && lastId == old(lastId) + 1
      ensures !ok ==> users == old(users) && lastId == old(lastId)
      ensures old(Valid()) ==> Valid()
    {
      var vu := ValidateUsername(name);
      if !vu.0 {
        return false, vu.1;
      }
      var vp := ValidatePassword(password);
      if !vp.0 {
        return false, vp.1;
      }
      if role !in Roles {
        return false, UsernameTaken;
      }
      if failure.Some? {
        return false, "Error creating user: " + failure.value;
      }
      var row := NewUser(name, password, fullName, role, now, hash);
      if Valid() {
        UniqueAfterInsert(users, row, lastId);
      }
      users := users + [row];
      lastId := lastId + 1;
      ok, message := true, "User created successfully";
    }

    /** `authenticate_user`: the first active row with that name and the
        password's hash; on success its `last_login` becomes `now`. */
    method AuthenticateUser(name: string, password: string, now: int, hash: string -> string)
      returns (ok: bool, info: Option<UserInfo>)
      modifies this
      ensures var found := FindLogin(old(users), name, hash(password));
              (ok <==> found.Some?) && (ok <==> info.Some?)
              && (found.Some? ==> info.value == InfoOf(old(users)[found.value])
                                  && users == LoggedIn(old(users), old(users)[found.value].id, now))
              && (found.None? ==> users == old(users))
      ensures lastId == old(lastId)
      ensures old(Valid()) ==> Valid()
    {
      var found := FindLogin(users, name, hash(password));
      if found.None? {
        return false, None;
      }
      var row := users[found.value];
      LoggedInFacts(users, row.id, now);
      users := LoggedIn(users, row.id, now);
      ok, info := true, Some(InfoOf(row));
    }

    /** The login form: with either field empty it shows an error and never
        reaches `authenticate_user`; otherwise the session gets the user's
        info when the login succeeds. */
    method SubmitLogin(name: string, password: string, now: int, hash: string -> string)
      returns (message: string, session: Option<UserInfo>)
      modifies this
      ensures !LoginAttempted(name, password) ==>
                message == "Please provide both username and password" && session.None? && users == old(users)
      ensures LoginAttempted(name, password) ==>
                var found := FindLogin(old(users), name, hash(password));
                (session.Some? <==> found.Some?)
                && (found.Some? ==> session.value == InfoOf(old(users)[found.value])
                                    && message == "Welcome, " + old(users)[found.value].fullName + "!"
                                    && users == LoggedIn(old(users), old(users)[found.value].id, now))
                && (found.None? ==> message == "Invalid username or password" && users == old(users))
      ensures lastId == old(lastId)
      ensures old(Valid()) ==> Valid()
    {
      if !LoginAttempted(name, password) {
        return "Please provide both username and password", None;
      }
      var ok, info := AuthenticateUser(name, password, now, hash);
      if ok {
        message, session := "Welcome, " + info.value.fullName + "!", info;
      } else {
        message, session := "Invalid username or password", None;
      }
    }
  }

  /** Adding a row with a fresh id and an untaken name keeps both keys. */
  lemma UniqueAfterInsert(users: seq<User>, row: User, lastId: int)
    requires Tables.UniqueKeys(users, Username) && Tables.UniqueKeys(users, UserId)
    requires forall i :: 0 <= i < |users| ==> users[i].id <= lastId
    requires row.id == lastId + 1 && !Tables.HasKey(users, Username, row.username)
    ensures Tables.UniqueKeys(users + [row], Username) && Tables.UniqueKeys(users + [row], UserId)
  {
    var r := users + [row];
    forall i, j | 0 <= i < j < |r| ensures Username(r[i]) != Username(r[j]) && UserId(r[i]) != UserId(r[j]) {
      if j == |users| {
        assert r[i] == users[i];
      } else {
        assert r[i] == users[i] && r[j] == users[j];
      }
    }
  }

  function InfoOf(u: User): UserInfo { UserInfo(u.id, u.username, u.fullName, u.role) }

  /** The row a login uses: `WHERE username = ? AND password_hash = ? AND
      is_active = 1`, the first match. */
  predicate LoginMatches(u: User, name: string, digest: string) {
    u.username == name && u.passwordHash == digest && u.isActive == 1
  }

  function FindLogin(users: seq<User>, name: string, digest: string): (r: Option<nat>)
    ensures r.None? <==> forall i :: 0 <= i < |users| ==> !LoginMatches(users[i], name, digest)
    ensures r.Some? ==> r.value < |users| && LoginMatches(users[r.value], name, digest)
                        && forall i :: 0 <= i < r.value ==> !LoginMatches(users[i], name, digest)
  {
    if users == [] then None
    else if LoginMatches(users[0], name, digest) then Some(0)
    else
      var rest := FindLogin(users[1..], name, digest);
      assert forall i :: 0 < i < |users| ==> users[i] == users[1..][i - 1];
      if rest.None? then None else Some(rest.value + 1)
  }

  /** `UPDATE users SET last_login = ? WHERE id = ?`. */
  function LoggedIn(users: seq<User>, id: int, now: int): seq<User> {
    seq(|users|, i requires 0 <= i < |users| => if users[i].id == id then users[i].(lastLogin := now) else users[i])
  }

  /** A login changes only the last-login time of the rows with that id. */
  lemma LoggedInFacts(users: seq<User>, id: int, now: int)
    ensures var r := LoggedIn(users, id, now);
            |r| == |users|
            && (forall i :: 0 <= i < |r| ==> r[i] == users[i].(lastLogin := r[i].lastLogin))
            && (forall i :: 0 <= i < |r| ==> (r[i].lastLogin == now || r[i] == users[i]))
            && (forall i :: 0 <= i < |r| && users[i].id != id ==> r[i] == users[i])
            && (forall k :: Tables.HasKey(r, Username, k) <==> Tables.HasKey(users, Username, k))
            && (forall k :: Tables.HasKey(r, UserId, k) <==> Tables.HasKey(users, UserId, k))
            && (Tables.UniqueKeys(users, Username) ==> Tables.UniqueKeys(r, Username))
            && (Tables.UniqueKeys(users, UserId) ==> Tables.UniqueKeys(r, UserId))
  {
    var r := LoggedIn(users, id, now);
    forall k ensures Tables.HasKey(r, Username, k) <==> Tables.HasKey(users, Username, k) {
      if Tables.HasKey(r, Username, k) {
        var i :| 0 <= i < |r| && Username(r[i]) == k;
        assert Username(users[i]) == k;
      }
      if Tables.HasKey(users, Username, k) {
        var i :| 0 <= i < |users| && Username(users[i]) == k;
        assert Username(r[i]) == k;
      }
    }
    forall k ensures Tables.HasKey(r, UserId, k) <==> Tables.HasKey(users, UserId, k) {
      if Tables.HasKey(r, UserId, k) {
        var i :| 0 <= i < |r| && UserId(r[i]) == k;
        assert UserId(users[i]) == k;
      }
      if Tables.HasKey(users, UserId, k) {
        var i :| 0 <= i < |users| && UserId(users[i]) == k;
        assert UserId(r[i]) == k;
      }
    }
    if Tables.UniqueKeys(users, Username) {
      forall i, j | 0 <= i < j < |r| ensures Username(r[i]) != Username(r[j]) {
        assert Username(users[i]) != Username(users[j]);
      }
    }
    if Tables.UniqueKeys(users, UserId) {
      forall i, j | 0 <= i < j < |r| ensures UserId(r[i]) != UserId(r[j]) {
        assert UserId(users[i]) != UserId(users[j]);
      }
    }
  }

  /** A freshly created account logs in with its password and yields its own
      details: no earlier row carries its name. */
  lemma CreatedUserCanLogIn(users: seq<User>, row: User, password: string, hash: string -> string)
    requires !Tables.HasKey(users, Username, row.username)
    requires row.passwordHash == hash(password) && row.isActive == 1
    ensures FindLogin(users + [row], row.username, hash(password)) == Some(|users|)
  {
    var r := users + [row];
    var f := FindLogin(r, row.username, hash(password));
    assert LoginMatches(r[|users|], row.username, hash(password));
  }

  /** An inactive account never logs in, nor does a wrong password. */
  lemma LoginNeedsActiveAndPassword(users: seq<User>, name: string, password: string, hash: string -> string)
    requires forall i :: 0 <= i < |users| && users[i].username == name ==>
               users[i].isActive != 1 || users[i].passwordHash != hash(password)
    ensures FindLogin(users, name, hash(password)).None?
  {
  }

  /** The login form calls `authenticate_user` only with both fields filled. */
  predicate LoginAttempted(name: string, password: string) {
    name != "" && password != ""
  }

  /** The sign-up form's own checks, in order: every field filled, then the
      two passwords equal; None lets the form call `create_user`. */
  function SignupCheck(name: string, password: string, confirm: string, fullName: string): (r: Option<string>)
    ensures r.None? <==> name != "" && password != "" && confirm != "" && fullName != "" && password == confirm
    ensures (name == "" || password == "" || confirm == "" || fullName == "") ==> r == Some("All fields are required")
  {
    if name == "" || password == "" || confirm == "" || fullName == "" then Some("All fields are required")
    else if password != confirm then Some("Passwords do not match")
    else None
  }
}
