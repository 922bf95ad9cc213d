/** The user profile page: changing one's password after re-entering the
    current one, and changing one's full name, each behind the checks its
    form makes first. */
module UserProfile {
  import opened Wrappers
  import opened Records
  import opened Auth
  import Tables

  /** The first row with that name and password hash (`SELECT id FROM users
      WHERE username = ? AND password_hash = ?`); the active flag is not
      consulted. */
  function FindCredentials(users: seq<User>, name: string, digest: string): (r: Option<nat>)
    ensures r.None? <==> forall i :: 0 <= i < |users| ==> !(users[i].username == name && users[i].passwordHash == digest)
    ensures r.Some? ==> r.value < |users| && users[r.value].username == name && users[r.value].passwordHash == digest
  {
    if users == [] then None
    else if users[0].username == name && users[0].passwordHash == digest then Some(0)
    else
      var rest := FindCredentials(users[1..], name, digest);
      assert forall i :: 0 < i < |users| ==> users[i] == users[1..][i - 1];
      if rest.None? then None else Some(rest.value + 1)
  }

  /** `UPDATE users SET password_hash = ? WHERE id = ?`. */
  function PasswordChanged(users: seq<User>, id: int, digest: string): seq<User> {
    seq(|users|, i requires 0 <= i < |users| => if users[i].id == id then users[i].(passwordHash := digest) else users[i])
  }

  /** `UPDATE users SET full_name = ? WHERE username = ?`. */
  function ProfileUpdated(users: seq<User>, name: string, fullName: string): seq<User> {
    seq(|users|, i requires 0 <= i < |users| => if users[i].username == name then users[i].(fullName := fullName) else users[i])
  }

  /** A password change touches only the hash, and only of the rows with
      that id; names and ids, and so both keys, are kept. */
  lemma PasswordChangedFacts(users: seq<User>, id: int, digest: string)
    ensures var r := PasswordChanged(users, id, digest);
            |r| == |users|
            && (forall i :: 0 <= i < |r| ==> r[i] == users[i].(passwordHash := r[i].passwordHash))
            && (forall i :: 0 <= i < |r| ==> r[i].passwordHash == (if users[i].id == id then digest else users[i].passwordHash))
            && (Tables.UniqueKeys(users, Username) ==> Tables.UniqueKeys(r, Username))
            && (Tables.UniqueKeys(users, UserId) ==> Tables.UniqueKeys(r, UserId))
  {
    var r := PasswordChanged(users, id, digest);
    if Tables.UniqueKeys(users, Username) {
      forall i, j | 0 <= i < j < |r| ensures Username(r[i]) != Username(r[j]) {
        assert Username(users[i]) != Username(users[j]);
      }
    }
    if Tables.UniqueKeys(users, UserId) {
      forall i, j | 0 <= i < j < |r| ensures UserId(r[i]) != UserId(r[j]) {
        assert UserId(users[i]) != UserId(users[j]);
      }
    }
  }

  /** A profile update touches only the full name, and only of the rows
      with that username. */
  lemma ProfileUpdatedFacts(users: seq<User>, name: string, fullName: string)
    ensures var r := ProfileUpdated(users, name, fullName);
            |r| == |users|
            && (forall i :: 0 <= i < |r| ==> r[i] == users[i].(fullName := r[i].fullName))
            && (forall i :: 0 <= i < |r| ==> r[i].fullName == (if users[i].username == name then fullName else users[i].fullName))
            && (Tables.UniqueKeys(users, Username) ==> Tables.UniqueKeys(r, Username))
            && (Tables.UniqueKeys(users, UserId) ==> Tables.UniqueKeys(r, UserId))
  {
    var r := ProfileUpdated(users, name, fullName);
    if Tables.UniqueKeys(users, Username) {
      forall i, j | 0 <= i < j < |r| ensures Username(r[i]) != Username(r[j]) {
        assert Username(users[i]) != Username(users[j]);
      }
    }
    if Tables.UniqueKeys(users, UserId) {
      forall i, j | 0 <= i < j < |r| ensures UserId(r[i]) != UserId(r[j]) {
        assert UserId(users[i]) != UserId(users[j]);
      }
    }
  }

  /** `change_password`: when the current password's hash matches the
      user's row, that row's hash becomes the new password's and the result
      is True; otherwise, or when the database fails, False and nothing
      changes. */
  method ChangePassword(store: UserStore, name: string, current: string, next: string, hash: string -> string,
                        db: DbStatus) returns (ok: bool)
    modifies store
    ensures var found := FindCredentials(old(store.users), name, hash(current));
            (ok <==> db == Works && found.Some?)
            && (ok ==> store.users == PasswordChanged(old(store.users), old(store.users)[found.value].id, hash(next)))
            && (!ok ==> store.users == old(store.users))
    ensures store.lastId == old(store.lastId)
    ensures old(store.Valid()) ==> store.Valid()
  {
    if db != Works {
      return false;
    }
    var found := FindCredentials(store.users, name, hash(current));
    if found.None? {
      return false;
    }
    var id := store.users[found.value].id;
    PasswordChangedFacts(store.users, id, hash(next));
    store.users := PasswordChanged(store.users, id, hash(next));
    ok := true;
  }

  /** `update_profile`: the full name of the rows with that username
      becomes the new one and the result is True, even when no row has the
      name; False and nothing changes when the database fails. */
  method UpdateProfile(store: UserStore, name: string, fullName: string, db: DbStatus) returns (ok: bool)
    modifies store
    ensures ok <==> db == Works
    ensures ok ==> store.users == ProfileUpdated(old(store.users), name, fullName)
    ensures !ok ==> store.users == old(store.users)
    ensures store.lastId == old(store.lastId)
    ensures old(store.Valid()) ==> store.Valid()
  {
    if db != Works {
      return false;
    }
    ProfileUpdatedFacts(store.users, name, fullName);
    store.users := ProfileUpdated(store.users, name, fullName);
    ok := true;
  }

  /** After a password change a user whose row is active logs in with the
      new password, and, when the hash differs, no longer with the old one. */
  lemma NewPasswordLogsIn(users: seq<User>, i: nat, newDigest: string)
    requires Tables.UniqueKeys(users, Username) && Tables.UniqueKeys(users, UserId)
    requires i < |users| && users[i].isActive == 1
    ensures var r := PasswordChanged(users, users[i].id, newDigest);
            FindLogin(r, users[i].username, newDigest) == Some(i)
            && (newDigest != users[i].passwordHash ==> FindLogin(r, users[i].username, users[i].passwordHash).None?)
  {
    var r := PasswordChanged(users, users[i].id, newDigest);
    var name := users[i].username;
    forall j | 0 <= j < |r| && j != i ensures r[j].username != name {
      if j < i {
        assert Username(users[j]) != Username(users[i]);
      } else {
        assert Username(users[i]) != Username(users[j]);
      }
    }
    var f := FindLogin(r, name, newDigest);
    assert LoginMatches(r[i], name, newDigest);
  }

  /** The password form's own checks: every field filled, then the new
      password confirmed; None lets the form call `change_password`. */
  function PasswordFormCheck(current: string, next: string, confirm: string): (r: Option<string>)
    ensures r.None? <==> current != "" && next != "" && confirm != "" && next == confirm
    ensures (current == "" || next == "" || confirm == "") ==> r == Some("All fields are required")
  {
    if current == "" || next == "" || confirm == "" then Some("All fields are required")
    else if next != confirm then Some("New passwords do not match")
    else None
  }

  /** The password form: its checks, then `change_password`, and the message
      shown. */
  method SubmitPasswordChange(store: UserStore, name: string, current: string, next: string, confirm: string,
                              hash: string -> string, db: DbStatus) returns (message: string)
    modifies store
    ensures var check := PasswordFormCheck(current, next, confirm);
            var changed := check.None? && db == Works && FindCredentials(old(store.users), name, hash(current)).Some?;
            (check.Some? ==> message == check.value)
            && (changed ==> message == "Password updated successfully!"
                            && var found := FindCredentials(old(store.users), name, hash(current));
                               store.users == PasswordChanged(old(store.users), old(store.users)[found.value].id, hash(next)))
            && (check.None? && !changed ==> message == "Current password is incorrect")
            && (!changed ==> store.users == old(store.users))
    ensures store.lastId == old(store.lastId)
    ensures old(store.Valid()) ==> store.Valid()
  {
    var check := PasswordFormCheck(current, next, confirm);
    if check.Some? {
      return check.value;
    }
    var ok := ChangePassword(store, name, current, next, hash, db);
    message := if ok then "Password updated successfully!" else "Current password is incorrect";
  }

  /** What the profile form does with the name entered. */
  datatype ProfileAction = RejectEmpty | Write | NoChange

  /** An empty name is rejected, an unchanged name writes nothing, and only
      a different non-empty name is written. */
  function ProfileFormAction(newName: string, currentName: string): (r: ProfileAction)
    ensures r == Write <==> newName != "" && newName != currentName
    ensures r == RejectEmpty <==> newName == ""
  {
    if newName == "" then RejectEmpty
    else if newName != currentName then Write
    else NoChange
  }

  /** The profile form: the current name shown is the stored one, or the
      session's when the row is missing or the read fails; a write happens only for a new
      non-empty name. */
  method SubmitProfile(store: UserStore, name: string, newName: string, sessionName: string, db: DbStatus)
    returns (message: string)
    modifies store
    ensures var shown := if db == Works then CurrentFullName(old(store.users), name, sessionName) else sessionName;
            var action := ProfileFormAction(newName, shown);
            (action == RejectEmpty ==> message == "Name cannot be empty" && store.users == old(store.users))
            && (action == NoChange ==> message == "No changes detected" && store.users == old(store.users))
            && (action == Write && db == Works ==>
                  message == "Profile updated successfully! Please refresh to see changes."
                  && store.users == ProfileUpdated(old(store.users), name, newName))
            && (action == Write && db != Works ==> message == "Error updating profile" && store.users == old(store.users))
    ensures store.lastId == old(store.lastId)
    ensures old(store.Valid()) ==> store.Valid()
  {
    var shown := if db == Works then CurrentFullName(store.users, name, sessionName) else sessionName;
    var action := ProfileFormAction(newName, shown);
    if action == RejectEmpty {
      return "Name cannot be empty";
    }
    if action == NoChange {
      return "No changes detected";
    }
    var ok := UpdateProfile(store, name, newName, db);
    message := if ok then "Profile updated successfully! Please refresh to see changes." else "Error updating profile";
  }

  /** `SELECT full_name FROM users WHERE username = ?`, falling back to the
      session's name when no row has the username. */
  function CurrentFullName(users: seq<User>, name: string, sessionName: string): (r: string)
    ensures (forall i :: 0 <= i < |users| ==> users[i].username != name) ==> r == sessionName
    ensures (exists i :: 0 <= i < |users| && users[i].username == name) ==>
              exists i :: 0 <= i < |users| && users[i].username == name && users[i].fullName == r
  {
    if users == [] then sessionName
    else if users[0].username == name then users[0].fullName
    else
      var r := CurrentFullName(users[1..], name, sessionName);
      assert forall i :: 0 < i < |users| ==> users[i] == users[1..][i - 1];
      r
  }
}
