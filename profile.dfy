/** The "Your Profile" page of both roles: validate the edited name, e-mail
    address and mobile number, optionally a new password and its
    confirmation, then update the user's row of the `users` table. */
module Profile {
  import opened Tickets

  /** One row of the `users` table. */
  datatype User = User(id: int, username: string, email: string, mobile: string, hashedPassword: string, role: string)

  /** What "Update Profile" decides for the entered values. */
  datatype Decision =
    | MissingFields      // "Name, Email and Mobile Number fields are required!"
    | PasswordMismatch   // "Passwords do not match!"
    | WriteFields        // update name, e-mail and mobile only
    | WriteFieldsAndPassword

  /** Rejects when a required field is empty or the two password entries
      differ; writes the credential too only when a password was entered. */
  function Decide(name: string, email: string, phone: string, password: string, confirm: string): (d: Decision)
    ensures d == MissingFields <==> name == "" || email == "" || phone == ""
    ensures d == PasswordMismatch <==>
      name != "" && email != "" && phone != "" && (password != "" || confirm != "") && password != confirm
    ensures d == WriteFields <==>
      name != "" && email != "" && phone != "" && password == "" && confirm == ""
    ensures d == WriteFieldsAndPassword <==>
      name != "" && email != "" && phone != "" && password != "" && password == confirm
  {
    if name == "" || email == "" || phone == "" then MissingFields
    else if password != "" || confirm != "" then
      if password != confirm then PasswordMismatch else WriteFieldsAndPassword
    else WriteFields
  }

  /** A mismatch between password and confirmation is always rejected. */
  lemma MismatchNeverWrites(name: string, email: string, phone: string, password: string, confirm: string)
    requires password != confirm
    ensures Decide(name, email, phone, password, confirm) in {MissingFields, PasswordMismatch}
  {
  }

  /** Outcome of pressing "Update Profile". */
  datatype ProfileOutcome =
    | NotLoggedIn        // the session's user id is falsy
    | UserNotFound
    | Rejected(reason: Decision)
    | Saved(passwordChanged: bool)

  /** `SELECT * FROM users WHERE id = %s` returns a row. */
  predicate HasUser(users: seq<User>, id: int) {
    exists u :: u in users && u.id == id
  }

  /** `UPDATE users SET username, email, mobile_number[, hashed_password] WHERE id = %s`:
      the rows with that id get the new values; `digest` replaces the stored
      credential only when present; nothing else changes. */
  function UpdateUser(users: seq<User>, id: int, name: string, email: string, phone: string, digest: Option<string>): (r: seq<User>)
    ensures |r| == |users|
    ensures forall i :: 0 <= i < |users| && users[i].id != id ==> r[i] == users[i]
    ensures forall i :: 0 <= i < |users| && users[i].id == id ==>
      && r[i].username == name && r[i].email == email && r[i].mobile == phone
      && r[i].hashedPassword == (if digest.Some? then digest.value else users[i].hashedPassword)
      && r[i].id == id && r[i].role == users[i].role
  {
    if users == [] then []
    else
      var u := users[0];
      var u' := if u.id == id then
          u.(username := name, email := email, mobile := phone,
             hashedPassword := if digest.Some? then digest.value else u.hashedPassword)
        else u;
      [u'] + UpdateUser(users[1..], id, name, email, phone, digest)
  }

  /** The `users` table. */
  class UserTable {
    var users: seq<User>

    constructor (users: seq<User>)
      ensures this.users == users
    {
      this.users := users;
    }

    /** "Update Profile" for the session user `userId`. `digest` stands for
        the bcrypt hash of `password` with a fresh salt, which is only used
        when a new password is written. */
    method UpdateProfile(userId: int, name: string, email: string, phone: string,
                         password: string, confirm: string, digest: string)
      returns (outcome: ProfileOutcome)
      modifies this
      ensures outcome == NotLoggedIn <==> userId == 0
      ensures outcome == UserNotFound <==> userId != 0 && !HasUser(old(users), userId)
      ensures userId != 0 && HasUser(old(users), userId) ==>
        match Decide(name, email, phone, password, confirm)
        case MissingFields => outcome == Rejected(MissingFields)
        case PasswordMismatch => outcome == Rejected(PasswordMismatch)
        case WriteFields => outcome == Saved(false)
        case WriteFieldsAndPassword => outcome == Saved(true)
      ensures !outcome.Saved? ==> users == old(users)
      ensures outcome == Saved(false) ==> users == UpdateUser(old(users), userId, name, email, phone, None)
      ensures outcome == Saved(true) ==> users == UpdateUser(old(users), userId, name, email, phone, Some(digest))
    {
      if userId == 0 {
        return NotLoggedIn;
      }
      if !HasUser(users, userId) {
        return UserNotFound;
      }
      if name == "" || email == "" || phone == "" {
        return Rejected(MissingFields);
      }
      if password != "" || confirm != "" {
        if password != confirm {
          return Rejected(PasswordMismatch);
        } else {
          users := UpdateUser(users, userId, name, email, phone, Some(digest));
        }
      } else {
        users := UpdateUser(users, userId, name, email, phone, None);
      }
      outcome := Saved(password != "" || confirm != "");
    }
  }
}
