/** UserController: sign-up (`store`) and profile edits (`update`), both
    guarded so that no two users share an email. */
module UserController {
  import opened Base
  import opened Tables
  import opened Db

  const SchemaError := "a field of the request is missing or invalid"
  const ValidationFails := "Validation fails"
  const UserExists := "User already exists!"
  const HashParam := "Invalid param: password_hash"
  const PasswordMismatch := "Password does not match."

  /** The body of a sign-up or profile-edit request. */
  datatype UserBody = UserBody(
    name: Option<string>,
    email: Option<string>,
    password: Option<string>,
    passwordHash: Option<string>,
    confirmPassword: Option<string>,
    oldPassword: Option<string>)

  /** Stand-in for the validation library's email format: a non-empty local
      part, an '@' and a non-empty domain. */
  predicate LooksLikeEmail(s: string) {
    exists i :: 0 < i < |s| - 1 && s[i] == '@'
  }

  /** The sign-up schema: name, email and a password of at least 6
      characters are required. */
  function StoreSchema(b: UserBody): (r: bool)
    ensures r ==> b.email.Some? && |b.email.value| >= 3 && '@' in b.email.value
  {
    && Truthy(b.name)
    && Truthy(b.email) && LooksLikeEmail(b.email.value)
    && Truthy(b.password) && |b.password.value| >= 6
  }

  /** The profile-edit schema: every field is optional, but a new password
      needs a matching confirmation and the old password. As in the
      validation library, the email format rule skips an empty string. */
  function UpdateSchema(b: UserBody): (r: bool)
    ensures r && Truthy(b.email) ==> '@' in b.email.value
    ensures b.email == Some("") && b.password.None? && b.oldPassword.None? ==> r
  {
    && (Truthy(b.email) ==> LooksLikeEmail(b.email.value))
    && (b.password.Some? ==> |b.password.value| >= 6)
    && (Truthy(b.password) ==> Truthy(b.confirmPassword) && b.confirmPassword == b.password)
    && (b.oldPassword.Some? ==> |b.oldPassword.value| >= 6)
    && (Truthy(b.password) ==> Truthy(b.oldPassword))
  }

  /** The email guard of `update` fires: a different email that another row
      already holds. */
  function EmailClash(us: seq<User>, u: User, b: UserBody): (r: bool)
    ensures r ==> Truthy(b.email) && exists k :: 0 <= k < |us| && us[k].email == b.email.value && us[k].email != u.email
  {
    Truthy(b.email) && b.email.value != u.email && EmailTaken(us, b.email.value)
  }

  /** The row after `user.update(body)`: each field the body carries
      replaces the stored one; the id never changes. A new password becomes
      the credential (the model's hashing hook hashes it); otherwise a
      `password_hash` the body carries is written as the credential. */
  function Amend(u: User, b: UserBody): (r: User)
    ensures r.id == u.id
    ensures b.email.None? ==> r.email == u.email
    ensures b.email.Some? ==> r.email == b.email.value
    ensures r.name == b.name.GetOr(u.name)
    ensures b.password.Some? ==> r.password == b.password.value
    ensures b.password.None? && b.passwordHash.Some? ==> r.password == b.passwordHash.value
    ensures b.password.None? && b.passwordHash.None? ==> r.password == u.password
  {
    User(u.id, b.name.GetOr(u.name), b.email.GetOr(u.email),
         b.password.GetOr(b.passwordHash.GetOr(u.password)))
  }

  /** An empty `password_hash` alone passes the schema, the email guard, the
      old-password check (no old password is given) and the `password_hash`
      guard, which tests truthiness; the edit then clears the credential. */
  lemma EmptyHashClearsCredential(us: seq<User>, u: User)
    requires u.password != ""
    ensures var b := UserBody(None, None, None, Some(""), None, None);
            && UpdateSchema(b) && !EmailClash(us, u, b)
            && !Truthy(b.oldPassword) && !Truthy(b.passwordHash)
            && Amend(u, b).password == "" && Amend(u, b).password != u.password
            && Amend(u, b).email == u.email
  {
  }

  /** A password change cannot pass the schema without the old password and
      a matching confirmation, so it always goes through the password check. */
  lemma PasswordChangeNeedsOldPassword(b: UserBody)
    requires UpdateSchema(b) && Truthy(b.password)
    ensures Truthy(b.oldPassword) && b.confirmPassword == b.password
  {
  }

  /** Resubmitting one's own email never trips the email guard. */
  lemma OwnEmailAllowed(us: seq<User>, u: User, b: UserBody)
    requires b.email == Some(u.email)
    ensures !EmailClash(us, u, b)
  {
  }

  /** An edit that passes the schema and the email guard keeps non-empty
      emails unique. */
  lemma AmendKeepsEmailsUnique(us: seq<User>, i: nat, b: UserBody)
    requires i < |us| && FilledEmailsUnique(us)
    requires UpdateSchema(b) && !EmailClash(us, us[i], b)
    ensures FilledEmailsUnique(us[i := Amend(us[i], b)])
  {
    ReplaceUserKeepsFilledEmailsUnique(us, i, Amend(us[i], b));
  }

  /** As written, the email guard lets the empty email through: two users
      who each clear their email pass the schema and the guard, and end up
      sharing `""`. */
  lemma EmptyEmailEditsCollide(us: seq<User>, i: nat, j: nat)
    requires i < |us| && j < |us| && i != j && EmailsUnique(us)
    ensures var b := UserBody(None, Some(""), None, None, None, None);
            var once := us[i := Amend(us[i], b)];
            && UpdateSchema(b) && !EmailClash(us, us[i], b) && !EmailClash(once, once[j], b)
            && !EmailsUnique(once[j := Amend(once[j], b)])
  {
    var b := UserBody(None, Some(""), None, None, None, None);
    var twice := us[i := Amend(us[i], b)][j := Amend(us[j], b)];
    assert twice[i].email == "" && twice[j].email == "";
    if i < j {
      assert twice[i].email == twice[j].email;
    } else {
      assert twice[j].email == twice[i].email;
    }
  }

  /** The evident intent of the edit schema: an email, when given, is a
      well-formed one, the empty string included. */
  function IntendedUpdateSchema(b: UserBody): (r: bool)
    ensures r ==> UpdateSchema(b)
    ensures r && b.email.Some? ==> b.email.value != ""
  {
    && UpdateSchema(b)
    && (b.email.Some? ==> LooksLikeEmail(b.email.value))
  }

  /** With the intended schema, an edit that passes the email guard keeps
      every email unique. */
  lemma IntendedEditKeepsEmailsUnique(us: seq<User>, i: nat, b: UserBody)
    requires i < |us| && EmailsUnique(us)
    requires IntendedUpdateSchema(b) && !EmailClash(us, us[i], b)
    ensures EmailsUnique(us[i := Amend(us[i], b)])
  {
    ReplaceUserKeepsEmailsUnique(us, i, Amend(us[i], b));
  }

  /** `store`: schema, then email not taken, then no `password_hash`; the
      answer shows only id, name and email. */
  method Store(db: Database, body: UserBody) returns (r: Response<UserView>)
    requires db.Valid()
    modifies db
    ensures db.Valid()
    ensures r.Err? ==> unchanged(db)
    ensures EmailsUnique(old(db.users)) ==> EmailsUnique(db.users)
    ensures !StoreSchema(body) ==> r.Err? && r.status == BadRequest
    ensures StoreSchema(body) && EmailTaken(old(db.users), body.email.value)
            ==> r == Err(BadRequest, UserExists)
    ensures StoreSchema(body) && !EmailTaken(old(db.users), body.email.value) && Truthy(body.passwordHash)
            ==> r == Err(BadRequest, HashParam)
    ensures r.Ok? <==> StoreSchema(body) && !EmailTaken(old(db.users), body.email.value) && !Truthy(body.passwordHash)
    ensures r.Ok? ==>
              var u := User(old(db.nextUserId), body.name.value, body.email.value, body.password.value);
              && r == Ok(Created, View(u))
              && db.users == old(db.users) + [u]
              && db.meetups == old(db.meetups) && db.subscriptions == old(db.subscriptions)
              && db.queue == old(db.queue) && db.nextUserId == old(db.nextUserId) + 1
              && db.nextMeetupId == old(db.nextMeetupId) && db.nextSubscriptionId == old(db.nextSubscriptionId)
  {
    if !StoreSchema(body) {
      return Err(BadRequest, SchemaError);
    }
    if EmailTaken(db.users, body.email.value) {
      return Err(BadRequest, UserExists);
    }
    if Truthy(body.passwordHash) {
      return Err(BadRequest, HashParam);
    }
    var user := User(db.nextUserId, body.name.value, body.email.value, body.password.value);
    AddUserKeepsEmailsUnique(db.users, user);
    db.users := db.users + [user];
    db.nextUserId := db.nextUserId + 1;
    return Ok(Created, View(user));
  }

  /** `update` of the requester's own row: schema, then the email guard,
      then the old-password check, then no `password_hash`. */
  method Update(db: Database, requester: Id, body: UserBody, checkPassword: (User, string) -> bool)
    returns (r: Response<UserView>)
    requires db.Valid() && UserIndex(db.users, requester) >= 0
    modifies db
    ensures db.Valid()
    ensures r.Err? ==> unchanged(db)
    ensures var i := UserIndex(old(db.users), requester);
            var u := old(db.users)[i];
            && (!UpdateSchema(body) ==> r == Err(BadRequest, ValidationFails))
            && (UpdateSchema(body) && EmailClash(old(db.users), u, body) ==> r == Err(BadRequest, UserExists))
            && (UpdateSchema(body) && !EmailClash(old(db.users), u, body)
                && Truthy(body.oldPassword) && !checkPassword(u, body.oldPassword.value)
                ==> r == Err(Unauthorized, PasswordMismatch))
            && (UpdateSchema(body) && !EmailClash(old(db.users), u, body)
                && (Truthy(body.oldPassword) ==> checkPassword(u, body.oldPassword.value))
                && Truthy(body.passwordHash)
                ==> r == Err(BadRequest, HashParam))
            && (r.Ok? ==> r == Ok(Success, View(Amend(u, body))) && db.users == old(db.users)[i := Amend(u, body)])
    ensures r.Ok? <==>
              var u := old(db.users)[UserIndex(old(db.users), requester)];
              && UpdateSchema(body) && !EmailClash(old(db.users), u, body)
              && (Truthy(body.oldPassword) ==> checkPassword(u, body.oldPassword.value))
              && !Truthy(body.passwordHash)
    ensures r.Ok? ==>
              && db.meetups == old(db.meetups) && db.subscriptions == old(db.subscriptions)
              && db.queue == old(db.queue) && db.nextUserId == old(db.nextUserId)
              && db.nextMeetupId == old(db.nextMeetupId) && db.nextSubscriptionId == old(db.nextSubscriptionId)
  {
    if !UpdateSchema(body) {
      return Err(BadRequest, ValidationFails);
    }
    var i := UserIndex(db.users, requester);
    var user := db.users[i];
    if Truthy(body.email) && body.email.value != user.email {
      if EmailTaken(db.users, body.email.value) {
        return Err(BadRequest, UserExists);
      }
    }
    if Truthy(body.oldPassword) && !checkPassword(user, body.oldPassword.value) {
      return Err(Unauthorized, PasswordMismatch);
    }
    if Truthy(body.passwordHash) {
      return Err(BadRequest, HashParam);
    }
    var updated := Amend(user, body);
    AmendKeepsEmailsUnique(db.users, i, body);
    db.users := db.users[i := updated];
    return Ok(Success, View(updated));
  }
}
