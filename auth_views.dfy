/** The account endpoints: registration, and the two steps of a password reset.
    Passwords are kept as given; hashing, token generation and mail delivery are
    outside the model (the token check arrives as a boolean, the sent mail as the
    user it goes to). */
module AuthViews {
  import opened Wrappers
  import opened Text
  import opened UsersModels
  import opened Store
  import opened UserSignals

  /** What an endpoint answers: a status and a body of field names to messages. */
  datatype Reply = Reply(status: nat, body: map<string, string>)

  // ---------------------------------------------------------------- RegisterSerializer

  /** The registration payload. */
  datatype Registration = Registration(username: string, email: string, password: string, password2: string)

  const UsernameTaken := ApiError(400, "A user with that username already exists.")
  const FieldRequired := ApiError(400, "This field may not be blank.")
  const PasswordMismatch := ApiError(400, "Passwords do not match.")

  /** Some user already has `username`. */
  predicate HasUsername(users: map<Id, User>, username: string)
  {
    exists u :: u in users && users[u].username == username
  }

  /** The payload as the serializer's fields hand it on: every `CharField` (the
      email's too) trims surrounding whitespace before any check. */
  function Trimmed(d: Registration): Registration
  {
    Registration(Strip(d.username), Strip(d.email), Strip(d.password), Strip(d.password2))
  }

  /** The serializer's validation on the trimmed payload: the field checks first (a
      username or password blank after trimming, a username in use), then
      `validate`, which refuses two different passwords. */
  function RegisterError(d: Registration, users: map<Id, User>): (e: Option<ApiError>)
    ensures e.None? <==>
      Strip(d.username) != "" && Strip(d.password) != "" && Strip(d.password2) != ""
      && !HasUsername(users, Strip(d.username)) && Strip(d.password) == Strip(d.password2)
    ensures e == Some(PasswordMismatch) <==>
      Strip(d.username) != "" && Strip(d.password) != "" && Strip(d.password2) != ""
      && !HasUsername(users, Strip(d.username)) && Strip(d.password) != Strip(d.password2)
    ensures e.Some? ==> e.value.status == 400
  {
    var t := Trimmed(d);
    if t.username == "" || t.password == "" || t.password2 == "" then Some(FieldRequired)
    else if HasUsername(users, t.username) then Some(UsernameTaken)
    else if t.password != t.password2 then Some(PasswordMismatch)
    else None
  }

  /** Whitespace around the fields never changes the verdict: the payload and its
      trimmed form are judged alike. */
  lemma {:induction false} RegisterIgnoresSurroundingSpace(d: Registration, users: map<Id, User>)
    ensures RegisterError(Trimmed(d), users) == RegisterError(d, users)
  {
    StripIdempotent(d.username);
    StripIdempotent(d.password);
    StripIdempotent(d.password2);
  }

  lemma StripIdempotent(s: string)
    ensures Strip(Strip(s)) == Strip(s)
  {
  }

  /** `BaseUserManager.normalize_email`: the domain, the part after the last `@`, is
      lower-cased; an address without `@` is kept as it is. */
  function NormalizeEmail(email: string): (r: string)
    ensures |r| == |email|
    ensures '@' !in email ==> r == email
    ensures var at := LastIndex(email, '@');
      at >= 0 ==> r[..at + 1] == email[..at + 1] && r[at + 1..] == LowerStr(email[at + 1..])
  {
    var at := LastIndex(email, '@');
    if at < 0 then email
    else
      var r := email[..at + 1] + LowerStr(email[at + 1..]);
      DomainLowered(email, at);
      r
  }

  /** Lower-casing the part after the `@` at `at` keeps the length, the `@` signs
      and everything up to `at`. */
  lemma {:induction false} DomainLowered(email: string, at: int)
    requires 0 <= at < |email| && email[at] == '@'
    ensures '@' in email
    ensures var r := email[..at + 1] + LowerStr(email[at + 1..]);
      |r| == |email|
      && (forall k :: 0 <= k < |email| ==> (r[k] == '@' <==> email[k] == '@'))
      && r[..at + 1] == email[..at + 1] && r[at + 1..] == LowerStr(email[at + 1..])
  {
    var tail := email[at + 1..];
    var r := email[..at + 1] + LowerStr(tail);
    assert r[..at + 1] == email[..at + 1];
    assert r[at + 1..] == LowerStr(tail);
    forall k | 0 <= k < |email| ensures r[k] == '@' <==> email[k] == '@' {
      if k > at {
        assert r[k] == LowerStr(tail)[k - at - 1] == Lower(tail[k - at - 1]);
        assert tail[k - at - 1] == email[k];
      }
    }
  }

  /** Normalising an address twice is normalising it once. */
  lemma {:induction false} NormalizeEmailIdempotent(email: string)
    ensures NormalizeEmail(NormalizeEmail(email)) == NormalizeEmail(email)
  {
    var a := LastIndex(email, '@');
    if a >= 0 {
      var tail := LowerStr(email[a + 1..]);
      var r := email[..a + 1] + tail;
      NormalizeEmailAt(email, a);
      DomainLowered(email, a);
      SameLastAt(email, r, a);
      NormalizeEmailAt(r, a);
      LowerStrKeepsLowered(tail);
      assert r[..a + 1] + LowerStr(r[a + 1..]) == r;
    } else {
      assert '@' !in email;
    }
  }

  /** With its last `@` at `a`, an address normalises to its text up to `a` followed
      by the rest lower-cased. */
  lemma NormalizeEmailAt(email: string, a: int)
    requires 0 <= a < |email| && LastIndex(email, '@') == a
    ensures NormalizeEmail(email) == email[..a + 1] + LowerStr(email[a + 1..])
  {
  }

  /** Two texts with their `@` signs in the same places, the last at `a`, agree on
      where the last one is. */
  lemma {:induction false} SameLastAt(email: string, r: string, a: int)
    requires 0 <= a < |email| == |r| && LastIndex(email, '@') == a
    requires forall k :: 0 <= k < |email| ==> (r[k] == '@' <==> email[k] == '@')
    ensures LastIndex(r, '@') == a
  {
    assert r[a] == '@';
  }

  /** `RegisterView` through `RegisterSerializer.create`: `password2` is dropped and
      `create_user` stores the trimmed name and password with the trimmed address
      normalised; the `post_save` receiver then gives the new user a profile, a
      collection and a channel. */
  method Register(db: Db, d: Registration) returns (r: Result<Id, ApiError>)
    requires db.Valid()
    modifies db`users, db`profiles, db`collections, db`channels, db`nextId
    ensures db.Valid()
    ensures r.Err? <==> RegisterError(d, old(db.users)).Some?
    ensures r.Err? ==>
      r.error == RegisterError(d, old(db.users)).value
      && db.users == old(db.users) && db.profiles == old(db.profiles)
      && db.collections == old(db.collections) && db.channels == old(db.channels)
    ensures r.Ok? ==>
      Inserted(old(db.users), db.users, r.value)
      && db.users[r.value] == User(Strip(d.username), NormalizeEmail(Strip(d.email)), Strip(d.password))
      && db.profiles == old(db.profiles)[r.value := DefaultProfile]
      && exists c, ch :: Inserted(old(db.collections), db.collections, c) && Inserted(old(db.channels), db.channels, ch)
           && IsDefaultPair(db.collections, db.channels, r.value, Strip(d.username), c, ch)
  {
    var e := RegisterError(d, db.users);
    if e.Some? {
      return Err(e.value);
    }
    var t := Trimmed(d);
    var id := db.InsertUser(User(t.username, NormalizeEmail(t.email), t.password));
    var signal := CreateUserProfile(db, id, true);
    r := Ok(id);
  }

  // ---------------------------------------------------------------- PasswordResetRequestView

  const ResetSent := "If an account with that email exists, a password reset link has been sent."

  /** The users registered under `email`; the address is not unique. */
  function WithEmail(users: map<Id, User>, email: string): set<Id>
  {
    set u | u in users && users[u].email == email
  }

  /** What the reset request answers, and the users the link is mailed to. */
  datatype ResetRequestOutcome = ResetRequestOutcome(reply: Reply, mailTo: set<Id>)

  /** `PasswordResetRequestView.post`: a missing email is a 400; otherwise the answer
      is the same whether or not an account has the address, and the link goes to
      the one account that does. Two accounts with the address make the lookup
      raise an uncaught MultipleObjectsReturned (a 500). */
  function ResetRequest(users: map<Id, User>, email: Option<string>): (o: ResetRequestOutcome)
    ensures !Given(email) ==> o.reply == Reply(400, map["email" := "This field is required."]) && o.mailTo == {}
    ensures Given(email) && |WithEmail(users, email.value)| <= 1 ==>
      o.reply == Reply(200, map["detail" := ResetSent])
    ensures o.mailTo != {} <==> Given(email) && |WithEmail(users, email.value)| == 1
    ensures |o.mailTo| <= 1
    ensures forall u :: u in o.mailTo ==> u in users && users[u].email == email.value
    ensures Given(email) && |WithEmail(users, email.value)| >= 2 ==> o.reply.status == 500
  {
    if !Given(email) then ResetRequestOutcome(Reply(400, map["email" := "This field is required."]), {})
    else
      var found := WithEmail(users, email.value);
      if |found| <= 1 then ResetRequestOutcome(Reply(200, map["detail" := ResetSent]), found)
      else ResetRequestOutcome(Reply(500, map["detail" := "MultipleObjectsReturned"]), {})
  }

  /** The answer does not tell whether the address belongs to an account: adding the
      only account with that address changes who is mailed, not the reply. */
  lemma ResetRequestHidesAccounts(users: map<Id, User>, email: string, id: Id, u: User)
    requires email != "" && id !in users && u.email == email && WithEmail(users, email) == {}
    ensures ResetRequest(users[id := u], Some(email)).reply == ResetRequest(users, Some(email)).reply
    ensures ResetRequest(users[id := u], Some(email)).mailTo == {id}
    ensures ResetRequest(users, Some(email)).mailTo == {}
  {
    assert WithEmail(users[id := u], email) == {id};
  }

  // ---------------------------------------------------------------- PasswordResetConfirmView

  /** The field errors of a reset confirmation, each under its own key; the mismatch
      message replaces the confirmation's missing-field message and is given only
      when both passwords are there. */
  function ConfirmErrors(uidb64: Option<string>, token: Option<string>,
                         password1: Option<string>, password2: Option<string>): (errors: map<string, string>)
    ensures "uidb64" in errors <==> !Given(uidb64)
    ensures "token" in errors <==> !Given(token)
    ensures "new_password1" in errors <==> !Given(password1)
    ensures "new_password2" in errors <==> !Given(password2) || (Given(password1) && password1 != password2)
    ensures "new_password2" in errors && errors["new_password2"] == "Passwords do not match." <==>
      Given(password1) && Given(password2) && password1 != password2
    ensures errors.Keys <= {"uidb64", "token", "new_password1", "new_password2"}
    ensures errors == map[] <==> Given(uidb64) && Given(token) && Given(password1) && password1 == password2
  {
    var e0: map<string, string> := map[];
    var e1 := if !Given(uidb64) then e0["uidb64" := "Missing user id."] else e0;
    var e2 := if !Given(token) then e1["token" := "Missing token."] else e1;
    var e3 := if !Given(password1) then e2["new_password1" := "New password is required."] else e2;
    var e4 := if !Given(password2) then e3["new_password2" := "Please confirm your new password."] else e3;
    if Given(password1) && Given(password2) && password1 != password2
    then e4["new_password2" := "Passwords do not match."]
    else e4
  }

  const InvalidLink := Reply(400, map["detail" := "Invalid link."])
  const InvalidToken := Reply(400, map["detail" := "Invalid or expired token."])
  const ResetDone := Reply(200, map["detail" := "Password has been reset successfully."])

  /** `PasswordResetConfirmView.post`. `uid` is the user key `uidb64` decodes to (none
      when it does not decode) and `tokenValid` the verdict of the token check. Field
      errors are answered before any lookup; the password is set only when the user
      exists and the token checks. */
  method ResetConfirm(db: Db, uidb64: Option<string>, uid: Option<Id>, token: Option<string>,
                      password1: Option<string>, password2: Option<string>, tokenValid: bool)
    returns (reply: Reply)
    requires db.Valid()
    modifies db`users
    ensures db.Valid()
    ensures ConfirmErrors(uidb64, token, password1, password2) != map[] ==>
      reply == Reply(400, ConfirmErrors(uidb64, token, password1, password2))
    ensures ConfirmErrors(uidb64, token, password1, password2) == map[] && (uid.None? || uid.value !in db.users) ==>
      reply == InvalidLink
    ensures (ConfirmErrors(uidb64, token, password1, password2) == map[] && uid.Some? && uid.value in db.users
             && !tokenValid) ==> reply == InvalidToken
    ensures reply.status == 200 <==>
      ConfirmErrors(uidb64, token, password1, password2) == map[] && uid.Some? && uid.value in old(db.users) && tokenValid
    ensures reply.status != 200 ==> db.users == old(db.users)
    ensures reply.status == 200 ==>
      reply == ResetDone
      && db.users == old(db.users)[uid.value := old(db.users)[uid.value].(password := password1.value)]
  {
    var errors := ConfirmErrors(uidb64, token, password1, password2);
    if errors != map[] {
      return Reply(400, errors);
    }
    if uid.None? || uid.value !in db.users {
      return InvalidLink;
    }
    if !tokenValid {
      return InvalidToken;
    }
    var u := db.users[uid.value];
    db.PutUser(uid.value, u.(password := password1.value));
    reply := ResetDone;
  }
}
