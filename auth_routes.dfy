/**
 * The `/register` and `/login` handlers over a user table keyed by the
 * stored (trimmed) username.
 *
 * A session token is represented by the claims it carries; signing and
 * verification are not modelled. The awaited calls that can reject
 * (`User.findOne`, `user.save()`) are inputs: `lookupOk` says whether the
 * query resolved, `saveOk` whether the save resolved. Under the schema as
 * written the save of a registration always rejects (see
 * `UserModel.RegisterDocumentFailsValidation`), so `saveOk` is the explicit
 * assumption under which the success path is described.
 */
module AuthRoutes {
  import opened Text
  import opened Wire
  import opened UserModel

  /** `expiresIn: '7d'`, in seconds. */
  const TokenLifetime := 7 * 24 * 60 * 60

  /** The payload of a signed token: `{ userId, username }` plus the issue
      time and expiry that `jwt.sign` adds. */
  datatype Claims = Claims(userId: UserId, username: string, iat: int, exp: int)

  /** The `user` object of a successful response. */
  datatype Summary = Summary(id: UserId, username: string)

  /** A handler's response: a token with its user summary, or an error
      message with its status. */
  datatype AuthReply =
    | Issued(status: int, token: Claims, user: Summary)
    | Refused(status: int, error: string)

  const MsgMissingFields := "Usuario y contraseña son requeridos"
  const MsgShortUsername := "El usuario debe tener al menos 3 caracteres"
  const MsgShortPassword := "La contraseña debe tener al menos 6 caracteres"
  const MsgUserExists := "El usuario ya existe"
  const MsgRegisterFailed := "Error al registrar usuario"
  const MsgBadCredentials := "Usuario o contraseña incorrectos"
  const MsgLoginFailed := "Error al iniciar sesión"

  /** The response that hands out a session for `u`: the token claims name
      the stored id and username and expire seven days after `now`. */
  function SessionFor(u: User, status: int, now: int): AuthReply
  {
    Issued(status, Claims(u.id, u.username, now, now + TokenLifetime), Summary(u.id, u.username))
  }

  /** The input checks of `/register`, in the order the handler runs them;
      `None` when all pass, else the message of the first that fails. The
      lengths are those of the values as received, before any trimming. */
  function RegisterCheck(username: Field, password: Field): (r: Option<string>)
    ensures r.None? <==> Truthy(username) && Truthy(password) && |username.s| >= 3 && |password.s| >= 6
    ensures r == Some(MsgMissingFields) <==> !Truthy(username) || !Truthy(password)
    ensures r == Some(MsgShortUsername) <==> Truthy(username) && Truthy(password) && |username.s| < 3
    ensures r == Some(MsgShortPassword) <==>
      Truthy(username) && Truthy(password) && |username.s| >= 3 && |password.s| < 6
  {
    if !Truthy(username) || !Truthy(password) then Some(MsgMissingFields)
    else if |username.s| < 3 then Some(MsgShortUsername)
    else if |password.s| < 6 then Some(MsgShortPassword)
    else None
  }

  /** The user record a successful registration stores: the document
      `register` builds, its password replaced by the pre-save hook. */
  function RegisteredUser(id: UserId, username: string, password: string, now: int, h: Hasher): User
  {
    var doc := RegisterDocument(id, username, password, now);
    doc.(password := HookedPassword(doc.password, true, h))
  }

  /** A reply together with the user table after the request. */
  datatype Registration = Registration(reply: AuthReply, users: map<string, User>)

  /** What `/register` answers and leaves in the table, for the next free
      id `nextId`. The save rejects when the unique indexes refuse the new
      user, and otherwise as `saveOk` says (validation, connection). */
  function RegisterSpec(users: map<string, User>, nextId: UserId, username: Field, password: Field,
                        now: int, lookupOk: bool, saveOk: bool, h: Hasher): Registration
  {
    match RegisterCheck(username, password)
    case Some(msg) => Registration(Refused(StatusBadRequest, msg), users)
    case None =>
      if !lookupOk then Registration(Refused(StatusServerError, MsgRegisterFailed), users)
      else if Trim(username.s) in users then Registration(Refused(StatusBadRequest, MsgUserExists), users)
      else
        var u := RegisteredUser(nextId, username.s, password.s, now, h);
        if !saveOk || !IndexesAdmit(users, u) then Registration(Refused(StatusServerError, MsgRegisterFailed), users)
        else Registration(SessionFor(u, StatusCreated, now), users[u.username := u])
  }

  /** Every rejected registration leaves the table as it was; one that fails
      a check answers 400, one whose query or save rejects, or whose new
      user the unique indexes refuse, answers 500 with the generic message; a registration succeeds with 201 exactly when
      the checks pass, the username is free, both awaited calls resolve and
      the unique indexes admit the new user. */
  lemma RegisterOutcomes(users: map<string, User>, nextId: UserId, username: Field, password: Field,
                         now: int, lookupOk: bool, saveOk: bool, h: Hasher)
    ensures var o := RegisterSpec(users, nextId, username, password, now, lookupOk, saveOk, h);
      && (o.reply.Refused? ==> o.users == users)
      && (RegisterCheck(username, password).Some? ==> o.reply == Refused(StatusBadRequest, RegisterCheck(username, password).value))
      && (RegisterCheck(username, password).None? && Trim(username.s) in users && lookupOk ==>
            o.reply == Refused(StatusBadRequest, MsgUserExists))
      && (RegisterCheck(username, password).None?
          && (|| !lookupOk
              || (&& Trim(username.s) !in users
                  && (!saveOk || !IndexesAdmit(users, RegisteredUser(nextId, username.s, password.s, now, h))))) ==>
            o.reply == Refused(StatusServerError, MsgRegisterFailed))
      && (o.reply.Issued? <==>
            && RegisterCheck(username, password).None? && lookupOk && Trim(username.s) !in users && saveOk
            && IndexesAdmit(users, RegisteredUser(nextId, username.s, password.s, now, h)))
  {
  }

  /** A successful registration adds exactly one user, under the trimmed
      username, with the next id and a hashed password, touches no other
      entry, and answers 201 with a token and summary naming that user and
      expiring seven days after `now`. */
  lemma {:induction false} RegisterSuccess(users: map<string, User>, nextId: UserId, username: Field, password: Field,
                                           now: int, lookupOk: bool, saveOk: bool, h: Hasher)
    requires RegisterSpec(users, nextId, username, password, now, lookupOk, saveOk, h).reply.Issued?
    ensures var o := RegisterSpec(users, nextId, username, password, now, lookupOk, saveOk, h);
      var name := Trim(username.s);
      && name !in users && o.users.Keys == users.Keys + {name}
      && (forall k | k in users :: o.users[k] == users[k])
      && o.users[name].id == nextId && o.users[name].username == name
      && o.users[name].password == Some(h.hash(password.s))
      && o.reply.status == StatusCreated
      && o.reply.user == Summary(nextId, name)
      && o.reply.token == Claims(nextId, name, now, now + TokenLifetime)
  {
    var name := Trim(username.s);
    assert RegisterCheck(username, password).None?;
    assert password.s != "";
  }

  /** The document `/register` builds has no email, and the email index
      counts a missing email as `null`: once the table holds a user without
      an email, every further registration is refused with 500. */
  lemma {:induction false} EmaillessUserBlocksRegistration(users: map<string, User>, nextId: UserId, username: Field,
                                                           password: Field, now: int, lookupOk: bool, saveOk: bool,
                                                           h: Hasher, k: string)
    requires k in users && users[k].email.None?
    requires RegisterCheck(username, password).None? && lookupOk && Trim(username.s) !in users
    ensures RegisterSpec(users, nextId, username, password, now, lookupOk, saveOk, h)
      == Registration(Refused(StatusServerError, MsgRegisterFailed), users)
  {
    var u := RegisteredUser(nextId, username.s, password.s, now, h);
    assert u.email.None?;
    assert !IndexesAdmit(users, u) by {
      assert users[k].email == u.email;
    }
  }

  /** After a successful registration, registering the same username again
      is refused as a duplicate and changes nothing. */
  lemma {:induction false} RegisterTwiceIsDuplicate(users: map<string, User>, nextId: UserId, username: Field,
                                                    password: Field, password2: Field, now: int, now2: int,
                                                    saveOk2: bool, h: Hasher)
    requires RegisterSpec(users, nextId, username, password, now, true, true, h).reply.Issued?
    requires Truthy(password2) && |password2.s| >= 6
    ensures var o := RegisterSpec(users, nextId, username, password, now, true, true, h);
      RegisterSpec(o.users, nextId + 1, username, password2, now2, true, saveOk2, h)
        == Registration(Refused(StatusBadRequest, MsgUserExists), o.users)
  {
    var o := RegisterSpec(users, nextId, username, password, now, true, true, h);
    assert RegisterCheck(username, password).None?;
    assert Trim(username.s) in o.users;
  }

  /** What `/login` answers. Only presence is checked, not lengths; the
      lookup uses the trimmed username; an unknown username and a wrong
      password get the same 401. */
  function Login(users: map<string, User>, username: Field, password: Field, now: int,
                 lookupOk: bool, h: Hasher): (r: AuthReply)
    ensures !Truthy(username) || !Truthy(password) ==> r == Refused(StatusBadRequest, MsgMissingFields)
    ensures r.Issued? ==>
      && lookupOk && Trim(username.s) in users && ComparePassword(users[Trim(username.s)], password.s, h)
      && r == SessionFor(users[Trim(username.s)], StatusOk, now)
      && r.status == StatusOk && r.token.exp == now + TokenLifetime
    ensures (Truthy(username) && Truthy(password) && lookupOk && Trim(username.s) in users
             && ComparePassword(users[Trim(username.s)], password.s, h)) ==> r.Issued?
    ensures Truthy(username) && Truthy(password) && !lookupOk ==> r == Refused(StatusServerError, MsgLoginFailed)
    ensures r.Refused? && r.status == StatusUnauthorized ==> r.error == MsgBadCredentials
    ensures r.Refused? && r.status == StatusServerError ==> r.error == MsgLoginFailed
  {
    if !Truthy(username) || !Truthy(password) then Refused(StatusBadRequest, MsgMissingFields)
    else if !lookupOk then Refused(StatusServerError, MsgLoginFailed)
    else if Trim(username.s) !in users then Refused(StatusUnauthorized, MsgBadCredentials)
    else
      var u := users[Trim(username.s)];
      if !ComparePassword(u, password.s, h) then Refused(StatusUnauthorized, MsgBadCredentials)
      else SessionFor(u, StatusOk, now)
  }

  /** A caller cannot tell an unknown username from a wrong password: in a
      table without the user and in a table where the user exists but the
      password does not match, the response is the same. */
  lemma LoginHidesWhichCheckFailed(withoutUser: map<string, User>, withUser: map<string, User>,
                                   username: Field, password: Field, now: int, h: Hasher)
    requires Truthy(username) && Truthy(password)
    requires Trim(username.s) !in withoutUser
    requires Trim(username.s) in withUser && !ComparePassword(withUser[Trim(username.s)], password.s, h)
    ensures Login(withoutUser, username, password, now, true, h) == Login(withUser, username, password, now, true, h)
    ensures Login(withoutUser, username, password, now, true, h) == Refused(StatusUnauthorized, MsgBadCredentials)
  {
  }

  /** Login applies no length rule: once both fields are present it never
      answers 400, however short they are. A stored user whose password
      matches is let in even under a name shorter than 3 characters, where
      a registration with the same values would be refused. */
  lemma LoginChecksOnlyPresence(users: map<string, User>, username: Field, password: Field,
                                now: int, lookupOk: bool, h: Hasher)
    requires Truthy(username) && Truthy(password)
    ensures Login(users, username, password, now, lookupOk, h).status != StatusBadRequest
    ensures (&& |username.s| < 3 && lookupOk
             && Trim(username.s) in users && ComparePassword(users[Trim(username.s)], password.s, h)) ==>
              && Login(users, username, password, now, lookupOk, h).Issued?
              && RegisterCheck(username, password) == Some(MsgShortUsername)
  {
  }

  /** The round trip of the two handlers: after a successful registration,
      logging in with the same username and password at any later time `t`
      succeeds and names the user the registration created. */
  lemma {:induction false} RegisterThenLogin(users: map<string, User>, nextId: UserId, username: Field,
                                             password: Field, now: int, t: int, h: Hasher)
    requires BcryptLike(h)
    requires RegisterSpec(users, nextId, username, password, now, true, true, h).reply.Issued?
    ensures var o := RegisterSpec(users, nextId, username, password, now, true, true, h);
      var r := Login(o.users, username, password, t, true, h);
      && r.Issued? && r.status == StatusOk
      && r.user == o.reply.user
      && r.token.userId == o.reply.token.userId && r.token.username == o.reply.token.username
      && r.token.exp == t + TokenLifetime
  {
    var o := RegisterSpec(users, nextId, username, password, now, true, true, h);
    assert RegisterCheck(username, password).None?;
    var u := RegisteredUser(nextId, username.s, password.s, now, h);
    HookedPasswordVerifies(RegisterDocument(nextId, username.s, password.s, now), password.s, h);
    assert o.users[Trim(username.s)] == u;
  }

  /** The user collection as the auth handlers see it. */
  class UserTable {
    var users: map<string, User>
    var nextId: UserId

    /** The unique indexes hold, every user has an id below `nextId`, and
        ids are distinct. */
    ghost predicate Valid()
      reads this
    {
      && UniqueIndexes(users)
      && (forall k | k in users :: users[k].id < nextId)
      && (forall k1, k2 | k1 in users && k2 in users && k1 != k2 :: users[k1].id != users[k2].id)
    }

    constructor ()
      ensures Valid() && users == map[] && nextId == 0
    {
      users := map[];
      nextId := 0;
    }

    /** `POST /auth/register`. */
    method Register(username: Field, password: Field, now: int, lookupOk: bool, saveOk: bool, h: Hasher)
      returns (reply: AuthReply)
      requires Valid()
      modifies this
      ensures Valid()
      ensures Registration(reply, users) == RegisterSpec(old(users), old(nextId), username, password, now, lookupOk, saveOk, h)
      ensures nextId == if reply.Issued? then old(nextId) + 1 else old(nextId)
    {
      var check := RegisterCheck(username, password);
      if check.Some? {
        return Refused(StatusBadRequest, check.value);
      }
      if !lookupOk {
        return Refused(StatusServerError, MsgRegisterFailed);
      }
      if Trim(username.s) in users {
        return Refused(StatusBadRequest, MsgUserExists);
      }
      var doc := new UserDocument(RegisterDocument(nextId, username.s, password.s, now));
      doc.Save(h);
      var u := doc.record;
      if !saveOk || !IndexesAdmit(users, u) {
        return Refused(StatusServerError, MsgRegisterFailed);
      }
      InsertKeepsUniqueIndexes(users, u);
      users := users[u.username := u];
      nextId := nextId + 1;
      reply := SessionFor(u, StatusCreated, now);
    }

  }
}
