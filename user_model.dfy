/**
 * The user record of the task tracker and the rules its schema enforces:
 * normalisation of username and email, the email pattern, the password that
 * only federated (OAuth) users may omit, the unique indexes, the hook that
 * hashes a new password before it is stored, and the password check.
 *
 * bcrypt is not modelled: a `Hasher` stands for the pair `bcrypt.hash` /
 * `bcrypt.compare` and is passed in wherever the source calls them.
 */
module UserModel {
  import opened Text
  import opened Wire

  type UserId = nat

  /** A stored user document. `email`, `password` and `oauthProvider` are
      `None` where the document holds `null` or nothing. */
  datatype User = User(
    id: UserId,
    username: string,
    email: Option<string>,
    password: Option<string>,
    oauthProvider: Option<string>,
    createdAt: int)

  // ---------------------------------------------------------------------
  // Setters: `trim` on username and email, `lowercase` on email
  // ---------------------------------------------------------------------

  /** The email as the schema stores it: trimmed, then lower-cased. */
  function NormalizeEmail(e: string): (r: string)
    ensures |r| <= |e|
    ensures Trimmed(r) && NoCapitals(r)
  {
    TrimOfTrimmed(Trim(e));
    LowerOfTrimmed(Trim(e));
    LowerFacts(Trim(e));
    Lower(Trim(e))
  }

  /** Lower-casing twice is lower-casing once. */
  lemma LowerIdempotent(s: string)
    ensures Lower(Lower(s)) == Lower(s)
  {
    LowerFacts(s);
    LowerFacts(Lower(s));
  }

  /** Storing an already stored email again changes nothing. */
  lemma {:induction false} NormalizeEmailIdempotent(e: string)
    ensures NormalizeEmail(NormalizeEmail(e)) == NormalizeEmail(e)
  {
    var r := NormalizeEmail(e);
    TrimOfTrimmed(r);
    LowerIdempotent(Trim(e));
  }

  /** `new User({...})`: the setters run on the supplied values and the
      missing `oauthProvider` and `createdAt` take their defaults (`null`, the
      current time `now`). */
  function NewUser(id: UserId, username: string, email: Option<string>, password: Option<string>,
                   oauthProvider: Option<string>, now: int): User
  {
    User(id, Trim(username),
         if email.Some? then Some(NormalizeEmail(email.value)) else None,
         password, oauthProvider, now)
  }

  /** The stored username and email carry no surrounding white space and the
      email holds no capital letter. */
  predicate Normalized(u: User) {
    && Trimmed(u.username)
    && (u.email.Some? ==> Trimmed(u.email.value) && NoCapitals(u.email.value))
  }

  /** Every constructed document is normalised, and constructing it again
      from its own stored values gives the same document. */
  lemma NewUserNormalized(id: UserId, username: string, email: Option<string>, password: Option<string>,
                          oauthProvider: Option<string>, now: int)
    ensures Normalized(NewUser(id, username, email, password, oauthProvider, now))
    ensures var u := NewUser(id, username, email, password, oauthProvider, now);
      NewUser(u.id, u.username, u.email, u.password, u.oauthProvider, now) == u
  {
    var u := NewUser(id, username, email, password, oauthProvider, now);
    TrimIdempotent(username);
    if email.Some? {
      NormalizeEmailIdempotent(email.value);
    }
  }

  // ---------------------------------------------------------------------
  // The email pattern ^[^\s@]+@[^\s@]+\.[^\s@]+$
  // ---------------------------------------------------------------------

  /** `[^\s@]+`: a non-empty run of characters that are neither white space
      nor `@`. */
  predicate Atom(s: string) {
    s != [] && forall i | 0 <= i < |s| :: !IsSpace(s[i]) && s[i] != '@'
  }

  /** The schema's email pattern read literally: an atom, `@`, an atom, `.`,
      an atom, and nothing else. */
  ghost predicate MatchesEmailRegex(s: string) {
    exists a, d | 0 <= a < d < |s| ::
      s[a] == '@' && s[d] == '.' && Atom(s[..a]) && Atom(s[a + 1..d]) && Atom(s[d + 1..])
  }

  /** Number of occurrences of `c` in `s`. */
  function CountChar(s: string, c: char): nat
  {
    if s == [] then 0 else (if s[0] == c then 1 else 0) + CountChar(s[1..], c)
  }

  /** Index of the first `c` in `s`, or `|s|` when there is none. */
  function IndexOf(s: string, c: char): (i: nat)
    ensures i <= |s|
    ensures i < |s| ==> s[i] == c
    ensures forall j | 0 <= j < i :: s[j] != c
  {
    if s == [] then 0 else if s[0] == c then 0 else 1 + IndexOf(s[1..], c)
  }

  /** `s` holds a `.` that is neither its first nor its last character. */
  predicate HasInnerDot(s: string) {
    exists d | 0 < d < |s| - 1 :: s[d] == '.'
  }

  /** The email validator: no white space, exactly one `@`, a non-empty part
      before it, and a `.` strictly inside the part after it. */
  predicate IsValidEmail(s: string) {
    && (forall i | 0 <= i < |s| :: !IsSpace(s[i]))
    && CountChar(s, '@') == 1
    && 0 < IndexOf(s, '@') < |s|
    && HasInnerDot(s[IndexOf(s, '@') + 1..])
  }

  lemma {:induction false} CountCharZero(s: string, c: char)
    ensures CountChar(s, c) == 0 <==> forall i | 0 <= i < |s| :: s[i] != c
  {
    if s != [] {
      CountCharZero(s[1..], c);
      assert forall i | 1 <= i < |s| :: s[i] == s[1..][i - 1];
    }
  }

  lemma {:induction false} CountCharSplit(s: string, k: nat, c: char)
    requires k <= |s|
    ensures CountChar(s, c) == CountChar(s[..k], c) + CountChar(s[k..], c)
  {
    if k > 0 {
      CountCharSplit(s[1..], k - 1, c);
      assert s[1..][..k - 1] == s[..k][1..];
      assert s[1..][k - 1..] == s[k..];
    }
  }

  /** The three pieces of a pattern match, at split points `a` and `d`. */
  predicate SplitsAsEmail(s: string, a: nat, d: nat) {
    a < d < |s| && s[a] == '@' && s[d] == '.' && Atom(s[..a]) && Atom(s[a + 1..d]) && Atom(s[d + 1..])
  }

  /** Outside the `@` at `a`, a pattern match holds neither white space nor
      another `@`. */
  lemma {:induction false} SplitCharacters(s: string, a: nat, d: nat)
    requires SplitsAsEmail(s, a, d)
    ensures forall i | 0 <= i < |s| :: !IsSpace(s[i]) && (i != a ==> s[i] != '@')
  {
    forall i | 0 <= i < |s| ensures !IsSpace(s[i]) && (i != a ==> s[i] != '@') {
      if i < a { assert s[i] == s[..a][i]; }
      else if a < i < d { assert s[i] == s[a + 1..d][i - a - 1]; }
      else if d < i { assert s[i] == s[d + 1..][i - d - 1]; }
    }
  }

  lemma {:induction false} SplitIsValid(s: string, a: nat, d: nat)
    requires SplitsAsEmail(s, a, d)
    ensures IsValidEmail(s)
  {
    SplitCharacters(s, a, d);
    assert forall j | 0 <= j < a :: s[j] != '@';
    CountCharZero(s[..a], '@');
    CountCharZero(s[a + 1..], '@');
    CountCharSplit(s, a, '@');
    assert s[a..][1..] == s[a + 1..];
    assert IndexOf(s, '@') == a;
    var t := s[a + 1..];
    assert t[d - a - 1] == '.';
  }

  lemma {:induction false} ValidSplits(s: string) returns (a: nat, d: nat)
    requires IsValidEmail(s)
    ensures SplitsAsEmail(s, a, d)
  {
    a := IndexOf(s, '@');
    var t := s[a + 1..];
    var e :| 0 < e < |t| - 1 && t[e] == '.';
    d := a + 1 + e;
    CountCharSplit(s, a, '@');
    CountCharZero(s[..a], '@');
    assert s[a..][1..] == t;
    CountCharZero(t, '@');
    assert Atom(s[..a]);
    assert s[a + 1..d] == t[..e];
    assert s[d + 1..] == t[e + 1..];
  }

  /** The validator accepts exactly the strings the pattern matches. */
  lemma EmailValidatorMatchesPattern(s: string)
    ensures IsValidEmail(s) <==> MatchesEmailRegex(s)
  {
    if MatchesEmailRegex(s) {
      var a, d :| 0 <= a < d < |s| && s[a] == '@' && s[d] == '.'
        && Atom(s[..a]) && Atom(s[a + 1..d]) && Atom(s[d + 1..]);
      SplitIsValid(s, a, d);
    }
    if IsValidEmail(s) {
      var a, d := ValidSplits(s);
    }
  }

  // ---------------------------------------------------------------------
  // Schema validation and unique indexes
  // ---------------------------------------------------------------------

  /** Mongoose's `required` check for a string path: set and not empty. */
  predicate Present(o: Option<string>) {
    o.Some? && o.value != ""
  }

  /** The `enum: ['google', null]` constraint on `oauthProvider`. */
  predicate ProviderAllowed(p: Option<string>) {
    p == None || p == Some("google")
  }

  /** The `required` function on `password`: `!this.oauthProvider`, true when
      the provider is `null` or the empty string. */
  predicate PasswordRequired(u: User) {
    u.oauthProvider == None || u.oauthProvider == Some("")
  }

  /** All validators of the schema, applied to a document after its setters:
      username required with at least 3 characters, email required and
      matching the pattern, password required unless a provider is set and
      at least 6 characters when given, provider from the enum. */
  predicate SchemaValid(u: User) {
    && Present(Some(u.username)) && |u.username| >= 3
    && Present(u.email) && IsValidEmail(u.email.value)
    && (PasswordRequired(u) ==> Present(u.password))
    && (u.password.Some? ==> |u.password.value| >= 6)
    && ProviderAllowed(u.oauthProvider)
  }

  /** Among documents whose provider passes the enum, a password is required
      exactly when no provider is set; so a valid document without a password
      is a Google account. */
  lemma PasswordRequiredUnlessOAuth(u: User)
    requires ProviderAllowed(u.oauthProvider)
    ensures PasswordRequired(u) <==> u.oauthProvider.None?
    ensures SchemaValid(u) && u.password.None? ==> u.oauthProvider == Some("google")
  {
  }

  /** The document `register` builds, `new User({ username, password })`:
      no email is supplied. */
  function RegisterDocument(id: UserId, username: string, password: string, now: int): User
  {
    NewUser(id, username, None, Some(password), None, now)
  }

  /** Whatever the username and password, the document `register` builds
      fails validation, because the schema requires an email. */
  lemma RegisterDocumentFailsValidation(id: UserId, username: string, password: string, now: int)
    ensures !SchemaValid(RegisterDocument(id, username, password, now))
    ensures RegisterDocument(id, username, password, now).email.None?
  {
  }

  /** The unique indexes on `username` and `email` over a table keyed by
      username. A missing email is indexed as `null`, so at most one user
      may lack one. */
  predicate UniqueIndexes(users: map<string, User>) {
    && (forall k | k in users :: users[k].username == k)
    && (forall k1, k2 | k1 in users && k2 in users && k1 != k2 :: users[k1].email != users[k2].email)
  }

  /** The insert of `u` passes both unique indexes. */
  predicate IndexesAdmit(users: map<string, User>, u: User) {
    u.username !in users && forall k | k in users :: users[k].email != u.email
  }

  /** Inserting a document the indexes admit keeps them satisfied. */
  lemma InsertKeepsUniqueIndexes(users: map<string, User>, u: User)
    requires UniqueIndexes(users) && IndexesAdmit(users, u)
    ensures UniqueIndexes(users[u.username := u])
  {
  }

  // ---------------------------------------------------------------------
  // Passwords: the pre-save hook and comparePassword
  // ---------------------------------------------------------------------

  /** bcrypt as a pair of functions: `hash` (with its salt fixed inside it)
      and `matches`, standing for `bcrypt.compare(candidate, hashed)`. */
  datatype Hasher = Hasher(hash: string -> string, matches: (string, string) -> bool)

  /** What the model relies on from bcrypt: a hash is never empty, and a
      password matches its own hash. */
  ghost predicate BcryptLike(h: Hasher) {
    forall p :: h.hash(p) != "" && h.matches(p, h.hash(p))
  }

  /** The password the pre-save hook leaves: hashed when it was modified
      and is non-empty, untouched otherwise. */
  function HookedPassword(password: Option<string>, modified: bool, h: Hasher): Option<string>
  {
    if !modified || !Present(password) then password else Some(h.hash(password.value))
  }

  /** `comparePassword`: false for a user without a password (an OAuth-only
      account) whatever the candidate, otherwise bcrypt's verdict. */
  function ComparePassword(u: User, candidate: string, h: Hasher): (ok: bool)
    ensures !Present(u.password) ==> !ok
    ensures ok <==> Present(u.password) && h.matches(candidate, u.password.value)
  {
    if !Present(u.password) then false else h.matches(candidate, u.password.value)
  }

  /** A non-empty password that went through the hook verifies against
      itself: the stored hash is non-empty and bcrypt accepts it. */
  lemma {:induction false} HookedPasswordVerifies(u: User, p: string, h: Hasher)
    requires BcryptLike(h) && p != ""
    ensures ComparePassword(u.(password := HookedPassword(Some(p), true, h)), p, h)
  {
    assert h.hash(p) != "" && h.matches(p, h.hash(p));
  }

  /** A save that does not modify the password leaves it as it is. */
  lemma HookKeepsUnmodified(password: Option<string>, h: Hasher)
    ensures HookedPassword(password, false, h) == password
  {
  }

  /** A Mongoose document of the user schema, with its dirty flag for
      `password`. */
  class UserDocument {
    var record: User
    var passwordModified: bool

    /** `new User(fields)` on already-normalised fields: a new document counts
        every path it was given as modified. */
    constructor (u: User)
      ensures record == u && passwordModified == u.password.Some?
    {
      record := u;
      passwordModified := u.password.Some?;
    }

    /** The `pre('save')` hook: when the password was modified and is
        non-empty, replace it by its hash; otherwise leave it. */
    method HashPassword(h: Hasher)
      modifies this
      ensures passwordModified == old(passwordModified)
      ensures record == old(record).(password := HookedPassword(old(record.password), old(passwordModified), h))
    {
      if !passwordModified {
        return;
      }
      if record.password.None? || record.password.value == "" {
        return;
      }
      record := record.(password := Some(h.hash(record.password.value)));
    }

    /** `save()` as far as the password goes: the hook runs, then the saved
        document is clean, so a second save does not hash again. */
    method Save(h: Hasher)
      modifies this
      ensures !passwordModified
      ensures record == old(record).(password := HookedPassword(old(record.password), old(passwordModified), h))
    {
      HashPassword(h);
      passwordModified := false;
    }
  }
}
