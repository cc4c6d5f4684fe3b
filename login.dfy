/**
 * The login manager: accounts on top of the record store.  Passwords are kept
 * as bcrypt hashes; a session is a JWT signed with the process's ed25519 key
 * pair, carrying the user's name and admin flag, valid for thirty days.
 *
 * The key pair (made once at start-up) and the clock are parameters; a token
 * is modelled by its parsed form, with every text that does not parse as a
 * signed JWT standing as `Malformed`.
 */
module Login {
  import opened Wrappers
  import opened Crypto
  import opened RecordStore
  import opened RandomSequence

  datatype SessionUser = SessionUser(name: string, admin: bool)

  /** The registered claims exp, iat and sub (RFC 7519 sections 4.1.4, 4.1.6, 4.1.2), in Unix seconds, and the session. */
  datatype Claims = Claims(expiresAt: int, issuedAt: int, subject: string, user: SessionUser)

  datatype Token = Jws(claims: Claims, signature: Signature<Claims>) | Malformed

  datatype TokenUser = TokenUser(session: SessionUser, token: Token)

  datatype LoginError = StoreFailed(cause: StoreError) | PasswordMismatch | InvalidToken | HashFailed(reason: HashError)

  /** 30 days of 24 hours, in seconds. */
  const TokenLifetime: int := 30 * 24 * 3600

  /**
   * The time checks of the JWT library's claim validation: a zero exp or iat
   * is absent and passes; otherwise the token must not have expired and must
   * not be issued in the future.
   */
  predicate ValidAt(c: Claims, now: int)
  {
    && (c.expiresAt == 0 || now <= c.expiresAt)
    && (c.issuedAt == 0 || now >= c.issuedAt)
  }

  /** jwt.ParseWithClaims with the server's public key: the claims, if the signature and the times check. */
  function ParseToken(keys: KeyPair, token: Token, now: int): (r: Result<Claims, LoginError>)
    ensures r.Ok? <==> token.Jws? && Verify(Public(keys), token.claims, token.signature) && ValidAt(token.claims, now)
    ensures r.Ok? ==> r.value == token.claims
    ensures r.Err? ==> r.error == InvalidToken
  {
    match token
    case Malformed => Err(InvalidToken)
    case Jws(claims, signature) =>
      if !Verify(Public(keys), claims, signature) then Err(InvalidToken)
      else if !ValidAt(claims, now) then Err(InvalidToken)
      else Ok(claims)
  }

  /** NewTokenUser: sign thirty-day claims for `user` issued at `now`, and hand back the session with the token. */
  function NewTokenUser(keys: KeyPair, user: SessionUser, now: int): (r: TokenUser)
    ensures r.session == user && r.token.Jws?
    ensures r.token.claims == Claims(now + TokenLifetime, now, user.name, user)
  {
    var claims := Claims(now + TokenLifetime, now, user.name, user);
    TokenUser(user, Jws(claims, Sign(keys, claims)))
  }

  /**
   * A token made at `issued` parses under the same key pair from its issue time
   * up to thirty days later, and at no other time (a zero time reads as absent);
   * under any other key pair it never parses.
   */
  lemma TokenValidForThirtyDays(keys: KeyPair, user: SessionUser, issued: int, now: int, other: KeyPair)
    ensures var t := NewTokenUser(keys, user, issued).token;
      && (ParseToken(keys, t, now).Ok? <==>
          (issued + TokenLifetime == 0 || now <= issued + TokenLifetime) && (issued == 0 || issued <= now))
      && (ParseToken(keys, t, now).Ok? ==> ParseToken(keys, t, now).value.user == user)
      && (other.id != keys.id ==> ParseToken(other, t, now).Err?)
  {
    var t := NewTokenUser(keys, user, issued).token;
    VerifyIffSigned(keys, t.claims, t.signature);
    VerifyIffSigned(other, t.claims, t.signature);
  }

  /**
   * The stored record of `u.name` is `u` with a password hash that verifies
   * exactly the passwords bcrypt cannot tell from `password`.
   */
  ghost predicate StoredWithPassword(db: Db, u: User, password: string)
  {
    && UserKey(u.name) in db
    && db[UserKey(u.name)].UserRecord?
    && db[UserKey(u.name)].user == u.(password := db[UserKey(u.name)].user.password)
    && forall p :: CompareHashAndPassword(db[UserKey(u.name)].user.password, p) <==> SameBcryptKey(p, password)
  }

  /** A password bcrypt accepts and verifies by its exact bytes: at most 72 bytes, and no NUL. */
  predicate ExactlyHashable(password: string)
  {
    |Utf8(password)| <= MaxPasswordBytes && 0 as char !in password
  }

  /** `after` is `before` with the record at `key` written, and nothing else changed. */
  ghost predicate WroteOnly(before: Db, after: Db, key: string)
  {
    key in after && after == before[key := after[key]]
  }

  class LoginManager {
    const store: Store
    const keys: KeyPair

    constructor (store: Store, keys: KeyPair)
      ensures this.store == store && this.keys == keys
    {
      this.store := store;
      this.keys := keys;
    }

    /** LogIn: the stored user's name and flag, when the name exists and the password verifies against its hash. */
    function LogIn(name: string, password: string): (r: Result<SessionUser, LoginError>)
      reads store
      ensures r.Ok? <==> store.GetUser(name).Ok? && CompareHashAndPassword(store.GetUser(name).value.password, password)
      ensures r.Ok? ==> r.value == SessionUser(store.GetUser(name).value.name, store.GetUser(name).value.admin)
      ensures store.GetUser(name).Err? ==> r == Err(StoreFailed(store.GetUser(name).error))
    {
      match store.GetUser(name)
      case Err(e) => Err(StoreFailed(e))
      case Ok(user) =>
        if !CompareHashAndPassword(user.password, password) then Err(PasswordMismatch)
        else Ok(SessionUser(user.name, user.admin))
    }

    /**
     * DecodeToken: check the token, then read the live record of the name in its
     * claims; the name and admin flag inside the token are not used further.
     */
    function DecodeToken(token: Token, now: int): (r: Result<User, LoginError>)
      reads store
      ensures ParseToken(keys, token, now).Err? ==> r == Err(InvalidToken)
      ensures ParseToken(keys, token, now).Ok? ==>
        var name := ParseToken(keys, token, now).value.user.name;
        match store.GetUser(name)
        case Ok(u) => r == Ok(u)
        case Err(e) => r == Err(StoreFailed(e))
    {
      match ParseToken(keys, token, now)
      case Err(e) => Err(e)
      case Ok(claims) =>
        match store.GetUser(claims.user.name)
        case Ok(u) => Ok(u)
        case Err(e) => Err(StoreFailed(e))
    }

    /**
     * Two tokens that parse and name the same user decode to the same live
     * record, whatever admin flag each carries: a flag changed after issue
     * counts from the next request on.
     */
    lemma DecodeTokenIgnoresStaleFlag(t1: Token, t2: Token, now: int)
      requires ParseToken(keys, t1, now).Ok? && ParseToken(keys, t2, now).Ok?
      requires t1.claims.user.name == t2.claims.user.name
      ensures DecodeToken(t1, now) == DecodeToken(t2, now)
    {
    }

    /** A freshly issued session token decodes to the live record of its user, for thirty days. */
    lemma FreshTokenDecodes(user: SessionUser, issued: int, now: int)
      requires issued <= now <= issued + TokenLifetime
      ensures DecodeToken(NewTokenUser(keys, user, issued).token, now) ==
        match store.GetUser(user.name) case Ok(u) => Ok(u) case Err(e) => Err(StoreFailed(e))
    {
      TokenValidForThirtyDays(keys, user, issued, now, keys);
    }

    /**
     * A session token issued at `issued` decodes to the live record of its user
     * at every time from its issue to thirty days later, and is refused before
     * and after that window (a zero bound reads as absent).
     */
    lemma IssuedTokenDecodes(user: SessionUser, issued: int)
      ensures forall t :: issued <= t <= issued + TokenLifetime ==>
        DecodeToken(NewTokenUser(keys, user, issued).token, t) ==
          match store.GetUser(user.name) case Ok(u) => Ok(u) case Err(e) => Err(StoreFailed(e))
      ensures forall t :: (issued != 0 && t < issued) || (issued + TokenLifetime != 0 && t > issued + TokenLifetime) ==>
        DecodeToken(NewTokenUser(keys, user, issued).token, t) == Err(InvalidToken)
    {
      forall t | issued <= t <= issued + TokenLifetime
        ensures DecodeToken(NewTokenUser(keys, user, issued).token, t) ==
          match store.GetUser(user.name) case Ok(u) => Ok(u) case Err(e) => Err(StoreFailed(e))
      {
        FreshTokenDecodes(user, issued, t);
      }
      forall t | (issued != 0 && t < issued) || (issued + TokenLifetime != 0 && t > issued + TokenLifetime)
        ensures DecodeToken(NewTokenUser(keys, user, issued).token, t) == Err(InvalidToken)
      {
        TokenValidForThirtyDays(keys, user, issued, t, keys);
      }
    }

    /**
     * CreateUser: an existing name is reported (true) and nothing is written; a
     * store error other than not-found is returned; a password bcrypt refuses
     * (over 72 bytes) is returned as its error; otherwise the user is stored
     * with the password replaced by its hash.
     */
    method CreateUser(user: User) returns (alreadyExists: bool, err: Option<LoginError>)
      modifies store
      ensures old(store.GetUser(user.name)).Ok? ==> alreadyExists && err == None && store.db == old(store.db)
      ensures old(store.GetUser(user.name)) == Err(DecodeFailed) ==>
        !alreadyExists && err == Some(StoreFailed(DecodeFailed)) && store.db == old(store.db)
      ensures old(store.GetUser(user.name)) == Err(KeyNotFound) && |Utf8(user.password)| > MaxPasswordBytes ==>
        !alreadyExists && err == Some(HashFailed(PasswordTooLong)) && store.db == old(store.db)
      ensures old(store.GetUser(user.name)) == Err(KeyNotFound) && |Utf8(user.password)| <= MaxPasswordBytes ==>
        && !alreadyExists && err == None
        && WroteOnly(old(store.db), store.db, UserKey(user.name))
        && StoredWithPassword(store.db, user, user.password)
    {
      var found := store.GetUser(user.name);
      if found.Err? && found.error != KeyNotFound {
        return false, Some(StoreFailed(found.error));
      } else if found.Ok? {
        return true, None;
      }
      var hash := GenerateFromPassword(user.password);
      if hash.Err? {
        return false, Some(HashFailed(PasswordTooLong));
      }
      store.CreateUser(user.(password := hash.value));
      alreadyExists, err := false, None;
    }

    /**
     * A user just created logs in with every password bcrypt cannot tell from
     * the one it was created with, and with no other; for passwords of at most
     * 72 bytes without a NUL that is the same bytes.
     */
    lemma CreatedUserLogsIn(user: User, password: string)
      requires StoredWithPassword(store.db, user, user.password)
      ensures LogIn(user.name, password).Ok? <==> SameBcryptKey(password, user.password)
      ensures ExactlyHashable(password) && ExactlyHashable(user.password) ==>
        (LogIn(user.name, password).Ok? <==> Utf8(password) == Utf8(user.password))
      ensures LogIn(user.name, password).Ok? ==> LogIn(user.name, password).value == SessionUser(user.name, user.admin)
    {
      if ExactlyHashable(password) && ExactlyHashable(user.password) {
        SameKeyIffSameBytes(password, user.password);
      }
    }

    /**
     * ChangePassword: store `user` (name, admin flag and tabs as given) with a
     * fresh hash of `password`, or return bcrypt's refusal of a password over
     * 72 bytes with nothing written.
     */
    method ChangePassword(user: User, password: string) returns (err: Option<LoginError>)
      modifies store
      ensures err.Some? <==> |Utf8(password)| > MaxPasswordBytes
      ensures err.Some? ==> err.value == HashFailed(PasswordTooLong) && store.db == old(store.db)
      ensures err.None? ==>
        && WroteOnly(old(store.db), store.db, UserKey(user.name))
        && StoredWithPassword(store.db, user, password)
        && forall p :: LogIn(user.name, p).Ok? <==> SameBcryptKey(p, password)
    {
      var hash := GenerateFromPassword(password);
      if hash.Err? {
        return Some(HashFailed(PasswordTooLong));
      }
      store.CreateUser(user.(password := hash.value));
      err := None;
    }

    /** SetAdmin: the store's SetAdmin. */
    method SetAdmin(name: string, value: bool) returns (err: Option<StoreError>)
      modifies store
      ensures old(store.GetUser(name)).Err? ==> err == Some(old(store.GetUser(name)).error) && store.db == old(store.db)
      ensures old(store.GetUser(name)).Ok? ==>
        var u := old(store.GetUser(name)).value;
        err == None && store.db == old(store.db)[UserKey(u.name) := UserRecord(u.(admin := value))]
    {
      err := store.SetAdmin(name, value);
    }
  }

  /** The name and flag of the account made on an empty store. */
  const BootstrapName: string := "admin"
  const BootstrapPasswordLength: nat := 20

  /**
   * NewLoginManager: on a store without user keys, create the administrator
   * "admin" with a random 20-character password of letters and digits and hand
   * that password back (the Go code logs it); on any other store write nothing.
   */
  method NewLoginManager(store: Store, keys: KeyPair) returns (lm: LoginManager, generated: Option<string>)
    modifies store
    ensures lm.store == store && lm.keys == keys
    ensures |UserKeys(old(store.db))| != 0 ==> generated == None && store.db == old(store.db)
    ensures |UserKeys(old(store.db))| == 0 ==>
      && generated.Some?
      && |generated.value| == BootstrapPasswordLength
      && (forall c :: c in generated.value ==> c in Letters)
      && ExactlyHashable(generated.value)
      && WroteOnly(old(store.db), store.db, UserKey(BootstrapName))
      && StoredWithPassword(store.db, User(BootstrapName, generated.value, true, []), generated.value)
  {
    var count := store.CountUsers();
    lm := new LoginManager(store, keys);
    generated := None;
    if count == 0 {
      var pw := RandSeq(BootstrapPasswordLength, []);
      assert Alphabet([]) == Letters;
      LettersInRange();
      assert forall i :: 0 <= i < |pw.s| ==> pw.s[i] in Letters;
      AsciiUtf8Length(pw.s);
      var u := User(BootstrapName, pw.s, true, []);
      assert UserKey(BootstrapName) !in UserKeys(store.db) by {
        KeysInTheirNamespace(BootstrapName, NilUuid);
      }
      var alreadyExists, err := lm.CreateUser(u);
      generated := Some(pw.s);
    }
  }
}
