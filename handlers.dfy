/**
 * The HTTP handlers of the tabs server, reduced to their decisions: each one
 * decodes the caller's token, applies its authorisation rule, and makes the
 * store calls the rule lets through.  A handler's outcome is the first status
 * it writes, or `Panicked` when it dereferences the nil tab that GetTab gives
 * for an unknown id (the server then drops the connection).
 *
 * The request body arrives already decoded: a token in parsed form, and a tab
 * id as the result of uuid.Parse (None when the text is not a UUID).  A new
 * tab's UUID is a parameter.
 */
module Handlers {
  import opened Wrappers
  import opened Crypto
  import opened RecordStore
  import opened StoreInvariant
  import opened Login

  datatype Status =
    | StatusOK
    | StatusBadRequest
    | StatusUnauthorized
    | StatusInternalServerError
    | Panicked

  /** A status and, when the handler encodes one, the response body. */
  datatype Reply<T> = Reply(status: Status, body: Option<T>)

  // ---------------------------------------------------------------------------
  // Guards

  const MinPasswordLength: nat := 8

  /** A new password is long enough when its UTF-8 encoding (what Go's len measures) takes at least eight bytes. */
  predicate PasswordLongEnough(password: string)
  {
    |Utf8(password)| >= MinPasswordLength
  }

  /** Every password of eight characters or more is long enough; a shorter one passes only with non-ASCII characters. */
  lemma PasswordLengthInBytes(password: string)
    ensures |password| >= MinPasswordLength ==> PasswordLongEnough(password)
    ensures (forall i :: 0 <= i < |password| ==> password[i] < 0x80 as char) ==>
      (PasswordLongEnough(password) <==> |password| >= MinPasswordLength)
  {
    if forall i :: 0 <= i < |password| ==> password[i] < 0x80 as char {
      AsciiUtf8Length(password);
    }
  }

  /** Admin flags are changed by administrators, and never their own. */
  predicate MayChangeAdmin(caller: User, target: string)
  {
    caller.admin && target != caller.name
  }

  /** Accounts are deleted by administrators or by their own user. */
  predicate MayDeleteUser(caller: User, target: string)
  {
    caller.admin || caller.name == target
  }

  /** The deletion that would leave no administrator: the target is one, and the only one. */
  predicate DeletesLastAdmin(adminCount: nat, target: User)
  {
    adminCount == 1 && target.admin
  }

  /**
   * The guard against deleting the last administrator, with the count and the
   * flag read from the store: whenever it lets a deletion through, an
   * administrator other than the deleted user is left.
   */
  lemma LastAdminGuard(db: Db, name: string)
    requires UserKey(name) in db && !DecodeUser(db[UserKey(name)]).Err?
    requires AdminKeys(db) != {}
    requires !DeletesLastAdmin(|AdminKeys(db)|, DecodeUser(db[UserKey(name)]).value)
    ensures AdminKeys(db) - {UserKey(name)} != {}
  {
    if UserKey(name) in AdminKeys(db) {
      assert |AdminKeys(db)| != 1;
      assert |AdminKeys(db) - {UserKey(name)}| == |AdminKeys(db)| - 1;
    }
  }

  /** Tab contents and the public flag are changed by the tab's owner only. */
  predicate MayEditTab(caller: User, tab: Tab)
  {
    tab.owner == caller.name
  }

  /** Tabs are deleted by their owner or by an administrator. */
  predicate MayDeleteTab(caller: User, tab: Tab)
  {
    tab.owner == caller.name || caller.admin
  }

  /** A public tab is read by anyone; a private one by its owner only, with a valid token. */
  predicate MayReadTab(caller: Result<User, LoginError>, tab: Tab)
  {
    tab.public || (caller.Ok? && caller.value.name == tab.owner)
  }

  /**
   * RmTab's removal loop runs past the end of the owner's index: the owner
   * record reads, and splicing out the collected indices one after the other
   * reaches an index the shortened list no longer has.  In the server this is
   * a slice-bounds panic.
   */
  predicate RmTabOverruns(owner: Result<User, StoreError>, id: TabId)
  {
    owner.Ok? && SpliceEach(owner.value.tabs, IndicesOf(owner.value.tabs, id)).None?
  }

  /**
   * In a valid store, RmTab of a tab GetTab found does not overrun its owner's
   * index, and what it writes is valid and has the same administrators.
   */
  lemma RmStoredTab(store: Store, id: TabId)
    requires Valid(store.db) && store.GetTab(id).Ok? && store.GetTab(id).value.Some?
    ensures store.GetTab(id).value.value.id == id
    ensures var owner := store.GetUser(store.GetTab(id).value.value.owner);
      && owner.Ok?
      && !RmTabOverruns(owner, id)
      && var after := store.db[UserKey(owner.value.name) := UserRecord(owner.value.(tabs := SpliceEach(owner.value.tabs, IndicesOf(owner.value.tabs, id)).value))] - {TabKey(id)};
        Valid(after) && AdminKeys(after) == AdminKeys(store.db)
  {
    var db := store.db;
    WellKeyedLookups(db, "", id);
    RmTabKeepsValid(db, id);
    var u := UserOf(db, TabOf(db, id).owner);
    WellKeyedLookups(db, u.name, id);
    AdminKeysAfterReplaceUser(db, u.(tabs := Without(u.tabs, id)));
    AdminKeysAfterDelete(db[UserKey(u.name) := UserRecord(u.(tabs := Without(u.tabs, id)))], {TabKey(id)});
    TabKeyNotAdmin(db, id);
  }

  /**
   * The DELETE /tab request for `id` by `caller` panics: GetTab finds no tab
   * and the handler dereferences nil, or the caller may delete the tab found
   * and RmTab's removal loop overruns its owner's index at the tab's own id.
   */
  predicate DeletePanics(store: Store, caller: User, id: TabId)
    reads store
  {
    || store.GetTab(id) == Ok(None)
    || (&& store.GetTab(id).Ok?
        && store.GetTab(id).value.Some?
        && MayDeleteTab(caller, store.GetTab(id).value.value)
        && RmTabOverruns(store.GetUser(store.GetTab(id).value.value.owner), store.GetTab(id).value.value.id))
  }

  /** The administrators of the store are not left empty. */
  ghost predicate AdminSurvives(before: Db, after: Db)
  {
    AdminKeys(before) != {} ==> AdminKeys(after) != {}
  }

  // ---------------------------------------------------------------------------
  // Account handlers

  /** POST /login: check the password and issue a session token. */
  function LoginHandler(lm: LoginManager, name: string, password: string, now: int): (r: Reply<TokenUser>)
    reads lm.store
    ensures r.status == StatusOK <==> lm.LogIn(name, password).Ok?
    ensures r.status != StatusOK ==> r == Reply(StatusUnauthorized, None)
    ensures r.status == StatusOK ==> r.body.Some? && r.body.value.session == lm.LogIn(name, password).value
    ensures r.status == StatusOK ==> forall t :: now <= t <= now + TokenLifetime ==>
      lm.DecodeToken(r.body.value.token, t) ==
        match lm.store.GetUser(r.body.value.session.name) case Ok(u) => Ok(u) case Err(e) => Err(StoreFailed(e))
    ensures r.status == StatusOK ==> forall t :: (now != 0 && t < now) || (now + TokenLifetime != 0 && t > now + TokenLifetime) ==>
      lm.DecodeToken(r.body.value.token, t) == Err(InvalidToken)
  {
    match lm.LogIn(name, password)
    case Err(_) => Reply(StatusUnauthorized, None)
    case Ok(su) =>
      var tu := NewTokenUser(lm.keys, su, now);
      lm.IssuedTokenDecodes(su, now);
      Reply(StatusOK, Some(tu))
  }

  /** PUT /password: the caller sets their own password, of at least eight bytes. */
  method PasswordHandler(lm: LoginManager, token: Token, password: string, now: int) returns (status: Status)
    modifies lm.store
    ensures old(lm.DecodeToken(token, now)).Err? ==> status == StatusUnauthorized && lm.store.db == old(lm.store.db)
    ensures old(lm.DecodeToken(token, now)).Ok? && !PasswordLongEnough(password) ==>
      status == StatusBadRequest && lm.store.db == old(lm.store.db)
    ensures old(lm.DecodeToken(token, now)).Ok? && PasswordLongEnough(password) && |Utf8(password)| > MaxPasswordBytes ==>
      status == StatusInternalServerError && lm.store.db == old(lm.store.db)
    ensures old(lm.DecodeToken(token, now)).Ok? && PasswordLongEnough(password) && |Utf8(password)| <= MaxPasswordBytes ==>
      var caller := old(lm.DecodeToken(token, now)).value;
      && status == StatusOK
      && WroteOnly(old(lm.store.db), lm.store.db, UserKey(caller.name))
      && StoredWithPassword(lm.store.db, caller, password)
      && forall p :: lm.LogIn(caller.name, p).Ok? <==> SameBcryptKey(p, password)
    ensures Valid(old(lm.store.db)) ==>
      Valid(lm.store.db) && AdminKeys(lm.store.db) == AdminKeys(old(lm.store.db))
  {
    ghost var db0 := lm.store.db;
    var caller := lm.DecodeToken(token, now);
    if caller.Err? {
      return StatusUnauthorized;
    }
    if |Utf8(password)| < MinPasswordLength {
      return StatusBadRequest;
    }
    var user := caller.value;
    var err := lm.ChangePassword(user, password);
    if err.Some? {
      return StatusInternalServerError;
    }
    status := StatusOK;
    if Valid(db0) {
      WellKeyedLookups(db0, ParseToken(lm.keys, token, now).value.user.name, NilUuid);
      var stored := lm.store.db[UserKey(user.name)].user;
      ReplaceUserKeepsValid(db0, stored);
      AdminKeysAfterReplaceUser(db0, stored);
    }
  }

  /** PUT /admin: an administrator sets another user's admin flag. */
  method AdminHandler(lm: LoginManager, token: Token, name: string, admin: bool, now: int) returns (status: Status)
    modifies lm.store
    ensures old(lm.DecodeToken(token, now)).Err? ==> status == StatusUnauthorized && lm.store.db == old(lm.store.db)
    ensures old(lm.DecodeToken(token, now)).Ok? ==>
      var caller := old(lm.DecodeToken(token, now)).value;
      && (!caller.admin ==> status == StatusUnauthorized && lm.store.db == old(lm.store.db))
      && (caller.admin && name == caller.name ==> status == StatusBadRequest && lm.store.db == old(lm.store.db))
      && (MayChangeAdmin(caller, name) && old(lm.store.GetUser(name)).Err? ==>
            status == StatusInternalServerError && lm.store.db == old(lm.store.db))
      && (MayChangeAdmin(caller, name) && old(lm.store.GetUser(name)).Ok? ==>
            var u := old(lm.store.GetUser(name)).value;
            status == StatusOK && lm.store.db == old(lm.store.db)[UserKey(u.name) := UserRecord(u.(admin := admin))])
    ensures status == StatusOK && Valid(old(lm.store.db)) ==>
      var caller := old(lm.DecodeToken(token, now)).value;
      UserKey(caller.name) in AdminKeys(lm.store.db)
    ensures Valid(old(lm.store.db)) ==> Valid(lm.store.db) && AdminSurvives(old(lm.store.db), lm.store.db)
  {
    ghost var db0 := lm.store.db;
    var caller := lm.DecodeToken(token, now);
    if caller.Err? {
      return StatusUnauthorized;
    }
    var user := caller.value;
    if !user.admin {
      return StatusUnauthorized;
    }
    if name == user.name {
      return StatusBadRequest;
    }
    var err := lm.SetAdmin(name, admin);
    if err.Some? {
      return StatusInternalServerError;
    }
    status := StatusOK;
    if Valid(db0) {
      var claimed := ParseToken(lm.keys, token, now).value.user.name;
      WellKeyedLookups(db0, claimed, NilUuid);
      WellKeyedLookups(db0, name, NilUuid);
      var u := db0[UserKey(name)].user;
      ReplaceUserKeepsValid(db0, u.(admin := admin));
      AdminKeysAfterPutUser(db0, u.(admin := admin));
      KeysInjective(name, user.name);
      KeysInTheirNamespace(user.name, NilUuid);
      assert UserKey(user.name) in AdminKeys(db0);
    }
  }

  /**
   * DELETE /user: an administrator, or the user themself, deletes an account
   * with its tabs -- unless it is the last administrator.
   */
  method DeleteUserHandler(lm: LoginManager, token: Token, name: string, now: int) returns (status: Status)
    modifies lm.store
    ensures old(lm.DecodeToken(token, now)).Err? ==> status == StatusUnauthorized && lm.store.db == old(lm.store.db)
    ensures old(lm.DecodeToken(token, now)).Ok? && !MayDeleteUser(old(lm.DecodeToken(token, now)).value, name) ==>
      status == StatusUnauthorized && lm.store.db == old(lm.store.db)
    ensures status == StatusOK <==>
      && old(lm.DecodeToken(token, now)).Ok?
      && MayDeleteUser(old(lm.DecodeToken(token, now)).value, name)
      && old(lm.store.GetUser(name)).Ok?
      && (forall k :: k in UserKeys(old(lm.store.db)) ==> !old(lm.store.db)[k].Unparsable?)
      && !DeletesLastAdmin(|AdminKeys(old(lm.store.db))|, old(lm.store.GetUser(name)).value)
    ensures status == StatusOK ==>
      lm.store.db == old(lm.store.db) - TabKeysOf(old(lm.store.GetUser(name)).value.tabs) - {UserKey(name)}
    ensures status != StatusOK ==> lm.store.db == old(lm.store.db)
    ensures AdminSurvives(old(lm.store.db), lm.store.db)
    ensures Valid(old(lm.store.db)) ==> Valid(lm.store.db)
  {
    ghost var db0 := lm.store.db;
    var caller := lm.DecodeToken(token, now);
    if caller.Err? {
      return StatusUnauthorized;
    }
    var user := caller.value;
    if !user.admin && user.name != name {
      return StatusUnauthorized;
    }
    var target := lm.store.GetUser(name);
    if target.Err? {
      return StatusInternalServerError;
    }
    var num := lm.store.CountAdminUsers();
    if num.Err? {
      return StatusInternalServerError;
    }
    if num.value == 1 && target.value.admin {
      return StatusBadRequest;
    }
    var err := lm.store.RmUser(name);
    if err.Some? {
      return StatusInternalServerError;
    }
    status := StatusOK;
    AdminKeysAfterRmUser(db0, name, target.value.tabs);
    if AdminKeys(db0) != {} {
      LastAdminGuard(db0, name);
    }
    if Valid(db0) {
      WellKeyedLookups(db0, name, NilUuid);
      RmUserKeepsValid(db0, name);
    }
  }

  /** POST /user/get-all: an administrator lists every user, with the password hashes blanked. */
  method GetAllHandler(lm: LoginManager, token: Token, now: int) returns (status: Status, users: seq<User>, ghost keys: seq<string>)
    ensures status == StatusOK <==>
      && lm.DecodeToken(token, now).Ok?
      && lm.DecodeToken(token, now).value.admin
      && forall k :: k in UserKeys(lm.store.db) ==> !lm.store.db[k].Unparsable?
    ensures lm.DecodeToken(token, now).Err? || !lm.DecodeToken(token, now).value.admin ==> status == StatusUnauthorized
    ensures status == StatusOK ==> Enumerates(keys, UserKeys(lm.store.db)) && Ascending(keys) && |users| == |keys|
    ensures status == StatusOK ==> forall i :: 0 <= i < |keys| ==>
      keys[i] in lm.store.db && users[i] == DecodeUser(lm.store.db[keys[i]]).value.(password := [])
    ensures status != StatusOK ==> users == []
  {
    users := [];
    keys := [];
    var caller := lm.DecodeToken(token, now);
    if caller.Err? || !caller.value.admin {
      return StatusUnauthorized, users, keys;
    }
    var all;
    all, keys := lm.store.GetUsers();
    if all.Err? {
      keys := [];
      return StatusInternalServerError, users, keys;
    }
    var i := 0;
    while i < |all.value|
      invariant i <= |all.value|
      invariant |users| == i
      invariant forall j :: 0 <= j < i ==> users[j] == all.value[j].(password := [])
    {
      users := users + [all.value[i].(password := [])];
      i := i + 1;
    }
    status := StatusOK;
  }

  /** POST /register: an administrator creates an account under a new, non-empty name, with no tabs. */
  method RegisterHandler(lm: LoginManager, token: Token, username: string, password: string, admin: bool, now: int)
    returns (status: Status, created: Option<User>)
    modifies lm.store
    ensures old(lm.DecodeToken(token, now)).Err? || !old(lm.DecodeToken(token, now)).value.admin ==>
      status == StatusUnauthorized && lm.store.db == old(lm.store.db)
    ensures old(lm.DecodeToken(token, now)).Ok? && old(lm.DecodeToken(token, now)).value.admin ==>
      && (username == "" ==> status == StatusBadRequest && lm.store.db == old(lm.store.db))
      && (username != "" && old(lm.store.GetUser(username)).Ok? ==>
            status == StatusBadRequest && lm.store.db == old(lm.store.db))
      && (username != "" && old(lm.store.GetUser(username)) == Err(DecodeFailed) ==>
            status == StatusInternalServerError && lm.store.db == old(lm.store.db))
      && (username != "" && old(lm.store.GetUser(username)) == Err(KeyNotFound) && |Utf8(password)| > MaxPasswordBytes ==>
            status == StatusInternalServerError && lm.store.db == old(lm.store.db))
      && (username != "" && old(lm.store.GetUser(username)) == Err(KeyNotFound) && |Utf8(password)| <= MaxPasswordBytes ==>
            && status == StatusOK
            && created == Some(User(username, [], admin, []))
            && WroteOnly(old(lm.store.db), lm.store.db, UserKey(username))
            && StoredWithPassword(lm.store.db, User(username, password, admin, []), password))
    ensures status != StatusOK ==> created == None
    ensures Valid(old(lm.store.db)) ==> Valid(lm.store.db) && AdminKeys(old(lm.store.db)) <= AdminKeys(lm.store.db)
  {
    ghost var db0 := lm.store.db;
    created := None;
    var caller := lm.DecodeToken(token, now);
    if caller.Err? || !caller.value.admin {
      return StatusUnauthorized, created;
    }
    if username == "" {
      return StatusBadRequest, created;
    }
    var newUser := User(username, password, admin, []);
    var alreadyExists, err := lm.CreateUser(newUser);
    if err.Some? {
      return StatusInternalServerError, created;
    }
    if alreadyExists {
      return StatusBadRequest, created;
    }
    status, created := StatusOK, Some(newUser.(password := []));
    if Valid(db0) {
      var stored := lm.store.db[UserKey(username)].user;
      AddFreshUserKeepsValid(db0, stored);
      AdminKeysAfterPutUser(db0, stored);
    }
  }

  // ---------------------------------------------------------------------------
  // Tab handlers

  /**
   * DELETE /tab: the owner or an administrator deletes a tab.  A token that
   * does not decode writes 401 but does not end the handler: it goes on as the
   * zero user (no name, not an administrator), and the status stays 401.
   */
  method DeleteTabHandler(lm: LoginManager, token: Token, id: Option<TabId>, now: int) returns (status: Status)
    modifies lm.store
    ensures old(lm.DecodeToken(token, now)).Ok? && status != StatusOK ==> lm.store.db == old(lm.store.db)
    ensures status == Panicked <==>
      var caller := if old(lm.DecodeToken(token, now)).Ok? then old(lm.DecodeToken(token, now)).value else ZeroUser;
      id.Some? && old(DeletePanics(lm.store, caller, id.value))
    ensures Valid(old(lm.store.db)) ==> (status == Panicked <==> id.Some? && old(lm.store.GetTab(id.value)) == Ok(None))
    ensures old(lm.DecodeToken(token, now)).Err? && status != Panicked ==> status == StatusUnauthorized
    ensures lm.store.db != old(lm.store.db) ==>
      var caller := if old(lm.DecodeToken(token, now)).Ok? then old(lm.DecodeToken(token, now)).value else ZeroUser;
      && id.Some?
      && old(lm.store.GetTab(id.value)).Ok?
      && old(lm.store.GetTab(id.value)).value.Some?
      && MayDeleteTab(caller, old(lm.store.GetTab(id.value)).value.value)
    ensures Valid(old(lm.store.db)) && UserKey("") !in old(lm.store.db) && old(lm.DecodeToken(token, now)).Err? ==>
      lm.store.db == old(lm.store.db)
    ensures Valid(old(lm.store.db)) ==> Valid(lm.store.db) && AdminKeys(lm.store.db) == AdminKeys(old(lm.store.db))
  {
    ghost var db0 := lm.store.db;
    var caller := lm.DecodeToken(token, now);
    var written: Option<Status> := None;
    var user := ZeroUser;
    if caller.Err? {
      written := Some(StatusUnauthorized);
    } else {
      user := caller.value;
    }
    if id.None? {
      return if written.Some? then written.value else StatusBadRequest;
    }
    var alias := lm.store.GetTab(id.value);
    if alias.Err? {
      return if written.Some? then written.value else StatusInternalServerError;
    }
    if alias.value.None? {
      return Panicked;
    }
    var tab := alias.value.value;
    if tab.owner != user.name && !user.admin {
      return if written.Some? then written.value else StatusUnauthorized;
    }
    if Valid(db0) {
      RmStoredTab(lm.store, id.value);
    }
    ghost var owner0 := lm.store.GetUser(tab.owner);
    var err := lm.store.RmTab(tab);
    if err == Some(IndexOutOfRange) {
      assert owner0.Ok? && RmTabOverruns(owner0, tab.id);
      return Panicked;
    }
    if err.Some? {
      return if written.Some? then written.value else StatusInternalServerError;
    }
    status := if written.Some? then written.value else StatusOK;
  }

  /** POST /tab/new: a private, empty tab owned by the caller, under a new UUID. */
  method NewTabHandler(lm: LoginManager, token: Token, newId: TabId, now: int) returns (status: Status, created: Option<Tab>)
    modifies lm.store
    ensures old(lm.DecodeToken(token, now)).Err? ==> status == StatusUnauthorized && lm.store.db == old(lm.store.db)
    ensures status == StatusOK ==>
      && old(lm.DecodeToken(token, now)).Ok?
      && var caller := old(lm.DecodeToken(token, now)).value;
      && old(lm.store.GetUser(caller.name)).Ok?
      && var u := old(lm.store.GetUser(caller.name)).value;
      && created == Some(Tab(newId, caller.name, false, ""))
      && lm.store.db == old(lm.store.db)[UserKey(u.name) := UserRecord(WithTab(u, newId))][TabKey(newId) := TabRecord(created.value)]
    ensures status != StatusOK ==> created == None && lm.store.db == old(lm.store.db)
    ensures Valid(old(lm.store.db)) && old(lm.DecodeToken(token, now)).Ok? ==> status == StatusOK
    ensures Valid(old(lm.store.db)) && TabKey(newId) !in old(lm.store.db) ==>
      Valid(lm.store.db) && AdminKeys(lm.store.db) == AdminKeys(old(lm.store.db))
  {
    ghost var db0 := lm.store.db;
    created := None;
    var caller := lm.DecodeToken(token, now);
    if caller.Err? {
      return StatusUnauthorized, created;
    }
    var tab := Tab(newId, caller.value.name, false, "");
    if Valid(db0) {
      WellKeyedLookups(db0, ParseToken(lm.keys, token, now).value.user.name, NilUuid);
    }
    var err := lm.store.CreateTab(tab);
    if err.Some? {
      return StatusInternalServerError, created;
    }
    status, created := StatusOK, Some(tab);
    if Valid(db0) && TabKey(newId) !in db0 {
      CreateTabKeepsValid(db0, tab);
      var u := UserOf(db0, tab.owner);
      AdminKeysAfterReplaceUser(db0, WithTab(u, newId));
      AdminKeysAfterPutTab(db0[UserKey(u.name) := UserRecord(WithTab(u, newId))], tab);
    }
  }

  /** The look-up the content and public-flag handlers share: the tab's owner may change it. */
  method EditTab(lm: LoginManager, token: Token, id: Option<TabId>, now: int, contents: Option<string>, public: Option<bool>)
    returns (status: Status)
    modifies lm.store
    ensures old(lm.DecodeToken(token, now)).Err? ==> status == StatusUnauthorized && lm.store.db == old(lm.store.db)
    ensures old(lm.DecodeToken(token, now)).Ok? ==>
      var caller := old(lm.DecodeToken(token, now)).value;
      && (id.None? ==> status == StatusBadRequest && lm.store.db == old(lm.store.db))
      && (id.Some? && old(lm.store.GetTab(id.value)).Err? ==> status == StatusBadRequest && lm.store.db == old(lm.store.db))
      && (id.Some? && old(lm.store.GetTab(id.value)) == Ok(None) ==> status == Panicked && lm.store.db == old(lm.store.db))
      && (id.Some? && old(lm.store.GetTab(id.value)).Ok? && old(lm.store.GetTab(id.value)).value.Some? ==>
            var t := old(lm.store.GetTab(id.value)).value.value;
            var t' := t.(contents := if contents.Some? then contents.value else t.contents,
                         public := if public.Some? then public.value else t.public);
            && (!MayEditTab(caller, t) ==> status == StatusUnauthorized && lm.store.db == old(lm.store.db))
            && (MayEditTab(caller, t) ==> status == StatusOK && lm.store.db == old(lm.store.db)[TabKey(t.id) := TabRecord(t')]))
    ensures Valid(old(lm.store.db)) ==> Valid(lm.store.db) && AdminKeys(lm.store.db) == AdminKeys(old(lm.store.db))
  {
    ghost var db0 := lm.store.db;
    var caller := lm.DecodeToken(token, now);
    if caller.Err? {
      return StatusUnauthorized;
    }
    if id.None? {
      return StatusBadRequest;
    }
    var found := lm.store.GetTab(id.value);
    if found.Err? {
      return StatusBadRequest;
    }
    if found.value.None? {
      return Panicked;
    }
    var tab := found.value.value;
    if tab.owner != caller.value.name {
      return StatusUnauthorized;
    }
    if contents.Some? {
      tab := tab.(contents := contents.value);
    }
    if public.Some? {
      tab := tab.(public := public.value);
    }
    lm.store.SetTab(tab.id, tab);
    status := StatusOK;
    if Valid(db0) {
      WellKeyedLookups(db0, "", id.value);
      SetTabKeepsValid(db0, tab);
      AdminKeysAfterPutTab(db0, tab);
    }
  }

  /** PUT /tab: the owner replaces a tab's contents, and nothing else about it. */
  method PutTabHandler(lm: LoginManager, token: Token, data: string, id: Option<TabId>, now: int) returns (status: Status)
    modifies lm.store
    ensures old(lm.DecodeToken(token, now)).Err? ==> status == StatusUnauthorized && lm.store.db == old(lm.store.db)
    ensures status == StatusOK ==>
      && old(lm.DecodeToken(token, now)).Ok?
      && id.Some? && old(lm.store.GetTab(id.value)).Ok? && old(lm.store.GetTab(id.value)).value.Some?
      && var t := old(lm.store.GetTab(id.value)).value.value;
      && MayEditTab(old(lm.DecodeToken(token, now)).value, t)
      && lm.store.db == old(lm.store.db)[TabKey(t.id) := TabRecord(t.(contents := data))]
    ensures status != StatusOK ==> lm.store.db == old(lm.store.db)
    ensures Valid(old(lm.store.db)) ==> Valid(lm.store.db) && AdminKeys(lm.store.db) == AdminKeys(old(lm.store.db))
  {
    status := EditTab(lm, token, id, now, Some(data), None);
  }

  /** PUT /tab/public: the owner sets a tab's public flag, and nothing else about it. */
  method PublicTabHandler(lm: LoginManager, token: Token, id: Option<TabId>, public: bool, now: int) returns (status: Status)
    modifies lm.store
    ensures old(lm.DecodeToken(token, now)).Err? ==> status == StatusUnauthorized && lm.store.db == old(lm.store.db)
    ensures status == StatusOK ==>
      && old(lm.DecodeToken(token, now)).Ok?
      && id.Some? && old(lm.store.GetTab(id.value)).Ok? && old(lm.store.GetTab(id.value)).value.Some?
      && var t := old(lm.store.GetTab(id.value)).value.value;
      && MayEditTab(old(lm.DecodeToken(token, now)).value, t)
      && lm.store.db == old(lm.store.db)[TabKey(t.id) := TabRecord(t.(public := public))]
    ensures status != StatusOK ==> lm.store.db == old(lm.store.db)
    ensures Valid(old(lm.store.db)) ==> Valid(lm.store.db) && AdminKeys(lm.store.db) == AdminKeys(old(lm.store.db))
  {
    status := EditTab(lm, token, id, now, None, Some(public));
  }

  /** POST /tab/get: a public tab for anyone, a private one for its owner only. */
  function GetTabHandler(lm: LoginManager, token: Token, id: Option<TabId>, now: int): (r: Reply<Tab>)
    reads lm.store
    ensures r.status == StatusOK <==>
      && id.Some?
      && lm.store.GetTab(id.value).Ok?
      && lm.store.GetTab(id.value).value.Some?
      && MayReadTab(lm.DecodeToken(token, now), lm.store.GetTab(id.value).value.value)
    ensures r.status == StatusOK ==> r.body == lm.store.GetTab(id.value).value
    ensures r.status == Panicked <==> id.Some? && lm.store.GetTab(id.value) == Ok(None)
    ensures r.status != StatusOK ==> r.body == None
  {
    if id.None? then Reply(StatusBadRequest, None)
    else match lm.store.GetTab(id.value)
      case Err(_) => Reply(StatusInternalServerError, None)
      case Ok(None) => Reply(Panicked, None)
      case Ok(Some(t)) =>
        if t.public then Reply(StatusOK, Some(t))
        else match lm.DecodeToken(token, now)
          case Err(_) => Reply(StatusUnauthorized, None)
          case Ok(user) =>
            if user.name != t.owner then Reply(StatusUnauthorized, None)
            else Reply(StatusOK, Some(t))
  }

  /** Not even an administrator reads another user's private tab. */
  lemma PrivateTabsStayPrivate(lm: LoginManager, token: Token, id: TabId, now: int)
    requires lm.store.GetTab(id).Ok? && lm.store.GetTab(id).value.Some?
    requires !lm.store.GetTab(id).value.value.public
    requires lm.DecodeToken(token, now).Ok? && lm.DecodeToken(token, now).value.name != lm.store.GetTab(id).value.value.owner
    ensures GetTabHandler(lm, token, Some(id), now).status == StatusUnauthorized
  {
  }

  /** POST /tab/all-for-user: the caller's tabs, looked up from the index of their live record. */
  method AllForUserHandler(lm: LoginManager, token: Token, now: int) returns (status: Status, tabs: seq<Tab>)
    ensures lm.DecodeToken(token, now).Err? ==> status == StatusUnauthorized && tabs == []
    ensures lm.DecodeToken(token, now).Ok? ==>
      var ids := lm.DecodeToken(token, now).value.tabs;
      && (status == StatusOK <==>
            forall i :: 0 <= i < FirstMissing(lm.store.db, ids) ==> !lm.store.db[TabKey(ids[i])].Unparsable?)
      && (status != StatusOK ==> status == StatusInternalServerError && tabs == [])
      && (status == StatusOK ==> |tabs| == |ids| && forall i :: 0 <= i < |ids| ==>
            tabs[i] == if i < FirstMissing(lm.store.db, ids) then DecodeTab(lm.store.db[TabKey(ids[i])]).value else ZeroTab)
    ensures Valid(lm.store.db) && lm.DecodeToken(token, now).Ok? ==>
      var caller := lm.DecodeToken(token, now).value;
      && status == StatusOK
      && |tabs| == |caller.tabs|
      && forall i :: 0 <= i < |tabs| ==> tabs[i].id == caller.tabs[i] && tabs[i].owner == caller.name
  {
    tabs := [];
    var caller := lm.DecodeToken(token, now);
    if caller.Err? {
      return StatusUnauthorized, tabs;
    }
    if Valid(lm.store.db) {
      WellKeyedLookups(lm.store.db, ParseToken(lm.keys, token, now).value.user.name, NilUuid);
      IndexedTabsStored(lm.store.db, caller.value);
    }
    var found := lm.store.GetUserTabs(caller.value);
    if found.Err? {
      return StatusInternalServerError, tabs;
    }
    status, tabs := StatusOK, found.value;
  }

  /**
   * In a valid store every id a stored user's index lists names a stored tab
   * with that id, owned by the user: the index look-up never stops early.
   */
  lemma IndexedTabsStored(db: Db, u: User)
    requires Valid(db) && UserKey(u.name) in db && db[UserKey(u.name)] == UserRecord(u)
    ensures FirstMissing(db, u.tabs) == |u.tabs|
    ensures forall i :: 0 <= i < |u.tabs| ==>
      && db[TabKey(u.tabs[i])].TabRecord?
      && DecodeTab(db[TabKey(u.tabs[i])]).value.id == u.tabs[i]
      && DecodeTab(db[TabKey(u.tabs[i])]).value.owner == u.name
  {
    assert UserAt(db, u.name) && UserOf(db, u.name) == u;
    forall i | 0 <= i < |u.tabs|
      ensures TabAt(db, u.tabs[i]) && TabOf(db, u.tabs[i]).id == u.tabs[i] && TabOf(db, u.tabs[i]).owner == u.name
    {
      assert u.tabs[i] in UserOf(db, u.name).tabs;
      WellKeyedLookups(db, u.name, u.tabs[i]);
    }
  }

  /** POST /tab/all-public: every stored public tab, in ascending key order; this scan never fails. */
  method AllPublicHandler(lm: LoginManager) returns (status: Status, tabs: seq<Tab>, ghost keys: seq<string>)
    ensures status == StatusOK
    ensures Enumerates(keys, PublicTabKeys(lm.store.db)) && Ascending(keys) && |tabs| == |keys|
    ensures forall i :: 0 <= i < |keys| ==> keys[i] in lm.store.db && lm.store.db[keys[i]] == TabRecord(tabs[i])
    ensures forall t :: t in tabs ==> t.public
    ensures |tabs| == |PublicTabKeys(lm.store.db)|
  {
    tabs, keys := lm.store.GetPublicTabs();
    status := StatusOK;
    DistinctCardinality(keys);
  }


  /** A list of distinct keys has as many elements as its set. */
  lemma {:induction false} DistinctCardinality(keys: seq<string>)
    requires Distinct(keys)
    ensures |set k | k in keys| == |keys|
  {
    if keys != [] {
      var rest := keys[1..];
      assert Distinct(rest);
      DistinctCardinality(rest);
      assert (set k | k in keys) == (set k | k in rest) + {keys[0]};
      assert keys[0] !in rest;
    }
  }
}
