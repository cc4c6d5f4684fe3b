/**
 * The record store of the tabs server: users and tabs kept as JSON values in
 * one ordered key-value engine (Badger), each kind under its own key prefix.
 *
 * The engine is the map `Store.db` from keys to stored values; every callback
 * the Go code passes to `db.Update` or `db.View` is one step of one method.
 * A stored value is a user record, a tab record, or bytes that do not decode
 * as JSON (`Unparsable`).  Go's JSON decoder ignores fields it does not know,
 * so decoding a record of the other kind succeeds with the zero value.
 */
module RecordStore {
  import opened Wrappers

  const UserPrefix: string := "user_"
  const TabPrefix: string := "tab_"

  /** A tab identifier (a UUID) in its canonical text form, as `id.String()` gives it. */
  type TabId = string

  /** The text form of the zero UUID, which a zero `Tab` carries. */
  const NilUuid: TabId := "00000000-0000-0000-0000-000000000000"

  datatype User = User(name: string, password: string, admin: bool, tabs: seq<TabId>)

  /** `public` says whether the tab is listed on the home page; `contents` is its JSON text. */
  datatype Tab = Tab(id: TabId, owner: string, public: bool, contents: string)

  const ZeroUser: User := User("", "", false, [])
  const ZeroTab: Tab := Tab(NilUuid, "", false, "")

  datatype Record = UserRecord(user: User) | TabRecord(tab: Tab) | Unparsable

  type Db = map<string, Record>

  /**
   * KeyNotFound is badger.ErrKeyNotFound, DecodeFailed a JSON decoding error.
   * IndexOutOfRange stands for the run-time panic of a slice expression out of
   * range; the transaction is then discarded, so nothing is written.
   */
  datatype StoreError = KeyNotFound | DecodeFailed | IndexOutOfRange

  // ---------------------------------------------------------------------------
  // Keys

  /** `prefix(p, key)`: the engine key of `key` in the namespace `p`. */
  function Prefix(p: string, key: string): (r: string)
    ensures |r| == |p| + |key| && r[..|p|] == p && r[|p|..] == key
  {
    p + key
  }

  function UserKey(name: string): string
  {
    Prefix(UserPrefix, name)
  }

  function TabKey(id: TabId): string
  {
    Prefix(TabPrefix, id)
  }

  /** The engine's `ValidForPrefix`: `key` starts with `p`. */
  predicate HasPrefix(p: string, key: string)
  {
    |p| <= |key| && key[..|p|] == p
  }

  /** Each key lies in its own namespace and in no other: the two namespaces are disjoint. */
  lemma KeysInTheirNamespace(name: string, id: TabId)
    ensures HasPrefix(UserPrefix, UserKey(name)) && !HasPrefix(TabPrefix, UserKey(name))
    ensures HasPrefix(TabPrefix, TabKey(id)) && !HasPrefix(UserPrefix, TabKey(id))
    ensures UserKey(name) != TabKey(id)
  {
    assert UserKey(name)[..|UserPrefix|] == UserPrefix;
    assert TabKey(id)[..|TabPrefix|] == TabPrefix;
    assert UserKey(name)[0] == 'u' && TabKey(id)[0] == 't';
  }

  /** Different names give different keys, and different ids too. */
  lemma KeysInjective(a: string, b: string)
    ensures UserKey(a) == UserKey(b) ==> a == b
    ensures TabKey(a) == TabKey(b) ==> a == b
  {
    assert UserKey(a)[|UserPrefix|..] == a && UserKey(b)[|UserPrefix|..] == b;
    assert TabKey(a)[|TabPrefix|..] == a && TabKey(b)[|TabPrefix|..] == b;
  }

  /** A key that starts with `user_` is the key of the name that follows the prefix. */
  lemma UserKeyOfPrefixed(key: string)
    requires HasPrefix(UserPrefix, key)
    ensures key == UserKey(key[|UserPrefix|..])
  {
    assert key == key[..|UserPrefix|] + key[|UserPrefix|..];
  }

  // ---------------------------------------------------------------------------
  // Decoding and scanning

  function DecodeUser(r: Record): (u: Result<User, StoreError>)
    ensures u.Err? <==> r.Unparsable?
    ensures u.Err? ==> u.error == DecodeFailed
    ensures r.UserRecord? ==> u == Ok(r.user)
    ensures r.TabRecord? ==> u == Ok(ZeroUser)
  {
    match r
    case UserRecord(user) => Ok(user)
    case TabRecord(_) => Ok(ZeroUser)
    case Unparsable => Err(DecodeFailed)
  }

  function DecodeTab(r: Record): (t: Result<Tab, StoreError>)
    ensures t.Err? <==> r.Unparsable?
    ensures t.Err? ==> t.error == DecodeFailed
    ensures r.TabRecord? ==> t == Ok(r.tab)
    ensures r.UserRecord? ==> t == Ok(ZeroTab)
  {
    match r
    case TabRecord(tab) => Ok(tab)
    case UserRecord(_) => Ok(ZeroTab)
    case Unparsable => Err(DecodeFailed)
  }

  /** The keys a prefix scan from `user_` visits. */
  function UserKeys(db: Db): set<string>
  {
    set k | k in db && HasPrefix(UserPrefix, k)
  }

  /** The keys a prefix scan from `tab_` visits. */
  function TabKeys(db: Db): set<string>
  {
    set k | k in db && HasPrefix(TabPrefix, k)
  }

  predicate IsAdminRecord(r: Record)
  {
    r.UserRecord? && r.user.admin
  }

  predicate IsPublicRecord(r: Record)
  {
    r.TabRecord? && r.tab.public
  }

  /** The user keys whose record is an administrator. */
  ghost function AdminKeys(db: Db): set<string>
  {
    set k | k in UserKeys(db) && IsAdminRecord(db[k])
  }

  /** The tab keys whose record is a public tab. */
  ghost function PublicTabKeys(db: Db): set<string>
  {
    set k | k in TabKeys(db) && IsPublicRecord(db[k])
  }

  /** The keys among `ks` whose record is an administrator. */
  ghost function AdminsAmong(db: Db, ks: seq<string>): set<string>
  {
    set k | k in ks && k in db && IsAdminRecord(db[k])
  }

  /** Counting one more key of a distinct list adds it to the administrators found exactly when it is one. */
  lemma AdminsAmongStep(db: Db, keys: seq<string>, i: nat)
    requires i < |keys| && Distinct(keys) && keys[i] in db
    ensures |AdminsAmong(db, keys[..i + 1])| ==
      |AdminsAmong(db, keys[..i])| + if IsAdminRecord(db[keys[i]]) then 1 else 0
  {
    assert keys[..i + 1] == keys[..i] + [keys[i]];
    assert keys[i] !in keys[..i];
    if IsAdminRecord(db[keys[i]]) {
      assert AdminsAmong(db, keys[..i + 1]) == AdminsAmong(db, keys[..i]) + {keys[i]};
    } else {
      assert AdminsAmong(db, keys[..i + 1]) == AdminsAmong(db, keys[..i]);
    }
  }

  /** The keys of the given tab ids. */
  ghost function TabKeysOf(ids: seq<TabId>): set<string>
  {
    set id | id in ids :: TabKey(id)
  }

  predicate Distinct<T(==)>(s: seq<T>)
  {
    forall i, j :: 0 <= i < j < |s| ==> s[i] != s[j]
  }

  /** `keys` lists every element of `s` exactly once: the order in which a scan visited them. */
  ghost predicate Enumerates(keys: seq<string>, s: set<string>)
  {
    Distinct(keys) && (set k | k in keys) == s
  }

  // ---------------------------------------------------------------------------
  // The engine's key order

  /**
   * Badger iterates keys in byte-wise lexicographic order.  Keys here are
   * UTF-8 text, whose byte order is the order of the code points, so the
   * comparison runs character by character; a proper prefix comes first.
   */
  predicate KeyBelow(a: string, b: string)
  {
    if a == [] then b != []
    else if b == [] then false
    else a[0] < b[0] || (a[0] == b[0] && KeyBelow(a[1..], b[1..]))
  }

  /** The keys are strictly increasing in the engine's order: the order of a scan. */
  predicate Ascending(keys: seq<string>)
  {
    forall i, j {:trigger KeyBelow(keys[i], keys[j])} :: 0 <= i < j < |keys| ==> KeyBelow(keys[i], keys[j])
  }

  lemma {:induction false} KeyBelowIrreflexive(a: string)
    ensures !KeyBelow(a, a)
  {
    if a != [] {
      KeyBelowIrreflexive(a[1..]);
    }
  }

  lemma {:induction false} KeyBelowTransitive(a: string, b: string, c: string)
    requires KeyBelow(a, b) && KeyBelow(b, c)
    ensures KeyBelow(a, c)
  {
    if a != [] && b != [] && c != [] && a[0] == b[0] == c[0] {
      KeyBelowTransitive(a[1..], b[1..], c[1..]);
    }
  }

  lemma {:induction false} KeyBelowTotal(a: string, b: string)
    requires a != b
    ensures KeyBelow(a, b) || KeyBelow(b, a)
  {
    if a != [] && b != [] && a[0] == b[0] {
      assert a == [a[0]] + a[1..] && b == [b[0]] + b[1..];
      KeyBelowTotal(a[1..], b[1..]);
    }
  }

  /** Every non-empty set of keys has a least key: where a scan goes next. */
  lemma {:induction false} LeastKey(s: set<string>) returns (m: string)
    requires s != {}
    ensures m in s && forall x :: x in s && x != m ==> KeyBelow(m, x)
    decreases |s|
  {
    var y :| y in s;
    if s == {y} {
      m := y;
    } else {
      var m' := LeastKey(s - {y});
      if KeyBelow(y, m') {
        m := y;
        forall x | x in s && x != m ensures KeyBelow(m, x) {
          if x != m' {
            KeyBelowTransitive(y, m', x);
          }
        }
      } else {
        KeyBelowTotal(y, m');
        m := m';
      }
    }
  }

  /** Every key listed so far lies below every key not yet visited. */
  predicate AllBelow(keys: seq<string>, rest: set<string>)
  {
    forall i, x {:trigger KeyBelow(keys[i], x)} :: 0 <= i < |keys| && x in rest ==> KeyBelow(keys[i], x)
  }

  /**
   * Where a scan over `all` stands: the keys visited so far, listed once each
   * and ascending, are the keys of `all` outside `rest`, and each lies below
   * every key still in `rest`.
   */
  ghost predicate ScanSoFar(keys: seq<string>, rest: set<string>, all: set<string>)
  {
    Distinct(keys) && (set k | k in keys) == all - rest && Ascending(keys) && AllBelow(keys, rest)
  }

  /** Visiting the least key of `rest` and keeping it. */
  lemma ScanTake(keys: seq<string>, rest: set<string>, all: set<string>, k: string)
    requires ScanSoFar(keys, rest, all) && k in rest && k in all
    requires forall x :: x in rest && x != k ==> KeyBelow(k, x)
    ensures ScanSoFar(keys + [k], rest - {k}, all)
  {
    assert (set x | x in keys + [k]) == (set x | x in keys) + {k};
  }

  /** Visiting a key of `rest` that is not in `all`, and passing over it. */
  lemma ScanSkip(keys: seq<string>, rest: set<string>, all: set<string>, k: string)
    requires ScanSoFar(keys, rest, all) && k in rest && k !in all
    ensures ScanSoFar(keys, rest - {k}, all)
  {
  }

  /** An ascending list lists each key once. */
  lemma AscendingDistinct(keys: seq<string>)
    requires Ascending(keys)
    ensures Distinct(keys)
  {
    forall i, j | 0 <= i < j < |keys| ensures keys[i] != keys[j] {
      KeyBelowIrreflexive(keys[i]);
    }
  }

  /** Two ascending lists of the same keys are the same list: the scan order is determined. */
  lemma {:induction false} AscendingUnique(a: seq<string>, b: seq<string>)
    requires Ascending(a) && Ascending(b)
    requires forall k :: k in a <==> k in b
    ensures a == b
  {
    assert b != [] ==> b[0] in a;
    if a != [] {
      assert a[0] in b && b[0] in a;
      if a[0] != b[0] {
        var i :| 0 <= i < |b| && b[i] == a[0];
        var j :| 0 <= j < |a| && a[j] == b[0];
        KeyBelowTransitive(a[0], a[j], b[i]);
        KeyBelowIrreflexive(a[0]);
      }
      AscendingDistinct(a);
      AscendingDistinct(b);
      assert a == [a[0]] + a[1..] && b == [b[0]] + b[1..];
      forall k ensures k in a[1..] <==> k in b[1..] {
        assert a[0] !in a[1..] && b[0] !in b[1..];
        assert k in a <==> k == a[0] || k in a[1..];
        assert k in b <==> k == b[0] || k in b[1..];
      }
      AscendingUnique(a[1..], b[1..]);
    }
  }

  /** The index of the first id in `ids` that has no tab key in `db`, or |ids| if there is none. */
  function FirstMissing(db: Db, ids: seq<TabId>): (m: nat)
    ensures m <= |ids|
    ensures forall i :: 0 <= i < m ==> TabKey(ids[i]) in db
    ensures m < |ids| ==> TabKey(ids[m]) !in db
  {
    if ids == [] then 0
    else if TabKey(ids[0]) !in db then 0
    else 1 + FirstMissing(db, ids[1..])
  }

  /** `u` with `id` appended to its index of owned tabs. */
  function WithTab(u: User, id: TabId): (r: User)
  {
    u.(tabs := u.tabs + [id])
  }

  // ---------------------------------------------------------------------------
  // Removing an id from a user's index

  /** The indices at which `id` occurs in `ids`, in increasing order. */
  function IndicesOf(ids: seq<TabId>, id: TabId): (r: seq<nat>)
    ensures forall j :: 0 <= j < |r| ==> r[j] < |ids| && ids[r[j]] == id
    ensures forall i :: 0 <= i < |ids| && ids[i] == id ==> i in r
    ensures forall j, k :: 0 <= j < k < |r| ==> r[j] < r[k]
  {
    if ids == [] then []
    else
      var rest := IndicesOf(ids[..|ids| - 1], id);
      if ids[|ids| - 1] == id then rest + [|ids| - 1] else rest
  }

  /**
   * The removal loop of RmTabFromUser as written: for each collected index r,
   * `tabs = append(tabs[:r], tabs[r+1:]...)`.  The indices were collected
   * before the first splice, so after it they are stale.  None is the panic
   * of `tabs[r+1:]` when r+1 exceeds the length.
   */
  function SpliceEach(tabs: seq<TabId>, indices: seq<nat>): (r: Option<seq<TabId>>)
    ensures r.Some? <==> forall j :: 0 <= j < |indices| ==> indices[j] + j < |tabs|
    ensures r.Some? ==> |r.value| == |tabs| - |indices|
  {
    if indices == [] then Some(tabs)
    else if indices[0] + 1 > |tabs| then None
    else SpliceEach(tabs[..indices[0]] + tabs[indices[0] + 1..], indices[1..])
  }

  /** What RmTabFromUser evidently means to do: drop every occurrence of `id`, keep the rest in order. */
  function Without(ids: seq<TabId>, id: TabId): (r: seq<TabId>)
    ensures forall x :: x in r <==> x in ids && x != id
    ensures |r| <= |ids|
  {
    if ids == [] then []
    else if ids[0] == id then Without(ids[1..], id)
    else [ids[0]] + Without(ids[1..], id)
  }

  /** The first loop of RmTabFromUser: the indices holding `id`, collected before any removal. */
  method CollectIndices(ids: seq<TabId>, id: TabId) returns (toRemove: seq<nat>)
    ensures toRemove == IndicesOf(ids, id)
  {
    toRemove := [];
    var i := 0;
    while i < |ids|
      invariant i <= |ids|
      invariant toRemove == IndicesOf(ids[..i], id)
    {
      assert ids[..i + 1][..i] == ids[..i];
      if ids[i] == id {
        toRemove := toRemove + [i];
      }
      i := i + 1;
    }
    assert ids[..i] == ids;
  }

  /** The second loop of RmTabFromUser: splice out each collected index in turn (None: the slice panics). */
  method SpliceAll(ids: seq<TabId>, toRemove: seq<nat>) returns (r: Option<seq<TabId>>)
    ensures r == SpliceEach(ids, toRemove)
  {
    var tabs := ids;
    var j := 0;
    while j < |toRemove|
      invariant j <= |toRemove|
      invariant SpliceEach(tabs, toRemove[j..]) == SpliceEach(ids, toRemove)
    {
      var k := toRemove[j];
      assert toRemove[j..][0] == k && toRemove[j..][1..] == toRemove[j + 1..];
      if k + 1 > |tabs| {
        return None;
      }
      tabs := tabs[..k] + tabs[k + 1..];
      j := j + 1;
    }
    assert toRemove[j..] == [];
    r := Some(tabs);
  }

  // ---------------------------------------------------------------------------
  // The store

  class Store {
    /** The engine's contents. */
    var db: Db

    /** NewStore: open the engine over whatever it already holds. */
    constructor (contents: Db)
      ensures db == contents
    {
      db := contents;
    }

    /** CreateUser: write `user` at its key, overwriting whatever was there. */
    method CreateUser(user: User)
      modifies this
      ensures db == old(db)[UserKey(user.name) := UserRecord(user)]
    {
      db := db[Prefix(UserPrefix, user.name) := UserRecord(user)];
    }

    /** UpdateUser: the same write as CreateUser (it encodes through one more pointer). */
    method UpdateUser(user: User)
      modifies this
      ensures db == old(db)[UserKey(user.name) := UserRecord(user)]
    {
      db := db[Prefix(UserPrefix, user.name) := UserRecord(user)];
    }

    /** GetUser: the record stored under the name, decoded. */
    function GetUser(name: string): (r: Result<User, StoreError>)
      reads this
      ensures r == Err(KeyNotFound) <==> UserKey(name) !in db
      ensures r == Err(DecodeFailed) <==> UserKey(name) in db && db[UserKey(name)].Unparsable?
      ensures r.Ok? && db[UserKey(name)].UserRecord? ==> r.value == db[UserKey(name)].user
    {
      var key := Prefix(UserPrefix, name);
      if key !in db then Err(KeyNotFound) else DecodeUser(db[key])
    }

    /** CountUsers: the number of keys under the user prefix, counted one by one. */
    method CountUsers() returns (n: nat)
      ensures n == |UserKeys(db)|
    {
      n := 0;
      var rest := UserKeys(db);
      while rest != {}
        invariant rest <= UserKeys(db)
        invariant n + |rest| == |UserKeys(db)|
        decreases |rest|
      {
        var k :| k in rest;
        n := n + 1;
        rest := rest - {k};
      }
    }

    /**
     * GetUsers: every record under the user prefix, decoded, in the order the
     * scan visits them: ascending key order.
     */
    method GetUsers() returns (r: Result<seq<User>, StoreError>, ghost keys: seq<string>)
      ensures r.Err? <==> exists k :: k in UserKeys(db) && db[k].Unparsable?
      ensures r.Err? ==> r.error == DecodeFailed
      ensures r.Ok? ==> Enumerates(keys, UserKeys(db)) && Ascending(keys) && |r.value| == |keys|
      ensures r.Ok? ==> forall i :: 0 <= i < |keys| ==> keys[i] in db && DecodeUser(db[keys[i]]) == Ok(r.value[i])
    {
      var users: seq<User> := [];
      keys := [];
      var rest := UserKeys(db);
      while rest != {}
        invariant rest <= UserKeys(db)
        invariant ScanSoFar(keys, rest, UserKeys(db))
        invariant |users| == |keys|
        invariant forall i :: 0 <= i < |keys| ==> keys[i] in db && DecodeUser(db[keys[i]]) == Ok(users[i])
        decreases |rest|
      {
        ghost var least := LeastKey(rest);
        var k :| k in rest && forall x :: x in rest && x != k ==> KeyBelow(k, x);
        var u := DecodeUser(db[k]);
        if u.Err? {
          return Err(u.error), keys;
        }
        ScanTake(keys, rest, UserKeys(db), k);
        users, keys := users + [u.value], keys + [k];
        rest := rest - {k};
      }
      r := Ok(users);
      assert UserKeys(db) - rest == UserKeys(db);
      forall k | k in UserKeys(db) ensures !db[k].Unparsable? {
        assert k in (set x | x in keys);
        var i :| 0 <= i < |keys| && keys[i] == k;
      }
    }

    /** CountAdminUsers: the number of administrators among the decoded users. */
    method CountAdminUsers() returns (r: Result<nat, StoreError>)
      ensures r.Err? <==> exists k :: k in UserKeys(db) && db[k].Unparsable?
      ensures r.Ok? ==> r.value == |AdminKeys(db)|
    {
      var users;
      ghost var keys;
      users, keys := GetUsers();
      if users.Err? {
        return Err(users.error);
      }
      var num := 0;
      var i := 0;
      while i < |users.value|
        invariant i <= |users.value|
        invariant num == |AdminsAmong(db, keys[..i])|
      {
        AdminsAmongStep(db, keys, i);
        assert users.value[i].admin <==> IsAdminRecord(db[keys[i]]);
        if users.value[i].admin {
          num := num + 1;
        }
        i := i + 1;
      }
      assert keys[..i] == keys;
      assert AdminsAmong(db, keys) == AdminKeys(db);
      r := Ok(num);
    }

    /** GetTab: the tab under the id, or None (a nil *Tab, with no error) when there is none. */
    function GetTab(id: TabId): (r: Result<Option<Tab>, StoreError>)
      reads this
      ensures r == Ok(None) <==> TabKey(id) !in db
      ensures r.Err? <==> TabKey(id) in db && db[TabKey(id)].Unparsable?
      ensures r.Ok? && TabKey(id) in db && db[TabKey(id)].TabRecord? ==> r.value == Some(db[TabKey(id)].tab)
    {
      var key := Prefix(TabPrefix, id);
      if key !in db then Ok(None)
      else match DecodeTab(db[key])
        case Ok(t) => Ok(Some(t))
        case Err(e) => Err(e)
    }

    /** AddTabToUser: read the owner, append `id` to its tabs, write the owner back. */
    method AddTabToUser(owner: string, id: TabId) returns (err: Option<StoreError>)
      modifies this
      ensures old(GetUser(owner)).Err? ==> err == Some(old(GetUser(owner)).error) && db == old(db)
      ensures old(GetUser(owner)).Ok? ==>
        var u := old(GetUser(owner)).value;
        err == None && db == old(db)[UserKey(u.name) := UserRecord(WithTab(u, id))]
    {
      var key := Prefix(UserPrefix, owner);
      if key !in db {
        return Some(KeyNotFound);
      }
      var decoded := DecodeUser(db[key]);
      if decoded.Err? {
        return Some(decoded.error);
      }
      var user := decoded.value;
      user := user.(tabs := user.tabs + [id]);
      db := db[Prefix(UserPrefix, user.name) := UserRecord(user)];
      err := None;
    }

    /** CreateTab: index the tab under its owner, then (in a second transaction) store it. */
    method CreateTab(tab: Tab) returns (err: Option<StoreError>)
      modifies this
      ensures old(GetUser(tab.owner)).Err? ==> err == Some(old(GetUser(tab.owner)).error) && db == old(db)
      ensures old(GetUser(tab.owner)).Ok? ==>
        var u := old(GetUser(tab.owner)).value;
        err == None && db == old(db)[UserKey(u.name) := UserRecord(WithTab(u, tab.id))][TabKey(tab.id) := TabRecord(tab)]
    {
      err := AddTabToUser(tab.owner, tab.id);
      if err.Some? {
        return;
      }
      db := db[Prefix(TabPrefix, tab.id) := TabRecord(tab)];
    }

    /**
     * RmTabFromUser: read the owner, collect the indices at which `id` occurs,
     * splice each of them out of the owner's tabs, and write the owner back.
     */
    method RmTabFromUser(owner: string, id: TabId) returns (err: Option<StoreError>)
      modifies this
      ensures old(GetUser(owner)).Err? ==> err == Some(old(GetUser(owner)).error) && db == old(db)
      ensures old(GetUser(owner)).Ok? ==>
        var u := old(GetUser(owner)).value;
        match SpliceEach(u.tabs, IndicesOf(u.tabs, id))
        case None => err == Some(IndexOutOfRange) && db == old(db)
        case Some(tabs) => err == None && db == old(db)[UserKey(u.name) := UserRecord(u.(tabs := tabs))]
    {
      var key := Prefix(UserPrefix, owner);
      if key !in db {
        return Some(KeyNotFound);
      }
      var decoded := DecodeUser(db[key]);
      if decoded.Err? {
        return Some(decoded.error);
      }
      var user := decoded.value;

      var toRemove := CollectIndices(user.tabs, id);
      var spliced := SpliceAll(user.tabs, toRemove);
      if spliced.None? {
        return Some(IndexOutOfRange);
      }
      var tabs := spliced.value;
      user := user.(tabs := tabs);
      db := db[Prefix(UserPrefix, user.name) := UserRecord(user)];
      err := None;
    }

    /**
     * GetUserTabs: the tabs a user's index names, looked up one by one into a
     * result of the index's length.  The first id whose tab is missing ends the
     * look-up without an error, leaving that entry and the rest zero tabs.
     */
    method GetUserTabs(user: User) returns (r: Result<seq<Tab>, StoreError>)
      ensures user.tabs == [] ==> r == Ok([])
      ensures r.Err? <==> exists i :: 0 <= i < FirstMissing(db, user.tabs) && db[TabKey(user.tabs[i])].Unparsable?
      ensures r.Ok? ==> |r.value| == |user.tabs|
      ensures r.Ok? ==> forall i :: 0 <= i < |user.tabs| ==>
        r.value[i] == if i < FirstMissing(db, user.tabs) then DecodeTab(db[TabKey(user.tabs[i])]).value else ZeroTab
    {
      if user.tabs == [] {
        return Ok([]);
      }
      var res := new Tab[|user.tabs|](_ => ZeroTab);
      var m := FirstMissing(db, user.tabs);
      var i := 0;
      while i < |user.tabs|
        invariant i <= m
        invariant forall j :: 0 <= j < i ==> !db[TabKey(user.tabs[j])].Unparsable?
        invariant forall j :: 0 <= j < i ==> res[j] == DecodeTab(db[TabKey(user.tabs[j])]).value
        invariant forall j :: i <= j < res.Length ==> res[j] == ZeroTab
      {
        var key := Prefix(TabPrefix, user.tabs[i]);
        if key !in db {
          return Ok(res[..]);
        }
        var decoded := DecodeTab(db[key]);
        if decoded.Err? {
          return Err(decoded.error);
        }
        res[i] := decoded.value;
        i := i + 1;
      }
      r := Ok(res[..]);
    }

    /** RmTab: drop the tab from its owner's index, then (in a second transaction) delete it. */
    method RmTab(tab: Tab) returns (err: Option<StoreError>)
      modifies this
      ensures old(GetUser(tab.owner)).Err? ==> err == Some(old(GetUser(tab.owner)).error) && db == old(db)
      ensures old(GetUser(tab.owner)).Ok? ==>
        var u := old(GetUser(tab.owner)).value;
        match SpliceEach(u.tabs, IndicesOf(u.tabs, tab.id))
        case None => err == Some(IndexOutOfRange) && db == old(db)
        case Some(tabs) => err == None && db == old(db)[UserKey(u.name) := UserRecord(u.(tabs := tabs))] - {TabKey(tab.id)}
    {
      err := RmTabFromUser(tab.owner, tab.id);
      if err.Some? {
        return;
      }
      db := db - {Prefix(TabPrefix, tab.id)};
    }

    /**
     * GetTabs: every record under the tab prefix, decoded, in the order the
     * scan visits them: ascending key order.
     */
    method GetTabs() returns (r: Result<seq<Tab>, StoreError>, ghost keys: seq<string>)
      ensures r.Err? <==> exists k :: k in TabKeys(db) && db[k].Unparsable?
      ensures r.Err? ==> r.error == DecodeFailed
      ensures r.Ok? ==> Enumerates(keys, TabKeys(db)) && Ascending(keys) && |r.value| == |keys|
      ensures r.Ok? ==> forall i :: 0 <= i < |keys| ==> keys[i] in db && DecodeTab(db[keys[i]]) == Ok(r.value[i])
    {
      var tabs: seq<Tab> := [];
      keys := [];
      var rest := TabKeys(db);
      while rest != {}
        invariant rest <= TabKeys(db)
        invariant ScanSoFar(keys, rest, TabKeys(db))
        invariant |tabs| == |keys|
        invariant forall i :: 0 <= i < |keys| ==> keys[i] in db && DecodeTab(db[keys[i]]) == Ok(tabs[i])
        decreases |rest|
      {
        ghost var least := LeastKey(rest);
        var k :| k in rest && forall x :: x in rest && x != k ==> KeyBelow(k, x);
        var t := DecodeTab(db[k]);
        if t.Err? {
          return Err(t.error), keys;
        }
        ScanTake(keys, rest, TabKeys(db), k);
        tabs, keys := tabs + [t.value], keys + [k];
        rest := rest - {k};
      }
      r := Ok(tabs);
      assert TabKeys(db) - rest == TabKeys(db);
      forall k | k in TabKeys(db) ensures !db[k].Unparsable? {
        assert k in (set x | x in keys);
        var i :| 0 <= i < |keys| && keys[i] == k;
      }
    }

    /**
     * GetPublicTabs: the public tabs under the tab prefix.  The Public flag is
     * checked before the decoding error, so a record that fails to decode (its
     * flag is left false) is skipped rather than reported: this scan never
     * fails.  The tabs come in ascending key order.
     */
    method GetPublicTabs() returns (r: seq<Tab>, ghost keys: seq<string>)
      ensures Enumerates(keys, PublicTabKeys(db)) && Ascending(keys) && |r| == |keys|
      ensures forall i :: 0 <= i < |keys| ==> keys[i] in db && db[keys[i]] == TabRecord(r[i])
      ensures forall t :: t in r ==> t.public
    {
      r := [];
      keys := [];
      var rest := TabKeys(db);
      while rest != {}
        invariant rest <= TabKeys(db)
        invariant ScanSoFar(keys, rest, PublicTabKeys(db))
        invariant |r| == |keys|
        invariant forall i :: 0 <= i < |keys| ==> keys[i] in db && db[keys[i]] == TabRecord(r[i])
        invariant forall t :: t in r ==> t.public
        decreases |rest|
      {
        ghost var least := LeastKey(rest);
        var k :| k in rest && forall x :: x in rest && x != k ==> KeyBelow(k, x);
        var decoded := DecodeTab(db[k]);
        var tab := if decoded.Ok? then decoded.value else ZeroTab;
        if tab.public {
          assert IsPublicRecord(db[k]) && k in PublicTabKeys(db);
          ScanTake(keys, rest, PublicTabKeys(db), k);
          r, keys := r + [tab], keys + [k];
        } else {
          assert !IsPublicRecord(db[k]);
          ScanSkip(keys, rest, PublicTabKeys(db), k);
        }
        rest := rest - {k};
      }
    }

    /**
     * RmUser: in one transaction, delete the key of every tab the user's index
     * names, then the user's own key.
     */
    method RmUser(name: string) returns (err: Option<StoreError>)
      modifies this
      ensures old(GetUser(name)).Err? ==> err == Some(old(GetUser(name)).error) && db == old(db)
      ensures old(GetUser(name)).Ok? ==>
        err == None && db == old(db) - TabKeysOf(old(GetUser(name)).value.tabs) - {UserKey(name)}
    {
      var key := Prefix(UserPrefix, name);
      if key !in db {
        return Some(KeyNotFound);
      }
      var decoded := DecodeUser(db[key]);
      if decoded.Err? {
        return Some(decoded.error);
      }
      var user := decoded.value;
      ghost var start := db;
      var i := 0;
      while i < |user.tabs|
        invariant i <= |user.tabs|
        invariant db == start - TabKeysOf(user.tabs[..i])
      {
        assert TabKeysOf(user.tabs[..i + 1]) == TabKeysOf(user.tabs[..i]) + {TabKey(user.tabs[i])} by {
          assert user.tabs[..i + 1] == user.tabs[..i] + [user.tabs[i]];
        }
        db := db - {Prefix(TabPrefix, user.tabs[i])};
        i := i + 1;
      }
      assert user.tabs[..i] == user.tabs;
      db := db - {key};
      err := None;
    }

    /** SetAdmin: read the user, change its Admin flag, write it back. */
    method SetAdmin(name: string, value: bool) returns (err: Option<StoreError>)
      modifies this
      ensures old(GetUser(name)).Err? ==> err == Some(old(GetUser(name)).error) && db == old(db)
      ensures old(GetUser(name)).Ok? ==>
        var u := old(GetUser(name)).value;
        err == None && db == old(db)[UserKey(u.name) := UserRecord(u.(admin := value))]
    {
      var key := Prefix(UserPrefix, name);
      if key !in db {
        return Some(KeyNotFound);
      }
      var decoded := DecodeUser(db[key]);
      if decoded.Err? {
        return Some(decoded.error);
      }
      var user := decoded.value;
      user := user.(admin := value);
      db := db[Prefix(UserPrefix, user.name) := UserRecord(user)];
      err := None;
    }

    /** SetTab: write `tab` under the key of `id`, overwriting whatever was there. */
    method SetTab(id: TabId, tab: Tab)
      modifies this
      ensures db == old(db)[TabKey(id) := TabRecord(tab)]
    {
      db := db[Prefix(TabPrefix, id) := TabRecord(tab)];
    }
  }
}
