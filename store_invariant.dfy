/**
 * The consistency the server keeps between its two record kinds.  Every record
 * sits at the key of its own name or id, and the denormalised index `User.Tabs`
 * agrees with the tab records: each listed id is a stored tab of that user
 * (listed once), and each stored tab is listed by its existing owner.
 *
 * Each lemma below takes one of the writes the store methods make (as their
 * postconditions state them) and shows the invariant survives it, under the
 * conditions the handlers establish before calling.
 */
module StoreInvariant {
  import opened Wrappers
  import opened RecordStore

  // ---------------------------------------------------------------------------
  // Looking up by name and id

  ghost predicate UserAt(db: Db, name: string)
  {
    UserKey(name) in db && db[UserKey(name)].UserRecord?
  }

  ghost function UserOf(db: Db, name: string): User
    requires UserAt(db, name)
  {
    db[UserKey(name)].user
  }

  ghost predicate TabAt(db: Db, id: TabId)
  {
    TabKey(id) in db && db[TabKey(id)].TabRecord?
  }

  ghost function TabOf(db: Db, id: TabId): Tab
    requires TabAt(db, id)
  {
    db[TabKey(id)].tab
  }

  // ---------------------------------------------------------------------------
  // The invariant

  /** Every stored value decodes, and sits at the key of its own name (users) or id (tabs). */
  ghost predicate WellKeyed(db: Db)
  {
    forall k | k in db ::
      || (db[k].UserRecord? && k == UserKey(db[k].user.name))
      || (db[k].TabRecord? && k == TabKey(db[k].tab.id))
  }

  /** Each user lists each of its tab ids once, and each listed id is a stored tab it owns. */
  ghost predicate IndexSound(db: Db)
  {
    forall name | UserAt(db, name) ::
      && Distinct(UserOf(db, name).tabs)
      && forall id | id in UserOf(db, name).tabs :: TabAt(db, id) && TabOf(db, id).owner == name
  }

  /** Each stored tab's owner is a stored user whose index lists the tab. */
  ghost predicate IndexComplete(db: Db)
  {
    forall id | TabAt(db, id) ::
      UserAt(db, TabOf(db, id).owner) && id in UserOf(db, TabOf(db, id).owner).tabs
  }

  ghost predicate Valid(db: Db)
  {
    WellKeyed(db) && IndexSound(db) && IndexComplete(db)
  }

  // ---------------------------------------------------------------------------
  // Facts about keys

  lemma KeyFacts()
    ensures forall a, b :: UserKey(a) != TabKey(b)
    ensures forall a, b :: UserKey(a) == UserKey(b) ==> a == b
    ensures forall a, b :: TabKey(a) == TabKey(b) ==> a == b
  {
    forall a, b ensures UserKey(a) != TabKey(b) {
      KeysInTheirNamespace(a, b);
    }
    forall a, b ensures UserKey(a) == UserKey(b) ==> a == b {
      KeysInjective(a, b);
    }
    forall a, b ensures TabKey(a) == TabKey(b) ==> a == b {
      KeysInjective(a, b);
    }
  }

  /** The key of a user record names that user, and the key of a tab record carries that tab's id. */
  lemma WellKeyedLookups(db: Db, name: string, id: TabId)
    requires WellKeyed(db)
    ensures UserKey(name) in db ==> UserAt(db, name) && UserOf(db, name).name == name
    ensures TabKey(id) in db ==> TabAt(db, id) && TabOf(db, id).id == id
  {
    KeyFacts();
  }

  lemma InTabKeysOf(ids: seq<TabId>, id: TabId, name: string)
    ensures TabKey(id) in TabKeysOf(ids) <==> id in ids
    ensures UserKey(name) !in TabKeysOf(ids)
  {
    KeyFacts();
  }

  // ---------------------------------------------------------------------------
  // Removing an id from a distinct index

  lemma {:induction false} WithoutAbsent(ids: seq<TabId>, id: TabId)
    requires id !in ids
    ensures Without(ids, id) == ids
  {
    if ids != [] {
      WithoutAbsent(ids[1..], id);
    }
  }

  /** Removing the one occurrence at `i` is what the splice at `i` does. */
  lemma {:induction false} WithoutSingle(ids: seq<TabId>, i: nat)
    requires i < |ids| && Distinct(ids)
    ensures Without(ids, ids[i]) == ids[..i] + ids[i + 1..]
  {
    if i == 0 {
      assert ids[0] !in ids[1..];
      WithoutAbsent(ids[1..], ids[0]);
    } else {
      assert ids[1..][i - 1] == ids[i];
      WithoutSingle(ids[1..], i - 1);
      assert ids[1..][..i - 1] + ids[1..][i..] == (ids[..i] + ids[i + 1..])[1..];
    }
  }

  lemma {:induction false} WithoutDistinct(ids: seq<TabId>, id: TabId)
    requires Distinct(ids)
    ensures Distinct(Without(ids, id))
  {
    if ids != [] {
      WithoutDistinct(ids[1..], id);
      if ids[0] != id {
        assert ids[0] !in ids[1..];
      }
    }
  }

  lemma {:induction false} IndicesOfAbsent(ids: seq<TabId>, id: TabId)
    requires id !in ids
    ensures IndicesOf(ids, id) == []
  {
    if ids != [] {
      IndicesOfAbsent(ids[..|ids| - 1], id);
    }
  }

  /** In a distinct index, the entry at `i` is found at `i` alone. */
  lemma {:induction false} IndicesOfSingle(ids: seq<TabId>, i: nat)
    requires i < |ids| && Distinct(ids)
    ensures IndicesOf(ids, ids[i]) == [i]
  {
    var n := |ids| - 1;
    var front := ids[..n];
    assert Distinct(front);
    if i == n {
      assert ids[i] !in front;
      IndicesOfAbsent(front, ids[i]);
    } else {
      assert front[i] == ids[i] != ids[n];
      IndicesOfSingle(front, i);
    }
  }

  /**
   * On an index that lists `id` at most once, the removal loop of RmTabFromUser
   * does not panic and removes exactly the occurrences of `id`.
   */
  lemma SpliceEachAgreesWhenDistinct(ids: seq<TabId>, id: TabId)
    requires Distinct(ids)
    ensures SpliceEach(ids, IndicesOf(ids, id)) == Some(Without(ids, id))
  {
    var r := IndicesOf(ids, id);
    if id in ids {
      var i :| 0 <= i < |ids| && ids[i] == id;
      IndicesOfSingle(ids, i);
      WithoutSingle(ids, i);
      assert r[1..] == [];
    } else {
      IndicesOfAbsent(ids, id);
      WithoutAbsent(ids, id);
    }
  }

  /**
   * With `id` listed twice before another entry, the indices collected up front
   * are stale after the first splice: the loop removes the other entry and keeps one `id`.
   */
  lemma StaleIndicesRemoveTheWrongEntry()
    ensures IndicesOf(["x", "x", "a"], "x") == [0, 1]
    ensures SpliceEach(["x", "x", "a"], [0, 1]) == Some(["x"])
    ensures Without(["x", "x", "a"], "x") == ["a"]
  {
    assert ["x", "x", "a"][..2] == ["x", "x"];
    assert ["x", "x"][..1] == ["x"];
    assert ["x"][..0] == [];
    assert ["x", "x", "a"][..0] + ["x", "x", "a"][1..] == ["x", "a"];
    assert ["x", "a"][..1] + ["x", "a"][2..] == ["x"];
    assert ["x", "x", "a"][1..] == ["x", "a"];
    assert ["x", "a"][1..] == ["a"];
  }

  /** With `id` listed twice and nothing else, the second splice is out of range: the slice panics. */
  lemma StaleIndicesPanic()
    ensures IndicesOf(["x", "x"], "x") == [0, 1]
    ensures SpliceEach(["x", "x"], [0, 1]) == None
  {
    assert ["x", "x"][..1] == ["x"];
    assert ["x"][..0] == [];
    assert ["x", "x"][..0] + ["x", "x"][1..] == ["x"];
  }

  lemma DistinctAppend(ids: seq<TabId>, id: TabId)
    requires Distinct(ids) && id !in ids
    ensures Distinct(ids + [id])
  {
    assert forall i :: 0 <= i < |ids| ==> (ids + [id])[i] == ids[i] != id;
  }

  // ---------------------------------------------------------------------------
  // Preservation

  /** CreateUser on an absent name with an empty index (registration, bootstrap). */
  lemma AddFreshUserKeepsValid(db: Db, u: User)
    requires Valid(db) && UserKey(u.name) !in db && u.tabs == []
    ensures Valid(db[UserKey(u.name) := UserRecord(u)])
  {
    KeyFacts();
    var db' := db[UserKey(u.name) := UserRecord(u)];
    forall name | UserAt(db', name)
      ensures Distinct(UserOf(db', name).tabs)
      ensures forall id | id in UserOf(db', name).tabs :: TabAt(db', id) && TabOf(db', id).owner == name
    {
      if name != u.name {
        assert UserAt(db, name) && UserOf(db', name) == UserOf(db, name);
      }
    }
    forall id | TabAt(db', id)
      ensures UserAt(db', TabOf(db', id).owner) && id in UserOf(db', TabOf(db', id).owner).tabs
    {
      assert TabAt(db, id) && TabOf(db', id) == TabOf(db, id);
      var o := TabOf(db, id).owner;
      assert UserAt(db, o);
      assert o != u.name;
    }
  }

  /** A rewrite of a stored user that keeps its index (ChangePassword, SetAdmin). */
  lemma ReplaceUserKeepsValid(db: Db, u: User)
    requires Valid(db) && UserAt(db, u.name) && UserOf(db, u.name).tabs == u.tabs
    ensures Valid(db[UserKey(u.name) := UserRecord(u)])
  {
    KeyFacts();
    var db' := db[UserKey(u.name) := UserRecord(u)];
    forall name | UserAt(db', name)
      ensures Distinct(UserOf(db', name).tabs)
      ensures forall id | id in UserOf(db', name).tabs :: TabAt(db', id) && TabOf(db', id).owner == name
    {
      assert UserAt(db, name) && UserOf(db', name).tabs == UserOf(db, name).tabs;
    }
    forall id | TabAt(db', id)
      ensures UserAt(db', TabOf(db', id).owner) && id in UserOf(db', TabOf(db', id).owner).tabs
    {
      assert TabAt(db, id) && TabOf(db', id) == TabOf(db, id);
      var o := TabOf(db, id).owner;
      assert UserAt(db, o);
      assert UserOf(db', o).tabs == UserOf(db, o).tabs;
    }
  }

  /** CreateTab of a tab whose owner is stored and whose id is fresh. */
  lemma CreateTabKeepsValid(db: Db, tab: Tab)
    requires Valid(db) && UserAt(db, tab.owner) && TabKey(tab.id) !in db
    ensures var u := UserOf(db, tab.owner);
      Valid(db[UserKey(u.name) := UserRecord(WithTab(u, tab.id))][TabKey(tab.id) := TabRecord(tab)])
  {
    KeyFacts();
    var o := tab.owner;
    var u := UserOf(db, o);
    assert u.name == o;
    var db' := db[UserKey(o) := UserRecord(WithTab(u, tab.id))][TabKey(tab.id) := TabRecord(tab)];
    forall name | UserAt(db', name)
      ensures Distinct(UserOf(db', name).tabs)
      ensures forall id | id in UserOf(db', name).tabs :: TabAt(db', id) && TabOf(db', id).owner == name
    {
      assert UserAt(db, name);
      forall id | id in UserOf(db, name).tabs ensures id != tab.id && TabOf(db', id) == TabOf(db, id) {
        assert TabAt(db, id);
      }
      if name == o {
        assert UserOf(db', name).tabs == u.tabs + [tab.id];
        DistinctAppend(u.tabs, tab.id);
      } else {
        assert UserOf(db', name) == UserOf(db, name);
      }
    }
    forall id | TabAt(db', id)
      ensures UserAt(db', TabOf(db', id).owner) && id in UserOf(db', TabOf(db', id).owner).tabs
    {
      if id != tab.id {
        assert TabAt(db, id) && TabOf(db', id) == TabOf(db, id);
        var o' := TabOf(db, id).owner;
        assert UserAt(db, o');
        if o' == o {
          assert UserOf(db', o).tabs == u.tabs + [tab.id];
        } else {
          assert UserOf(db', o') == UserOf(db, o');
        }
      } else {
        assert UserOf(db', o).tabs == u.tabs + [tab.id];
      }
    }
  }

  /** SetTab over a stored tab that keeps its id and owner (content and public-flag updates). */
  lemma SetTabKeepsValid(db: Db, tab: Tab)
    requires Valid(db) && TabAt(db, tab.id) && TabOf(db, tab.id).owner == tab.owner
    ensures Valid(db[TabKey(tab.id) := TabRecord(tab)])
  {
    KeyFacts();
    var db' := db[TabKey(tab.id) := TabRecord(tab)];
    forall name | UserAt(db', name)
      ensures Distinct(UserOf(db', name).tabs)
      ensures forall id | id in UserOf(db', name).tabs :: TabAt(db', id) && TabOf(db', id).owner == name
    {
      assert UserAt(db, name) && UserOf(db', name) == UserOf(db, name);
      forall id | id in UserOf(db, name).tabs ensures TabAt(db', id) && TabOf(db', id).owner == name {
        assert TabAt(db, id);
      }
    }
    forall id | TabAt(db', id)
      ensures UserAt(db', TabOf(db', id).owner) && id in UserOf(db', TabOf(db', id).owner).tabs
    {
      assert TabAt(db, id);
      var o := TabOf(db, id).owner;
      assert TabOf(db', id).owner == o;
      assert UserAt(db, o) && UserOf(db', o) == UserOf(db, o);
    }
  }

  /**
   * RmTab of a stored tab: the owner is stored and lists the id once, so the
   * removal loop takes out exactly that id, and the tab key goes too.
   */
  lemma RmTabKeepsValid(db: Db, id: TabId)
    requires Valid(db) && TabAt(db, id)
    ensures UserAt(db, TabOf(db, id).owner)
    ensures var u := UserOf(db, TabOf(db, id).owner);
      && u.name == TabOf(db, id).owner
      && SpliceEach(u.tabs, IndicesOf(u.tabs, id)) == Some(Without(u.tabs, id))
      && Valid(db[UserKey(u.name) := UserRecord(u.(tabs := Without(u.tabs, id)))] - {TabKey(id)})
  {
    KeyFacts();
    var o := TabOf(db, id).owner;
    var u := UserOf(db, o);
    assert u.name == o;
    SpliceEachAgreesWhenDistinct(u.tabs, id);
    var db' := db[UserKey(o) := UserRecord(u.(tabs := Without(u.tabs, id)))] - {TabKey(id)};
    RmTabKeepsSound(db, id, db');
    RmTabKeepsComplete(db, id, db');
  }

  lemma RmTabKeepsSound(db: Db, id: TabId, db': Db)
    requires Valid(db) && TabAt(db, id)
    requires UserAt(db, TabOf(db, id).owner)
    requires var o := TabOf(db, id).owner;
      db' == db[UserKey(o) := UserRecord(UserOf(db, o).(tabs := Without(UserOf(db, o).tabs, id)))] - {TabKey(id)}
    ensures IndexSound(db')
  {
    KeyFacts();
    var o := TabOf(db, id).owner;
    var u := UserOf(db, o);
    WithoutDistinct(u.tabs, id);
    forall name | UserAt(db', name)
      ensures Distinct(UserOf(db', name).tabs)
      ensures forall id' | id' in UserOf(db', name).tabs :: TabAt(db', id') && TabOf(db', id').owner == name
    {
      assert UserAt(db, name);
      if name == o {
        forall id' | id' in UserOf(db', name).tabs ensures TabAt(db', id') && TabOf(db', id').owner == name {
          assert id' in u.tabs && id' != id;
          assert TabAt(db, id');
        }
      } else {
        assert UserOf(db', name) == UserOf(db, name);
        forall id' | id' in UserOf(db, name).tabs ensures TabAt(db', id') && TabOf(db', id').owner == name {
          assert TabAt(db, id');
        }
      }
    }
  }

  lemma RmTabKeepsComplete(db: Db, id: TabId, db': Db)
    requires Valid(db) && TabAt(db, id)
    requires UserAt(db, TabOf(db, id).owner)
    requires var o := TabOf(db, id).owner;
      db' == db[UserKey(o) := UserRecord(UserOf(db, o).(tabs := Without(UserOf(db, o).tabs, id)))] - {TabKey(id)}
    ensures IndexComplete(db')
  {
    KeyFacts();
    var o := TabOf(db, id).owner;
    var u := UserOf(db, o);
    forall id' | TabAt(db', id')
      ensures UserAt(db', TabOf(db', id').owner) && id' in UserOf(db', TabOf(db', id').owner).tabs
    {
      assert id' != id && TabAt(db, id') && TabOf(db', id') == TabOf(db, id');
      var o' := TabOf(db, id').owner;
      assert UserAt(db, o');
      if o' != o {
        assert UserOf(db', o') == UserOf(db, o');
      }
    }
  }

  /** RmUser of a stored user: its listed tabs and its own key go, and nothing is left pointing at them. */
  lemma RmUserKeepsValid(db: Db, name: string)
    requires Valid(db) && UserAt(db, name)
    ensures Valid(db - TabKeysOf(UserOf(db, name).tabs) - {UserKey(name)})
  {
    KeyFacts();
    var u := UserOf(db, name);
    var db' := db - TabKeysOf(u.tabs) - {UserKey(name)};
    forall n | UserAt(db', n)
      ensures Distinct(UserOf(db', n).tabs)
      ensures forall id | id in UserOf(db', n).tabs :: TabAt(db', id) && TabOf(db', id).owner == n
    {
      assert n != name && UserAt(db, n) && UserOf(db', n) == UserOf(db, n);
      forall id | id in UserOf(db, n).tabs ensures TabAt(db', id) && TabOf(db', id).owner == n {
        assert TabAt(db, id) && TabOf(db, id).owner == n;
        InTabKeysOf(u.tabs, id, name);
      }
    }
    forall id | TabAt(db', id)
      ensures UserAt(db', TabOf(db', id).owner) && id in UserOf(db', TabOf(db', id).owner).tabs
    {
      InTabKeysOf(u.tabs, id, name);
      assert TabAt(db, id) && id !in u.tabs;
      var o := TabOf(db, id).owner;
      assert UserAt(db, o) && o != name;
      InTabKeysOf(u.tabs, id, o);
      assert UserOf(db', o) == UserOf(db, o);
    }
  }

  // ---------------------------------------------------------------------------
  // Administrators

  /** Writing a user record adds its key to the administrators or takes it out, as its flag says. */
  lemma AdminKeysAfterPutUser(db: Db, u: User)
    ensures AdminKeys(db[UserKey(u.name) := UserRecord(u)])
      == if u.admin then AdminKeys(db) + {UserKey(u.name)} else AdminKeys(db) - {UserKey(u.name)}
  {
    KeysInTheirNamespace(u.name, NilUuid);
  }

  /** Writing a tab record changes no administrator. */
  lemma AdminKeysAfterPutTab(db: Db, t: Tab)
    ensures AdminKeys(db[TabKey(t.id) := TabRecord(t)]) == AdminKeys(db)
  {
    KeysInTheirNamespace("", t.id);
  }

  /** Deleting keys takes exactly those keys out of the administrators. */
  lemma AdminKeysAfterDelete(db: Db, gone: set<string>)
    ensures AdminKeys(db - gone) == AdminKeys(db) - gone
  {
  }

  /** RmUser takes out of the administrators the user's own key and nothing else. */
  lemma AdminKeysAfterRmUser(db: Db, name: string, ids: seq<TabId>)
    ensures AdminKeys(db - TabKeysOf(ids) - {UserKey(name)}) == AdminKeys(db) - {UserKey(name)}
  {
    AdminKeysAfterDelete(db, TabKeysOf(ids));
    AdminKeysAfterDelete(db - TabKeysOf(ids), {UserKey(name)});
    forall k | k in AdminKeys(db) ensures k !in TabKeysOf(ids) {
      if k in TabKeysOf(ids) {
        var id :| id in ids && k == TabKey(id);
        KeysInTheirNamespace("", id);
      }
    }
  }

  /** A rewrite of a stored user that keeps its admin flag changes no administrator. */
  lemma AdminKeysAfterReplaceUser(db: Db, u: User)
    requires UserAt(db, u.name) && UserOf(db, u.name).admin == u.admin
    ensures AdminKeys(db[UserKey(u.name) := UserRecord(u)]) == AdminKeys(db)
  {
    AdminKeysAfterPutUser(db, u);
    KeysInTheirNamespace(u.name, NilUuid);
    assert UserKey(u.name) in UserKeys(db);
  }

  /** No tab key is an administrator's key. */
  lemma TabKeyNotAdmin(db: Db, id: TabId)
    ensures TabKey(id) !in AdminKeys(db)
  {
    KeysInTheirNamespace("", id);
  }
}
