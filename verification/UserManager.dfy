/** server/src/service/user_manager.cpp: the class that keeps the cache beside the database.

    Each SQL statement is an atomic table update that the caller's flag lets succeed or fail.
    Every method is proved to change table and cache by the functions of `Friendships`, so the
    laws proved there hold of the class. */
module UserManagers {
  import opened Common
  import opened Friendships

  ghost function Ids(users: seq<User>): set<int> {
    set i | 0 <= i < |users| :: users[i].userid
  }

  /** A query result: every row that mentions the user, once, in any order. */
  ghost predicate Enumerates(rows: seq<((int, int), Row)>, db: Relations, u: int) {
    && (forall i :: 0 <= i < |rows| ==> rows[i].0 in db && db[rows[i].0] == rows[i].1 && (rows[i].0.0 == u || rows[i].0.1 == u))
    && (forall k :: k in db && (k.0 == u || k.1 == u) ==> exists i :: 0 <= i < |rows| && rows[i].0 == k)
    && (forall i, j :: 0 <= i < j < |rows| ==> rows[i].0 != rows[j].0)
  }

  function InfoOf(u: int, k: (int, int), row: Row): FriendInfo {
    if k.0 == u then FriendInfo(k.1, row.mark1, LoadedTeam(row.team1))
    else FriendInfo(k.0, row.mark2, LoadedTeam(row.team2))
  }

  /** loadRelationshipFromDb: the list matches the table, whatever order the rows came in. */
  method LoadRelationshipFromDb(u: int, rows: seq<((int, int), Row)>, ghost db: Relations) returns (r: seq<FriendInfo>)
    requires Ordered(db) && Enumerates(rows, db, u)
    ensures Matches(User(u, r), db)
  {
    r := [];
    var i := 0;
    while i < |rows|
      invariant 0 <= i <= |rows| && |r| == i
      invariant forall j :: 0 <= j < i ==> r[j] == InfoOf(u, rows[j].0, rows[j].1)
    {
      var k, row := rows[i].0, rows[i].1;
      var fi;
      if k.0 == u {
        fi := FriendInfo(k.1, row.mark1, LoadedTeam(row.team1));
      } else {
        fi := FriendInfo(k.0, row.mark2, LoadedTeam(row.team2));
      }
      r := r + [fi];
      i := i + 1;
    }
    LoadedListMatches(u, rows, db, r);
  }

  lemma LoadedListMatches(u: int, rows: seq<((int, int), Row)>, db: Relations, r: seq<FriendInfo>)
    requires Ordered(db) && Enumerates(rows, db, u) && |r| == |rows|
    requires forall j :: 0 <= j < |r| ==> r[j] == InfoOf(u, rows[j].0, rows[j].1)
    ensures Matches(User(u, r), db)
  {
    forall i, j | 0 <= i < j < |r| ensures r[i].friendid != r[j].friendid {
      assert rows[i].0 != rows[j].0;
    }
    forall f: int ensures Find(r, f) == Side(db, u, f) {
      FindAbsent(r, f);
      if u != f && Key(u, f) in db {
        var i :| 0 <= i < |rows| && rows[i].0 == Key(u, f);
        FindAt(r, i);
      } else {
        forall i | 0 <= i < |r| ensures r[i].friendid != f {
          assert rows[i].0 in db;
        }
      }
    }
  }

  /** Erase the first entry for f. */
  method EraseFriend(fs: seq<FriendInfo>, f: int) returns (r: seq<FriendInfo>, found: bool)
    ensures r == RemoveFirst(fs, f) && (found <==> Find(fs, f).Some?)
  {
    var i := 0;
    while i < |fs|
      invariant 0 <= i <= |fs|
      invariant forall j :: 0 <= j < i ==> fs[j].friendid != f
    {
      if fs[i].friendid == f {
        FirstEntry(fs, f, i);
        return fs[..i] + fs[i + 1..], true;
      }
      i := i + 1;
    }
    FindAbsent(fs, f);
    RemoveAbsent(fs, f);
    return fs, false;
  }

  lemma {:induction false} FirstEntry(fs: seq<FriendInfo>, f: int, i: nat)
    requires i < |fs| && fs[i].friendid == f && forall j :: 0 <= j < i ==> fs[j].friendid != f
    ensures RemoveFirst(fs, f) == fs[..i] + fs[i + 1..] && Find(fs, f) == Some(fs[i])
  {
    if i > 0 {
      var rest := fs[1..];
      assert forall j :: 0 <= j < i - 1 ==> rest[j] == fs[j + 1];
      FirstEntry(rest, f, i - 1);
      DropBoth(fs, i);
    } else {
      assert fs[..0] + fs[1..] == fs[1..];
    }
  }

  lemma DropBoth(fs: seq<FriendInfo>, i: nat)
    requires 0 < i < |fs|
    ensures [fs[0]] + (fs[1..][..i - 1] + fs[1..][i..]) == fs[..i] + fs[i + 1..]
  {
  }

  /** Rename a team in one friend list. */
  method RenameTeam(fs: seq<FriendInfo>, o: string, n: string) returns (r: seq<FriendInfo>)
    ensures r == EditAll(fs, Rename(o, n))
  {
    r := fs;
    var i := 0;
    while i < |fs|
      invariant 0 <= i <= |fs| == |r|
      invariant forall j :: 0 <= j < i ==> r[j] == EditInfo(fs[j], Rename(o, n))
      invariant forall j :: i <= j < |fs| ==> r[j] == fs[j]
    {
      if r[i].teamname == o {
        r := r[i := r[i].(teamname := n)];
      }
      i := i + 1;
    }
  }

  /** Edit the first entry for f and stop; as ids are unique that is the only one. */
  method EditFirst(fs: seq<FriendInfo>, f: int, e: Edit) returns (r: seq<FriendInfo>, found: bool)
    requires NoDup(fs) && ((e.Move? && e.friendid == f) || (e.Mark? && e.friendid == f))
    ensures r == EditAll(fs, e) && (found <==> Find(fs, f).Some?)
  {
    var i := 0;
    while i < |fs|
      invariant 0 <= i <= |fs|
      invariant forall j :: 0 <= j < i ==> fs[j].friendid != f
    {
      if fs[i].friendid == f {
        FindAt(fs, i);
        r := fs[i := EditInfo(fs[i], e)];
        assert r == EditAll(fs, e);
        return r, true;
      }
      i := i + 1;
    }
    FindAbsent(fs, f);
    assert fs == EditAll(fs, e);
    return fs, false;
  }

  class UserManager {
    var users: seq<User>
    var db: Relations
    var accounts: set<int>       // ids in t_user
    var baseUserId: int
    var baseGroupId: int

    /** Cached ids are unique and are the accounts; both counters are upper bounds of their range. */
    ghost predicate Valid()
      reads this
    {
      && UniqueIds(users) && Ids(users) == accounts
      && baseUserId >= 0 && baseGroupId >= GROUPID_BOUNDARY
      && (forall i :: 0 <= i < |users| ==> CountersCover(users[i].userid, baseUserId, baseGroupId))
      && (forall i :: 0 <= i < |users| ==> NoDup(users[i].friends))
    }

    /** init with these accounts and these answers to the relationship queries. A failed query
        leaves the user's list empty, so the cache is in step if and only if no relationship names
        a user whose query failed. */
    constructor (ids: seq<int>, db: Relations, results: map<int, seq<((int, int), Row)>>)
      requires forall i, j :: 0 <= i < j < |ids| ==> ids[i] != ids[j]
      requires Ordered(db)
      requires forall i :: 0 <= i < |ids| && ids[i] in results ==> Enumerates(results[ids[i]], db, ids[i])
      ensures Valid() && this.db == db && accounts == set i | 0 <= i < |ids| :: ids[i]
      ensures InStep(users, db) <==> forall i :: 0 <= i < |ids| ==> ids[i] in results || Unrelated(db, ids[i])
      ensures forall i :: 0 <= i < |ids| ==> ids[i] < GROUPID_BOUNDARY ==> ids[i] <= baseUserId
      ensures baseUserId == 0 || baseUserId in ids
      ensures baseGroupId == GROUPID_BOUNDARY || baseGroupId in ids
    {
      var us, bu, bg := LoadUsersFromDb(ids);
      us := LoadAllRelationships(us, results, db);
      assert forall i :: 0 <= i < |ids| ==> us[i].userid == ids[i];
      users, baseUserId, baseGroupId := us, bu, bg;
      this.db := db;
      accounts := set i | 0 <= i < |ids| :: ids[i];
    }

    static predicate CountersCover(id: int, baseUser: int, baseGroup: int) {
      (id < GROUPID_BOUNDARY ==> id <= baseUser) && (id > GROUPID_BOUNDARY ==> id <= baseGroup)
    }

    /** loadUsersFromDb: both counters end at the maximum of their range. */
    static method LoadUsersFromDb(ids: seq<int>) returns (us: seq<User>, baseUser: int, baseGroup: int)
      ensures |us| == |ids| && forall i :: 0 <= i < |ids| ==> us[i] == User(ids[i], [])
      ensures forall i :: 0 <= i < |ids| ==> CountersCover(ids[i], baseUser, baseGroup)
      ensures baseUser == 0 || (baseUser in ids && 0 < baseUser < GROUPID_BOUNDARY)
      ensures baseGroup == GROUPID_BOUNDARY || (baseGroup in ids && baseGroup > GROUPID_BOUNDARY)
    {
      us, baseUser, baseGroup := [], 0, GROUPID_BOUNDARY;
      var i := 0;
      while i < |ids|
        invariant 0 <= i <= |ids| && |us| == i
        invariant forall j :: 0 <= j < i ==> us[j] == User(ids[j], []) && CountersCover(ids[j], baseUser, baseGroup)
        invariant baseUser == 0 || (baseUser in ids && 0 < baseUser < GROUPID_BOUNDARY)
        invariant baseGroup == GROUPID_BOUNDARY || (baseGroup in ids && baseGroup > GROUPID_BOUNDARY)
      {
        us := us + [User(ids[i], [])];
        if ids[i] < GROUPID_BOUNDARY && ids[i] > baseUser {
          baseUser := ids[i];
        }
        if ids[i] > GROUPID_BOUNDARY && ids[i] > baseGroup {
          baseGroup := ids[i];
        }
        i := i + 1;
      }
    }

    /** The list loaded for an account: right, or empty after a failed query. */
    static ghost predicate Loaded(id: int, usr: User, results: map<int, seq<((int, int), Row)>>, db: Relations) {
      && usr.userid == id && NoDup(usr.friends)
      && (Matches(usr, db) <==> id in results || Unrelated(db, id))
    }

    static method LoadAllRelationships(us: seq<User>, results: map<int, seq<((int, int), Row)>>, ghost db: Relations)
      returns (r: seq<User>)
      requires Ordered(db) && forall i :: 0 <= i < |us| ==> us[i].friends == []
      requires forall i :: 0 <= i < |us| && us[i].userid in results ==> Enumerates(results[us[i].userid], db, us[i].userid)
      ensures |r| == |us| && forall i :: 0 <= i < |us| ==> Loaded(us[i].userid, r[i], results, db)
    {
      r := [];
      var i := 0;
      while i < |us|
        invariant 0 <= i <= |us| && |r| == i
        invariant forall j :: 0 <= j < i ==> Loaded(us[j].userid, r[j], results, db)
      {
        EmptyListMatchesIff(db, us[i].userid);
        if us[i].userid in results {
          var fs := LoadRelationshipFromDb(us[i].userid, results[us[i].userid], db);
          r := r + [User(us[i].userid, fs)];
        } else {
          r := r + [us[i]];
        }
        i := i + 1;
      }
    }

    // ----- ids -------------------------------------------------------------

    /** addUser by one thread at a time: the id is used up even if the INSERT fails. Below the group boundary the new id
        is always free, so only the database itself can refuse it. The counters stay upper bounds
        exactly until a user id runs into group ids not yet given out. */
    method AddUser(connected: bool, accepts: bool) returns (ok: bool, id: int)
      requires Valid()
      modifies this
      ensures db == old(db) && baseGroupId == old(baseGroupId)
      ensures Valid() <==> !ok || id <= GROUPID_BOUNDARY || id <= baseGroupId
      ensures baseUserId == old(baseUserId) + (if connected then 1 else 0)
      ensures ok ==> id == baseUserId && id !in old(accounts) && users == old(users) + [User(id, [])]
      ensures !ok ==> users == old(users) && accounts == old(accounts)
      ensures old(baseUserId) + 1 < GROUPID_BOUNDARY ==> (ok <==> connected && accepts)
    {
      id := 0;
      if !connected {
        return false, id;
      }
      baseUserId := baseUserId + 1;
      if !(accepts && baseUserId !in accounts) {
        return false, id;
      }
      id := baseUserId;
      users := users + [User(id, [])];
      accounts := accounts + {id};
      AppendIds(old(users), id);
      return true, id;
    }

    /** addGroup by one thread at a time: a new group id is always free. */
    method AddGroup(connected: bool, accepts: bool) returns (ok: bool, id: int)
      requires Valid()
      modifies this
      ensures Valid() && db == old(db) && baseUserId == old(baseUserId)
      ensures baseGroupId == old(baseGroupId) + (if connected then 1 else 0)
      ensures ok <==> connected && accepts
      ensures ok ==> id == baseGroupId > GROUPID_BOUNDARY && id !in old(accounts) && users == old(users) + [User(id, [])]
      ensures !ok ==> users == old(users) && accounts == old(accounts)
    {
      id := 0;
      if !connected {
        return false, id;
      }
      baseGroupId := baseGroupId + 1;
      if !(accepts && baseGroupId !in accounts) {
        return false, id;
      }
      id := baseGroupId;
      users := users + [User(id, [])];
      accounts := accounts + {id};
      AppendIds(old(users), id);
      return true, id;
    }

    // ----- friends ---------------------------------------------------------

    /** INSERT of the pair's row: refused for equal ids and, by the key, for an existing pair. */
    method MakeFriendRelationshipInDB(a: int, b: int, accepts: bool) returns (ok: bool)
      modifies this`db
      ensures ok <==> accepts && Sound(old(db), Befriend(a, b))
      ensures db == if ok then ChangeDb(old(db), Befriend(a, b)) else old(db)
    {
      if a == b {
        return false;
      }
      var small, greater := a, b;
      if small > greater {
        small, greater := greater, small;
      }
      if !accepts || (small, greater) in db {
        return false;
      }
      db := db[(small, greater) := NEW_ROW];
      return true;
    }

    /** FRIEND_OPERATION_ADD. */
    method AddFriendInMemory(userid: int, target: int) returns (ok: bool)
      modifies this`users
      ensures users == ChangeUsers(old(users), Befriend(userid, target))
      ensures ok <==> userid != target && userid in Ids(users) && target in Ids(users)
    {
      var found1, found2 := false, false;
      ghost var c := Befriend(userid, target);
      ghost var before := users;
      var i := 0;
      while i < |users|
        invariant 0 <= i <= |users| == |before|
        invariant forall j :: 0 <= j < i ==> users[j] == ChangeUser(before[j], c)
        invariant forall j :: i <= j < |users| ==> users[j] == before[j]
        invariant found1 <==> exists j :: 0 <= j < i && before[j].userid == userid
        invariant found2 <==> userid != target && exists j :: 0 <= j < i && before[j].userid == target
      {
        var u := users[i];
        if u.userid == userid {
          users := users[i := u.(friends := u.friends + [FriendInfo(target, "", DEFAULT_TEAMNAME)])];
          found1 := true;
        } else if u.userid == target {
          users := users[i := u.(friends := u.friends + [FriendInfo(userid, "", DEFAULT_TEAMNAME)])];
          found2 := true;
        }
        i := i + 1;
      }
      assert users == ChangeUsers(before, c);
      SameIds(before, users);
      InIds(before, userid);
      InIds(before, target);
      return found1 && found2;
    }

    /** FRIEND_OPERATION_DELETE. */
    method DeleteFriendInMemory(userid: int, target: int) returns (ok: bool)
      modifies this`users
      ensures users == ChangeUsers(old(users), Unfriend(userid, target))
      ensures ok <==> userid != target && Lists(old(users), userid, target) && Lists(old(users), target, userid)
    {
      var found1, found2 := false, false;
      ghost var c := Unfriend(userid, target);
      ghost var before := users;
      var i := 0;
      while i < |users|
        invariant 0 <= i <= |users| == |before|
        invariant forall j :: 0 <= j < i ==> users[j] == ChangeUser(before[j], c)
        invariant forall j :: i <= j < |users| ==> users[j] == before[j]
        invariant found1 <==> Lists(before[..i], userid, target)
        invariant found2 <==> userid != target && Lists(before[..i], target, userid)
      {
        var u;
        u, found1, found2 := EraseBoth(users[i], userid, target, found1, found2);
        users := users[i := u];
        assert before[..i + 1] == before[..i] + [before[i]];
        i := i + 1;
      }
      assert users == ChangeUsers(before, c);
      assert before[..i] == before;
      return found1 && found2;
    }

    /** The loop of deleteFriendToUser runs over copies of the users: it reports what it would
        have deleted and changes nothing. */
    method DeleteFriendToUser(userid: int, friendid: int) returns (ok: bool)
      ensures ok <==> userid != friendid && Lists(users, userid, friendid) && Lists(users, friendid, userid)
    {
      var found1, found2 := false, false;
      var i := 0;
      while i < |users|
        invariant 0 <= i <= |users|
        invariant found1 <==> Lists(users[..i], userid, friendid)
        invariant found2 <==> userid != friendid && Lists(users[..i], friendid, userid)
      {
        var copy;
        copy, found1, found2 := EraseBoth(users[i], userid, friendid, found1, found2);
        assert users[..i + 1] == users[..i] + [users[i]];
        i := i + 1;
      }
      assert users[..i] == users;
      return found1 && found2;
    }

    /** DELETE of the pair's row; the cache is left as it is. */
    method ReleaseFriendRelationshipInDBAndMemory(a: int, b: int, accepts: bool) returns (ok: bool)
      modifies this`db
      ensures db == if a != b && accepts then ChangeDb(old(db), Unfriend(a, b)) else old(db)
      ensures ok <==> a != b && accepts && Lists(users, a, b) && Lists(users, b, a)
    {
      if a == b {
        return false;
      }
      var small, greater := a, b;
      if small > greater {
        small, greater := greater, small;
      }
      if !accepts {
        return false;
      }
      db := db - {(small, greater)};
      ok := DeleteFriendToUser(small, greater);
    }

    method IsFriend(userid: int, friendid: int) returns (b: bool)
      ensures b <==> Lists(users, userid, friendid)
      ensures InStep(users, db) && userid in Ids(users) && userid != friendid ==> (b <==> Key(userid, friendid) in db)
    {
      var i := 0;
      while i < |users|
        invariant 0 <= i <= |users|
        invariant !Lists(users[..i], userid, friendid)
      {
        if users[i].userid == userid {
          var _, found := EraseFriend(users[i].friends, friendid);
          if found {
            ListedIsInStep(users, db, userid, friendid);
            return true;
          }
        }
        assert users[..i + 1] == users[..i] + [users[i]];
        i := i + 1;
      }
      assert users[..i] == users;
      ListedIsInStep(users, db, userid, friendid);
      return false;
    }

    // ----- teams and mark names --------------------------------------------

    /** The two UPDATE statements, side 1 and side 2, and then the cache. The cache is touched
        only after both have succeeded. */
    method ModifyTeamName(userid: int, newteam: string, oldteam: string, ok1: bool, ok2: bool) returns (ok: bool)
      requires UniqueIds(users)
      modifies this`db, this`users
      ensures ok <==> ok1 && ok2
      ensures db == if !ok1 then old(db) else if !ok2 then HalfRenamed(old(db), userid, oldteam, newteam)
                    else ChangeDb(old(db), EditBy(userid, Rename(oldteam, newteam)))
      ensures users == if ok then ChangeUsers(old(users), EditBy(userid, Rename(oldteam, newteam))) else old(users)
      ensures ok && old(InStep(users, db)) && userid in Ids(old(users)) ==>
                (InStep(users, db) <==> Sound(old(db), EditBy(userid, Rename(oldteam, newteam))))
      ensures ok && |newteam| > 0 && old(InStep(users, db)) && old(TeamsNamed(db)) ==> InStep(users, db) && TeamsNamed(db)
    {
      ghost var db0, users0 := db, users;
      if !ok1 {
        return false;
      }
      db := map k | k in db :: EditSide1(k, db[k], userid, oldteam, newteam);
      if !ok2 {
        return false;
      }
      db := map k | k in db :: EditSide2(k, db[k], userid, oldteam, newteam);
      assert db == ChangeDb(db0, EditBy(userid, Rename(oldteam, newteam)));
      var _ := RenameInMemory(userid, oldteam, newteam);
      RenameKeepsStepIff(users0, db0, userid, oldteam, newteam);
      return true;
    }

    /** Deleting a team moves its members to the default team. */
    method DeleteTeam(userid: int, team: string, ok1: bool, ok2: bool) returns (ok: bool)
      requires UniqueIds(users)
      modifies this`db, this`users
      ensures ok <==> ok1 && ok2 && userid in Ids(users)
      ensures db == if !ok1 then old(db) else if !ok2 then HalfRenamed(old(db), userid, team, DEFAULT_TEAMNAME)
                    else ChangeDb(old(db), EditBy(userid, Rename(team, DEFAULT_TEAMNAME)))
      ensures users == if ok1 && ok2 then ChangeUsers(old(users), EditBy(userid, Rename(team, DEFAULT_TEAMNAME))) else old(users)
      ensures ok1 && ok2 && old(InStep(users, db)) ==> InStep(users, db)
    {
      ghost var db0, users0 := db, users;
      if !ok1 {
        return false;
      }
      db := map k | k in db :: EditSide1(k, db[k], userid, team, DEFAULT_TEAMNAME);
      if !ok2 {
        return false;
      }
      db := map k | k in db :: EditSide2(k, db[k], userid, team, DEFAULT_TEAMNAME);
      assert db == ChangeDb(db0, EditBy(userid, Rename(team, DEFAULT_TEAMNAME)));
      ok := RenameInMemory(userid, team, DEFAULT_TEAMNAME);
      SameIds(users0, users);
      DeletingTeamIsSound(db0, userid, team);
      if InStep(users0, db0) {
        ChangeKeepsInStep(users0, db0, EditBy(userid, Rename(team, DEFAULT_TEAMNAME)));
      }
    }

    /** The loop stops at the first user with this id, which is the only one. */
    method RenameInMemory(userid: int, o: string, n: string) returns (found: bool)
      requires UniqueIds(users)
      modifies this`users
      ensures users == ChangeUsers(old(users), EditBy(userid, Rename(o, n)))
      ensures found <==> userid in Ids(old(users))
    {
      var i := 0;
      while i < |users|
        invariant 0 <= i <= |users| && users == old(users)
        invariant forall j :: 0 <= j < i ==> users[j].userid != userid
      {
        if users[i].userid == userid {
          InIds(users, userid);
          var fs := RenameTeam(users[i].friends, o, n);
          users := users[i := users[i].(friends := fs)];
          assert users == ChangeUsers(old(users), EditBy(userid, Rename(o, n)));
          return true;
        }
        i := i + 1;
      }
      InIds(users, userid);
      assert users == ChangeUsers(old(users), EditBy(userid, Rename(o, n)));
      return false;
    }

    /** updateMarknameInDb and moveFriendToOtherTeam: one UPDATE of the pair's row, on the side of
        the acting user, then the same edit of the cached entry. */
    method EditFriend(userid: int, e: Edit, accepts: bool) returns (ok: bool)
      requires UniqueIds(users) && (forall i :: 0 <= i < |users| ==> NoDup(users[i].friends)) && !e.Rename?
      modifies this`db, this`users
      ensures db == if accepts then ChangeDb(old(db), EditBy(userid, e)) else old(db)
      ensures users == if accepts then ChangeUsers(old(users), EditBy(userid, e)) else old(users)
      ensures ok <==> accepts && Lists(old(users), userid, e.friendid)
      ensures accepts && Sound(old(db), EditBy(userid, e)) && old(InStep(users, db)) ==> InStep(users, db)
      ensures accepts && Ordered(old(db)) && Side(old(db), userid, e.friendid).Some? ==>
                Side(db, userid, e.friendid)
                == Some(Changed(Side(old(db), userid, e.friendid).value, NewMark(e), Friendships.Loaded(NewTeam(e))))
    {
      if !accepts {
        return false;
      }
      if InStep(users, db) && Sound(db, EditBy(userid, e)) {
        ChangeKeepsInStep(users, db, EditBy(userid, e));
      }
      if Ordered(db) {
        EditInTable(db, userid, e, userid, e.friendid);
      }
      db := map k | k in db :: EditRow(k, db[k], userid, e);
      ok := EditInMemory(userid, e);
    }

    method EditInMemory(userid: int, e: Edit) returns (ok: bool)
      requires UniqueIds(users) && (forall i :: 0 <= i < |users| ==> NoDup(users[i].friends)) && !e.Rename?
      modifies this`users
      ensures users == ChangeUsers(old(users), EditBy(userid, e))
      ensures ok <==> Lists(old(users), userid, e.friendid)
    {
      ghost var after := ChangeUsers(users, EditBy(userid, e));
      var i := 0;
      while i < |users|
        invariant 0 <= i <= |users| && users == old(users)
        invariant forall j :: 0 <= j < i ==> users[j].userid != userid
      {
        if users[i].userid == userid {
          var fs;
          fs, ok := EditFirst(users[i].friends, e.friendid, e);
          users := users[i := users[i].(friends := fs)];
          assert users == after;
          assert ok <==> Lists(old(users), userid, e.friendid);
          return ok;
        }
        i := i + 1;
      }
      assert users == after;
      return false;
    }
  }

  /** A rename by a cached user keeps the cache in step if and only if it is sound, and in a table
      without empty team names whenever the new name is not empty. */
  lemma RenameKeepsStepIff(users: seq<User>, db: Relations, u: int, o: string, n: string)
    ensures var c := EditBy(u, Rename(o, n));
            && (InStep(users, db) && u in Ids(users) ==> (InStep(ChangeUsers(users, c), ChangeDb(db, c)) <==> Sound(db, c)))
            && (InStep(users, db) && TeamsNamed(db) && |n| > 0 ==>
                  InStep(ChangeUsers(users, c), ChangeDb(db, c)) && TeamsNamed(ChangeDb(db, c)))
  {
    var c := EditBy(u, Rename(o, n));
    if InStep(users, db) {
      if TeamsNamed(db) && |n| > 0 {
        NamedEditsAreSound(db, u, Rename(o, n));
      }
      if Sound(db, c) {
        ChangeKeepsInStep(users, db, c);
      } else if u in Ids(users) {
        var j :| 0 <= j < |users| && users[j].userid == u;
        RenameInStepIff(users[j], db, o, n);
        assert !Matches(ChangeUsers(users, c)[j], ChangeDb(db, c));
      }
    }
  }

  // ----- lookups -----------------------------------------------------------

  /** Some cached user with id a lists b as a friend. */
  ghost predicate Lists(users: seq<User>, a: int, b: int) {
    exists j :: 0 <= j < |users| && users[j].userid == a && Find(users[j].friends, b).Some?
  }

  /** One round of the deletion loops, for one user. */
  method EraseBoth(u: User, a: int, b: int, f1: bool, f2: bool) returns (r: User, found1: bool, found2: bool)
    requires a == b ==> !f2
    ensures r == ChangeUser(u, Unfriend(a, b))
    ensures found1 <==> f1 || (u.userid == a && Find(u.friends, b).Some?)
    ensures found2 <==> f2 || (a != b && u.userid == b && Find(u.friends, a).Some?)
  {
    r, found1, found2 := u, f1, f2;
    if r.userid == a {
      var fs, found := EraseFriend(r.friends, b);
      r := r.(friends := fs);
      if found {
        found1 := true;
      }
      if found1 {
        return;
      }
    }
    if r.userid == b {
      if a == b { RemoveAbsent(u.friends, b); }
      var fs, found := EraseFriend(r.friends, a);
      r := r.(friends := fs);
      if found {
        found2 := true;
      }
    }
  }

  lemma {:induction false} RemoveAbsent(fs: seq<FriendInfo>, f: int)
    requires Find(fs, f) == None
    ensures RemoveFirst(fs, f) == fs
  {
    if fs != [] {
      RemoveAbsent(fs[1..], f);
    }
  }

  lemma InIds(users: seq<User>, id: int)
    ensures id in Ids(users) <==> exists j :: 0 <= j < |users| && users[j].userid == id
  {
  }

  lemma SameIds(a: seq<User>, b: seq<User>)
    requires |a| == |b| && forall i :: 0 <= i < |a| ==> a[i].userid == b[i].userid
    ensures Ids(a) == Ids(b)
  {
    forall id ensures id in Ids(a) <==> id in Ids(b) {
      if id in Ids(a) { var j :| 0 <= j < |a| && a[j].userid == id; assert b[j].userid == id; }
      if id in Ids(b) { var j :| 0 <= j < |b| && b[j].userid == id; assert a[j].userid == id; }
    }
  }

  lemma AppendIds(users: seq<User>, id: int)
    ensures Ids(users + [User(id, [])]) == Ids(users) + {id}
  {
    var more := users + [User(id, [])];
    assert more[|users|].userid == id;
    forall x | x in Ids(users) ensures x in Ids(more) {
      var j :| 0 <= j < |users| && users[j].userid == x;
      assert more[j].userid == x;
    }
  }

  lemma ListedIsInStep(users: seq<User>, db: Relations, a: int, b: int)
    ensures InStep(users, db) && a in Ids(users) && a != b ==> (Lists(users, a, b) <==> Key(a, b) in db)
  {
    if InStep(users, db) && a in Ids(users) && a != b {
      var j :| 0 <= j < |users| && users[j].userid == a;
      assert Find(users[j].friends, b) == Side(db, a, b);
    }
  }
}
