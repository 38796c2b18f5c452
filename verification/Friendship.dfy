/** server/src/service/user_manager.cpp: the friend lists cached in memory and the relationship
    table in the database.

    The table holds one row per pair of friends, smaller id first, with a mark name and a team
    name for each side. `Side` is what loadRelationshipFromDb makes of it for one user and one
    friend. A cached user matches the table when looking up any id in the friend list gives
    exactly that. Every relationship change is a `Change`; its effect on the table and its
    effect on the cache are shown to commute with loading. */
module Friendships {
  import opened Common

  datatype FriendInfo = FriendInfo(friendid: int, markname: string, teamname: string)

  datatype Row = Row(mark1: string, mark2: string, team1: string, team2: string)

  type Relations = map<(int, int), Row>

  datatype User = User(userid: int, friends: seq<FriendInfo>)

  const DEFAULT_TEAMNAME := "My Friends"
  const GROUPID_BOUNDARY: int := 0x0FFF_FFFF

  // ----- the table as one user sees it -------------------------------------

  function Key(a: int, b: int): (int, int) {
    if a < b then (a, b) else (b, a)
  }

  /** An empty team name in the table loads as the default team. */
  function LoadedTeam(team: string): string {
    if |team| == 0 then DEFAULT_TEAMNAME else team
  }

  /** What loading gives user u about f. */
  function Side(db: Relations, u: int, f: int): Option<FriendInfo> {
    if u == f || Key(u, f) !in db then None
    else
      var row := db[Key(u, f)];
      if u < f then Some(FriendInfo(f, row.mark1, LoadedTeam(row.team1)))
      else Some(FriendInfo(f, row.mark2, LoadedTeam(row.team2)))
  }

  /** Rows keep the smaller id first. */
  ghost predicate Ordered(db: Relations) {
    forall k :: k in db ==> k.0 < k.1
  }

  ghost predicate TeamsNamed(db: Relations) {
    forall k :: k in db ==> |db[k].team1| > 0 && |db[k].team2| > 0
  }

  // ----- friend lists ------------------------------------------------------

  function Find(fs: seq<FriendInfo>, f: int): Option<FriendInfo> {
    if fs == [] then None else if fs[0].friendid == f then Some(fs[0]) else Find(fs[1..], f)
  }

  ghost predicate NoDup(fs: seq<FriendInfo>) {
    forall i, j :: 0 <= i < j < |fs| ==> fs[i].friendid != fs[j].friendid
  }

  function RemoveFirst(fs: seq<FriendInfo>, f: int): seq<FriendInfo> {
    if fs == [] then [] else if fs[0].friendid == f then fs[1..] else [fs[0]] + RemoveFirst(fs[1..], f)
  }

  datatype Edit =
    | Rename(oldteam: string, newteam: string)
    | Move(friendid: int, team: string)
    | Mark(friendid: int, name: string)

  function EditInfo(fi: FriendInfo, e: Edit): (r: FriendInfo)
    ensures r.friendid == fi.friendid
  {
    match e
    case Rename(o, n) => if fi.teamname == o then fi.(teamname := n) else fi
    case Move(f, team) => if fi.friendid == f then fi.(teamname := team) else fi
    case Mark(f, name) => if fi.friendid == f then fi.(markname := name) else fi
  }

  function EditAll(fs: seq<FriendInfo>, e: Edit): (r: seq<FriendInfo>)
    ensures |r| == |fs|
    ensures forall i :: 0 <= i < |fs| ==> r[i] == EditInfo(fs[i], e)
  {
    if fs == [] then [] else [EditInfo(fs[0], e)] + EditAll(fs[1..], e)
  }

  lemma {:induction false} FindAbsent(fs: seq<FriendInfo>, f: int)
    ensures Find(fs, f) == None <==> forall i :: 0 <= i < |fs| ==> fs[i].friendid != f
  {
    if fs != [] {
      FindAbsent(fs[1..], f);
      assert forall i :: 1 <= i < |fs| ==> fs[i] == fs[1..][i - 1];
    }
  }

  lemma {:induction false} FindAt(fs: seq<FriendInfo>, i: nat)
    requires NoDup(fs) && i < |fs|
    ensures Find(fs, fs[i].friendid) == Some(fs[i])
  {
    if i > 0 {
      FindAt(fs[1..], i - 1);
    }
  }

  lemma {:induction false} FindAppend(fs: seq<FriendInfo>, x: FriendInfo, f: int)
    ensures Find(fs + [x], f) ==
              if Find(fs, f).Some? then Find(fs, f) else if x.friendid == f then Some(x) else None
  {
    if fs == [] {
      assert fs + [x] == [x];
    } else {
      assert (fs + [x])[1..] == fs[1..] + [x];
      FindAppend(fs[1..], x, f);
    }
  }

  lemma {:induction false} FindRemove(fs: seq<FriendInfo>, g: int, f: int)
    requires NoDup(fs)
    ensures Find(RemoveFirst(fs, g), f) == if f == g then None else Find(fs, f)
  {
    if fs != [] {
      if fs[0].friendid == g {
        FindAbsent(fs[1..], g);
      } else {
        FindRemove(fs[1..], g, f);
        assert ([fs[0]] + RemoveFirst(fs[1..], g))[1..] == RemoveFirst(fs[1..], g);
      }
    }
  }

  lemma {:induction false} RemoveKeepsNoDup(fs: seq<FriendInfo>, g: int)
    requires NoDup(fs)
    ensures NoDup(RemoveFirst(fs, g))
    ensures forall i :: 0 <= i < |RemoveFirst(fs, g)| ==> RemoveFirst(fs, g)[i] in fs
  {
    if fs != [] && fs[0].friendid != g {
      RemoveKeepsNoDup(fs[1..], g);
    }
  }

  lemma {:induction false} FindEdit(fs: seq<FriendInfo>, e: Edit, f: int)
    ensures Find(EditAll(fs, e), f) == match Find(fs, f) case None => None case Some(fi) => Some(EditInfo(fi, e))
  {
    if fs != [] {
      FindEdit(fs[1..], e, f);
      assert ([EditInfo(fs[0], e)] + EditAll(fs[1..], e))[1..] == EditAll(fs[1..], e);
    }
  }

  // ----- changes -----------------------------------------------------------

  datatype Change =
    | Befriend(a: int, b: int)
    | Unfriend(a: int, b: int)
    | EditBy(u: int, e: Edit)

  /** Side 1 or side 2 of a row, edited. */
  function EditRow(k: (int, int), row: Row, u: int, e: Edit): Row {
    match e
    case Rename(o, n) => EditSide2(k, EditSide1(k, row, u, o, n), u, o, n)
    case Move(f, team) =>
      if k != Key(u, f) then row else if u < f then row.(team1 := team) else row.(team2 := team)
    case Mark(f, name) =>
      if k != Key(u, f) then row else if u < f then row.(mark1 := name) else row.(mark2 := name)
  }

  function EditSide1(k: (int, int), row: Row, u: int, o: string, n: string): Row {
    if k.0 == u && row.team1 == o then row.(team1 := n) else row
  }

  function EditSide2(k: (int, int), row: Row, u: int, o: string, n: string): Row {
    if k.1 == u && row.team2 == o then row.(team2 := n) else row
  }

  const NEW_ROW := Row("", "", DEFAULT_TEAMNAME, DEFAULT_TEAMNAME)

  /** The SQL of a change, fully executed. */
  function ChangeDb(db: Relations, c: Change): Relations {
    match c
    case Befriend(a, b) => db[Key(a, b) := NEW_ROW]
    case Unfriend(a, b) => db - {Key(a, b)}
    case EditBy(u, e) => map k | k in db :: EditRow(k, db[k], u, e)
  }

  /** What the change does to one cached user. */
  function ChangeUser(usr: User, c: Change): (r: User)
    ensures r.userid == usr.userid
  {
    match c
    case Befriend(a, b) =>
      if usr.userid == a then usr.(friends := usr.friends + [FriendInfo(b, "", DEFAULT_TEAMNAME)])
      else if usr.userid == b then usr.(friends := usr.friends + [FriendInfo(a, "", DEFAULT_TEAMNAME)])
      else usr
    case Unfriend(a, b) =>
      if usr.userid == a then usr.(friends := RemoveFirst(usr.friends, b))
      else if usr.userid == b then usr.(friends := RemoveFirst(usr.friends, a))
      else usr
    case EditBy(u, e) =>
      if usr.userid == u then usr.(friends := EditAll(usr.friends, e)) else usr
  }

  /** The team that the row of pair k stores for side u. */
  function StoredTeam(k: (int, int), row: Row, u: int): string {
    if k.0 == u then row.team1 else row.team2
  }

  /** Renaming o to n does to a side that stores this team what it does to the cached entry, which
      holds the loaded name. It does not if an empty name takes the place of another one, or if
      the side stores the empty name and is taken for the default team in the cache only. */
  predicate RenameAgrees(stored: string, o: string, n: string) {
    if stored == o then (if |o| == 0 then LoadedTeam(n) == DEFAULT_TEAMNAME else |n| > 0)
    else |stored| == 0 && o == DEFAULT_TEAMNAME ==> n == o
  }

  /** What the change must not do: befriend twice, move a friend to an empty team name, or rename
      where table and cache disagree. */
  ghost predicate Sound(db: Relations, c: Change) {
    match c
    case Befriend(a, b) => a != b && Key(a, b) !in db
    case Unfriend(a, b) => a != b
    case EditBy(u, Rename(o, n)) =>
      forall k :: k in db && (k.0 == u || k.1 == u) ==> RenameAgrees(StoredTeam(k, db[k], u), o, n)
    case EditBy(u, Move(f, team)) => |team| > 0 || Key(u, f) !in db
    case EditBy(_, Mark(_, _)) => true
  }

  /** In a table without empty team names, edits that bring none are sound and keep it so. */
  lemma NamedEditsAreSound(db: Relations, u: int, e: Edit)
    requires TeamsNamed(db) && (e.Rename? ==> |e.newteam| > 0) && (e.Move? ==> |e.team| > 0)
    ensures Sound(db, EditBy(u, e)) && TeamsNamed(ChangeDb(db, EditBy(u, e)))
  {
  }

  /** Renaming to the default team, which is what deleting a team does, always is. */
  lemma DeletingTeamIsSound(db: Relations, u: int, team: string)
    ensures Sound(db, EditBy(u, Rename(team, DEFAULT_TEAMNAME)))
  {
  }

  /** The cached list, as a map by friend id, is what loading would rebuild. */
  ghost predicate Matches(usr: User, db: Relations) {
    NoDup(usr.friends) && forall f: int :: Find(usr.friends, f) == Side(db, usr.userid, f)
  }

  lemma BefriendCommutes(usr: User, db: Relations, a: int, b: int)
    requires Matches(usr, db) && Sound(db, Befriend(a, b))
    ensures Matches(ChangeUser(usr, Befriend(a, b)), ChangeDb(db, Befriend(a, b)))
  {
    var db' := ChangeDb(db, Befriend(a, b));
    var u, fs := usr.userid, usr.friends;
    if u == a || u == b {
      var x := FriendInfo(if u == a then b else a, "", DEFAULT_TEAMNAME);
      assert Find(fs, x.friendid) == Side(db, u, x.friendid) == None;
      FindAbsent(fs, x.friendid);
      forall f: int ensures Find(fs + [x], f) == Side(db', u, f) {
        FindAppend(fs, x, f);
      }
    } else {
      forall f: int ensures Find(fs, f) == Side(db', u, f) {
      }
    }
  }

  lemma UnfriendCommutes(usr: User, db: Relations, a: int, b: int)
    requires Matches(usr, db) && a != b
    ensures Matches(ChangeUser(usr, Unfriend(a, b)), ChangeDb(db, Unfriend(a, b)))
  {
    var db' := ChangeDb(db, Unfriend(a, b));
    var u, fs := usr.userid, usr.friends;
    if u == a || u == b {
      var g := if u == a then b else a;
      RemoveKeepsNoDup(fs, g);
      forall f: int ensures Find(RemoveFirst(fs, g), f) == Side(db', u, f) {
        FindRemove(fs, g, f);
      }
    } else {
      forall f: int ensures Find(fs, f) == Side(db', u, f) {
      }
    }
  }

  /** Editing the table edits exactly the editing user's view of it. */
  lemma EditSideOf(db: Relations, u: int, e: Edit, v: int, f: int)
    requires Ordered(db) && Sound(db, EditBy(u, e))
    ensures Side(ChangeDb(db, EditBy(u, e)), v, f) ==
              match Side(db, v, f) case None => None case Some(fi) => Some(if v == u then EditInfo(fi, e) else fi)
  {
    if v != f && Key(v, f) in db {
      var k := Key(v, f);
      assert ChangeDb(db, EditBy(u, e))[k] == EditRow(k, db[k], u, e);
      if e.Rename? && v == u {
        assert RenameAgrees(StoredTeam(k, db[k], u), e.oldteam, e.newteam);
      }
    }
  }

  lemma EditCommutes(usr: User, db: Relations, u: int, e: Edit)
    requires Matches(usr, db) && Ordered(db) && Sound(db, EditBy(u, e))
    ensures Matches(ChangeUser(usr, EditBy(u, e)), ChangeDb(db, EditBy(u, e)))
  {
    var db' := ChangeDb(db, EditBy(u, e));
    var usr' := ChangeUser(usr, EditBy(u, e));
    forall f: int ensures Find(usr'.friends, f) == Side(db', usr.userid, f) {
      FindEdit(usr.friends, e, f);
      EditSideOf(db, u, e, usr.userid, f);
      assert Find(usr.friends, f) == Side(db, usr.userid, f);
    }
  }

  /** Changing the table and then loading is the same as loading and then changing the cache. */
  lemma ChangeCommutesWithLoading(usr: User, db: Relations, c: Change)
    requires Matches(usr, db) && Ordered(db) && Sound(db, c)
    ensures Matches(ChangeUser(usr, c), ChangeDb(db, c)) && Ordered(ChangeDb(db, c))
  {
    match c
    case Befriend(a, b) => BefriendCommutes(usr, db, a, b);
    case Unfriend(a, b) => UnfriendCommutes(usr, db, a, b);
    case EditBy(u, e) => EditCommutes(usr, db, u, e);
  }

  // ----- what each change does, to table and cache -------------------------

  /** A changed entry: a mark name or a team takes the place of the one there. */
  function Changed(fi: FriendInfo, mark: Option<string>, team: Option<string>): FriendInfo {
    FriendInfo(fi.friendid, if mark.Some? then mark.value else fi.markname, if team.Some? then team.value else fi.teamname)
  }

  function NewMark(e: Edit): Option<string> {
    if e.Mark? then Some(e.name) else None
  }

  function NewTeam(e: Edit): Option<string> {
    if e.Move? then Some(e.team) else None
  }

  function Loaded(team: Option<string>): Option<string> {
    if team.Some? then Some(LoadedTeam(team.value)) else None
  }

  /** Changing a mark name or moving a friend changes exactly that of exactly that friend, as the
      acting user sees the table: not what the friend sees, nor any other pair. */
  lemma EditInTable(db: Relations, u: int, e: Edit, v: int, g: int)
    requires Ordered(db) && !e.Rename?
    ensures Side(ChangeDb(db, EditBy(u, e)), v, g) ==
              if v == u && g == e.friendid && Side(db, v, g).Some?
              then Some(Changed(Side(db, v, g).value, NewMark(e), Loaded(NewTeam(e))))
              else Side(db, v, g)
  {
    if v != g && Key(v, g) in db {
      assert ChangeDb(db, EditBy(u, e))[Key(v, g)] == EditRow(Key(v, g), db[Key(v, g)], u, e);
    }
  }

  lemma EditInCache(usr: User, u: int, e: Edit, g: int)
    requires !e.Rename?
    ensures Find(ChangeUser(usr, EditBy(u, e)).friends, g) ==
              if usr.userid == u && g == e.friendid && Find(usr.friends, g).Some?
              then Some(Changed(Find(usr.friends, g).value, NewMark(e), NewTeam(e)))
              else Find(usr.friends, g)
  {
    FindEdit(usr.friends, e, g);
    FoundIsMember(usr.friends, g);
  }

  /** Renaming a team changes, of the acting user's friends, exactly those in it. */
  lemma RenameInTable(db: Relations, u: int, o: string, n: string, v: int, g: int)
    requires Ordered(db)
    ensures Side(ChangeDb(db, EditBy(u, Rename(o, n))), v, g) ==
              if v == u && Side(db, v, g).Some? && StoredTeam(Key(u, g), db[Key(u, g)], u) == o
              then Some(Changed(Side(db, v, g).value, None, Some(LoadedTeam(n))))
              else Side(db, v, g)
  {
    if v != g && Key(v, g) in db {
      assert ChangeDb(db, EditBy(u, Rename(o, n)))[Key(v, g)] == EditRow(Key(v, g), db[Key(v, g)], u, Rename(o, n));
    }
  }

  lemma RenameInCache(usr: User, u: int, o: string, n: string, g: int)
    ensures Find(ChangeUser(usr, EditBy(u, Rename(o, n))).friends, g) ==
              if usr.userid == u && Find(usr.friends, g).Some? && Find(usr.friends, g).value.teamname == o
              then Some(Changed(Find(usr.friends, g).value, None, Some(n)))
              else Find(usr.friends, g)
  {
    FindEdit(usr.friends, Rename(o, n), g);
  }

  predicate Pair(a: int, b: int, v: int, g: int) {
    (v == a && g == b) || (v == b && g == a)
  }

  /** New friends see each other without a mark name, in the default team; friends released do not
      see each other; nobody else sees a change. */
  lemma FriendsInTable(db: Relations, a: int, b: int, v: int, g: int)
    requires a != b
    ensures Side(ChangeDb(db, Befriend(a, b)), v, g) ==
              if Pair(a, b, v, g) then Some(FriendInfo(g, "", "My Friends")) else Side(db, v, g)
    ensures Side(ChangeDb(db, Unfriend(a, b)), v, g) == if Pair(a, b, v, g) then None else Side(db, v, g)
    ensures TeamsNamed(db) ==> TeamsNamed(ChangeDb(db, Befriend(a, b))) && TeamsNamed(ChangeDb(db, Unfriend(a, b)))
  {
    assert TeamsNamed(db) ==> forall k :: k in ChangeDb(db, Befriend(a, b)) && k != Key(a, b) ==> k in db;
  }

  lemma FriendsInCache(usr: User, a: int, b: int, g: int)
    requires a != b && NoDup(usr.friends)
    ensures Find(usr.friends, g) == None ==>
              Find(ChangeUser(usr, Befriend(a, b)).friends, g) ==
                if Pair(a, b, usr.userid, g) then Some(FriendInfo(g, "", "My Friends")) else None
    ensures Find(ChangeUser(usr, Unfriend(a, b)).friends, g) == if Pair(a, b, usr.userid, g) then None else Find(usr.friends, g)
  {
    var u := usr.userid;
    if u == a || u == b {
      var other := if u == a then b else a;
      FindAppend(usr.friends, FriendInfo(other, "", DEFAULT_TEAMNAME), g);
      FindRemove(usr.friends, other, g);
    }
  }

  // ----- where the law fails, exactly --------------------------------------

  /** Renaming a team keeps the cache in step if and only if each of the user's rows agrees with
      its cached entry on the rename, whatever names the table holds. */
  lemma RenameInStepIff(usr: User, db: Relations, o: string, n: string)
    requires Matches(usr, db) && Ordered(db)
    ensures var c := EditBy(usr.userid, Rename(o, n));
            Matches(ChangeUser(usr, c), ChangeDb(db, c)) <==>
              forall k :: k in db && (k.0 == usr.userid || k.1 == usr.userid) ==>
                RenameAgrees(StoredTeam(k, db[k], usr.userid), o, n)
  {
    var u, c := usr.userid, EditBy(usr.userid, Rename(o, n));
    var usr', db' := ChangeUser(usr, c), ChangeDb(db, c);
    if Sound(db, c) {
      EditCommutes(usr, db, u, Rename(o, n));
    } else {
      var k :| k in db && (k.0 == u || k.1 == u) && !RenameAgrees(StoredTeam(k, db[k], u), o, n);
      var f := if k.0 == u then k.1 else k.0;
      assert k == Key(u, f) && db'[k] == EditRow(k, db[k], u, Rename(o, n));
      FindEdit(usr.friends, Rename(o, n), f);
      assert Find(usr.friends, f) == Side(db, u, f);
      assert Find(usr'.friends, f) != Side(db', u, f);
    }
  }

  /** In a table without empty team names, that is if and only if the new name is not empty, or
      nobody is in the old team. */
  lemma NamedRenameInStepIff(usr: User, db: Relations, o: string, n: string)
    requires Matches(usr, db) && Ordered(db) && TeamsNamed(db)
    ensures var c := EditBy(usr.userid, Rename(o, n));
            Matches(ChangeUser(usr, c), ChangeDb(db, c)) <==>
              |n| > 0 || forall i :: 0 <= i < |usr.friends| ==> usr.friends[i].teamname != o
  {
    var u := usr.userid;
    RenameInStepIff(usr, db, o, n);
    if |n| == 0 {
      if i :| 0 <= i < |usr.friends| && usr.friends[i].teamname == o {
        var f := usr.friends[i].friendid;
        FindAt(usr.friends, i);
        assert Side(db, u, f) == Some(usr.friends[i]);
        assert !RenameAgrees(StoredTeam(Key(u, f), db[Key(u, f)], u), o, n);
      } else {
        forall k | k in db && (k.0 == u || k.1 == u) ensures RenameAgrees(StoredTeam(k, db[k], u), o, n) {
          StoredIsCached(usr, db, k);
        }
      }
    }
  }

  /** A stored team name, unless empty, is that of a cached friend. */
  lemma StoredIsCached(usr: User, db: Relations, k: (int, int))
    requires Matches(usr, db) && Ordered(db) && k in db && (k.0 == usr.userid || k.1 == usr.userid)
    ensures exists i :: 0 <= i < |usr.friends|
                        && usr.friends[i].friendid == (if k.0 == usr.userid then k.1 else k.0)
                        && usr.friends[i].teamname == LoadedTeam(StoredTeam(k, db[k], usr.userid))
  {
    var f := if k.0 == usr.userid then k.1 else k.0;
    assert k == Key(usr.userid, f);
    assert Find(usr.friends, f) == Side(db, usr.userid, f);
    FoundIsMember(usr.friends, f);
  }

  lemma {:induction false} FoundIsMember(fs: seq<FriendInfo>, f: int)
    ensures Find(fs, f).Some? ==> Find(fs, f).value in fs && Find(fs, f).value.friendid == f
  {
    if fs != [] {
      FoundIsMember(fs[1..], f);
    }
  }

  /** Moving a friend keeps the cache in step if and only if the team has a name, or there is no
      such friend. */
  lemma MoveInStepIff(usr: User, db: Relations, f: int, team: string)
    requires Matches(usr, db) && Ordered(db)
    ensures var c := EditBy(usr.userid, Move(f, team));
            Matches(ChangeUser(usr, c), ChangeDb(db, c)) <==> |team| > 0 || Find(usr.friends, f) == None
  {
    var u, e := usr.userid, Move(f, team);
    assert Find(usr.friends, f) == Side(db, u, f);
    if |team| > 0 || Key(u, f) !in db {
      EditCommutes(usr, db, u, e);
    } else {
      FindEdit(usr.friends, e, f);
      FoundIsMember(usr.friends, f);
      assert ChangeDb(db, EditBy(u, e))[Key(u, f)] == EditRow(Key(u, f), db[Key(u, f)], u, e);
      assert Find(ChangeUser(usr, EditBy(u, e)).friends, f) != Side(ChangeDb(db, EditBy(u, e)), u, f);
    }
  }

  /** Only the first of the two UPDATE statements of a rename succeeded. */
  function HalfRenamed(db: Relations, u: int, o: string, n: string): Relations {
    map k | k in db :: EditSide1(k, db[k], u, o, n)
  }

  /** Then the call fails and leaves the cache alone; cache and table still agree if and only if
      both names load alike, or no row has the old name on its first side, the user's. */
  lemma HalfRenameInStepIff(usr: User, db: Relations, o: string, n: string)
    requires Matches(usr, db) && Ordered(db)
    ensures Matches(usr, HalfRenamed(db, usr.userid, o, n)) <==>
              LoadedTeam(n) == LoadedTeam(o) || forall k :: k in db && k.0 == usr.userid ==> db[k].team1 != o
  {
    var u, db' := usr.userid, HalfRenamed(db, usr.userid, o, n);
    if LoadedTeam(n) != LoadedTeam(o) && exists k :: k in db && k.0 == u && db[k].team1 == o {
      var k :| k in db && k.0 == u && db[k].team1 == o;
      assert k == Key(u, k.1) && db'[k] == EditSide1(k, db[k], u, o, n);
      assert Find(usr.friends, k.1) == Side(db, u, k.1);
      assert Side(db', u, k.1) != Side(db, u, k.1);
    } else {
      forall f: int ensures Find(usr.friends, f) == Side(db', u, f) {
        assert Find(usr.friends, f) == Side(db, u, f);
        if u != f && Key(u, f) in db {
          assert db'[Key(u, f)] == EditSide1(Key(u, f), db[Key(u, f)], u, o, n);
        }
      }
    }
  }

  /** In a table without empty team names, that is if and only if no friend with a larger id is in
      the old team, or the new name loads back as the old. */
  lemma NamedHalfRenameInStepIff(usr: User, db: Relations, o: string, n: string)
    requires Matches(usr, db) && Ordered(db) && TeamsNamed(db)
    ensures Matches(usr, HalfRenamed(db, usr.userid, o, n)) <==>
              o == LoadedTeam(n) || forall i :: 0 <= i < |usr.friends| && usr.friends[i].friendid > usr.userid
                                                ==> usr.friends[i].teamname != o
  {
    var u := usr.userid;
    HalfRenameInStepIff(usr, db, o, n);
    if i :| 0 <= i < |usr.friends| && usr.friends[i].friendid > u && usr.friends[i].teamname == o {
      var f := usr.friends[i].friendid;
      FindAt(usr.friends, i);
      assert Side(db, u, f) == Some(usr.friends[i]);
      assert Key(u, f) in db && Key(u, f).0 == u && db[Key(u, f)].team1 == o;
    } else {
      forall k | k in db && k.0 == u ensures db[k].team1 != o {
        StoredIsCached(usr, db, k);
      }
    }
  }

  /** Despite its name, releaseFriendRelationshipInDBAndMemory changes the table only. The
      cached list of either friend is then stale if and only if they were friends. */
  lemma ReleaseAloneLeavesStaleIff(usr: User, db: Relations, f: int)
    requires Matches(usr, db) && usr.userid != f
    ensures Matches(usr, db - {Key(usr.userid, f)}) <==> Key(usr.userid, f) !in db
  {
    var db' := db - {Key(usr.userid, f)};
    assert Find(usr.friends, f) == Side(db, usr.userid, f);
    if Key(usr.userid, f) !in db {
      assert db' == db;
    }
  }

  /** All these cases do occur: one cached user, with one friend in some team. Renaming the team to
      the empty name, moving the friend to it, a rename whose second statement fails, and a
      release each leave cache and table apart; so does caching the friend with an empty list. */
  lemma StepMayBeLost(u: int, f: int, team: string, other: string)
    requires u < f && |team| > 0 && team != LoadedTeam(other)
    ensures var usr, db := User(u, [FriendInfo(f, "", team)]), map[(u, f) := Row("", "", team, team)];
            var rename, move := EditBy(u, Rename(team, "")), EditBy(u, Move(f, ""));
            && Matches(usr, db) && Ordered(db) && TeamsNamed(db)
            && !Matches(ChangeUser(usr, rename), ChangeDb(db, rename))
            && !Matches(ChangeUser(usr, move), ChangeDb(db, move))
            && !Matches(usr, HalfRenamed(db, u, team, other))
            && !Matches(usr, db - {Key(u, f)})
            && !Matches(User(f, []), db)
  {
    var usr, db := User(u, [FriendInfo(f, "", team)]), map[(u, f) := Row("", "", team, team)];
    forall g: int ensures Find(usr.friends, g) == Side(db, u, g) {
      assert usr.friends[1..] == [];
    }
    assert usr.friends[0].teamname == team && Find(usr.friends, f).Some?;
    NamedRenameInStepIff(usr, db, team, "");
    MoveInStepIff(usr, db, f, "");
    NamedHalfRenameInStepIff(usr, db, team, other);
    ReleaseAloneLeavesStaleIff(usr, db, f);
    EmptyListMatchesIff(db, f);
  }

  /** And so does a table with an empty team name, which loads as the default team: renaming that
      team to any other misses the row. */
  lemma UnnamedTeamMissesRename(u: int, f: int, n: string)
    requires u < f && n != DEFAULT_TEAMNAME
    ensures var usr, db := User(u, [FriendInfo(f, "", DEFAULT_TEAMNAME)]), map[(u, f) := Row("", "", "", "")];
            var c := EditBy(u, Rename(DEFAULT_TEAMNAME, n));
            && Matches(usr, db) && Ordered(db) && !Matches(ChangeUser(usr, c), ChangeDb(db, c))
  {
    var usr, db := User(u, [FriendInfo(f, "", DEFAULT_TEAMNAME)]), map[(u, f) := Row("", "", "", "")];
    forall g: int ensures Find(usr.friends, g) == Side(db, u, g) {
      assert usr.friends[1..] == [];
    }
    assert (u, f) in db && !RenameAgrees("", DEFAULT_TEAMNAME, n);
    RenameInStepIff(usr, db, DEFAULT_TEAMNAME, n);
  }

  /** No relationship names the user. */
  ghost predicate Unrelated(db: Relations, id: int) {
    forall k :: k in db ==> k.0 != id && k.1 != id
  }

  /** An empty list is right if and only if no relationship names the user. */
  lemma EmptyListMatchesIff(db: Relations, id: int)
    requires Ordered(db)
    ensures Matches(User(id, []), db) <==> Unrelated(db, id)
  {
    if k :| k in db && (k.0 == id || k.1 == id) {
      var f := if k.0 == id then k.1 else k.0;
      assert Key(id, f) == k;
      assert Find([], f) != Side(db, id, f);
    }
  }

  // ----- the whole cache, over whole runs ----------------------------------

  ghost predicate UniqueIds(users: seq<User>) {
    forall i, j :: 0 <= i < j < |users| ==> users[i].userid != users[j].userid
  }

  function ChangeUsers(users: seq<User>, c: Change): (r: seq<User>)
    ensures |r| == |users|
    ensures forall i :: 0 <= i < |users| ==> r[i] == ChangeUser(users[i], c)
  {
    if users == [] then [] else [ChangeUser(users[0], c)] + ChangeUsers(users[1..], c)
  }

  ghost predicate InStep(users: seq<User>, db: Relations) {
    && Ordered(db) && UniqueIds(users)
    && forall i :: 0 <= i < |users| ==> Matches(users[i], db)
  }

  lemma ChangeKeepsInStep(users: seq<User>, db: Relations, c: Change)
    requires InStep(users, db) && Sound(db, c)
    ensures InStep(ChangeUsers(users, c), ChangeDb(db, c))
  {
    forall i | 0 <= i < |users| ensures Matches(ChangeUsers(users, c)[i], ChangeDb(db, c)) {
      ChangeCommutesWithLoading(users[i], db, c);
    }
    SoundKeepsTable(db, c);
  }

  lemma SoundKeepsTable(db: Relations, c: Change)
    requires Ordered(db) && Sound(db, c)
    ensures Ordered(ChangeDb(db, c))
  {
  }

  datatype Op = Register(id: int) | Apply(c: Change)

  ghost predicate Possible(users: seq<User>, db: Relations, op: Op) {
    match op
    case Register(id) =>
      && (forall i :: 0 <= i < |users| ==> users[i].userid != id)
      && Unrelated(db, id)
    case Apply(c) => Sound(db, c)
  }

  function AfterUsers(users: seq<User>, op: Op): seq<User> {
    match op
    case Register(id) => users + [User(id, [])]
    case Apply(c) => ChangeUsers(users, c)
  }

  function AfterDb(db: Relations, op: Op): Relations {
    match op
    case Register(id) => db
    case Apply(c) => ChangeDb(db, c)
  }

  ghost predicate PossibleRun(users: seq<User>, db: Relations, ops: seq<Op>)
    decreases |ops|
  {
    ops != [] ==>
      Possible(users, db, ops[0]) && PossibleRun(AfterUsers(users, ops[0]), AfterDb(db, ops[0]), ops[1..])
  }

  function RunUsers(users: seq<User>, ops: seq<Op>): seq<User>
    decreases |ops|
  {
    if ops == [] then users else RunUsers(AfterUsers(users, ops[0]), ops[1..])
  }

  function RunDb(db: Relations, ops: seq<Op>): Relations
    decreases |ops|
  {
    if ops == [] then db else RunDb(AfterDb(db, ops[0]), ops[1..])
  }

  /** Caching a new user with an empty list keeps the cache in step if and only if the id is new to
      the cache and no relationship names it. */
  lemma RegisterInStepIff(users: seq<User>, db: Relations, id: int)
    requires InStep(users, db)
    ensures InStep(users + [User(id, [])], db) <==> Possible(users, db, Register(id))
  {
    var more := users + [User(id, [])];
    EmptyListMatchesIff(db, id);
    assert more[|users|] == User(id, []);
    forall i | 0 <= i < |users| ensures more[i] == users[i] {
    }
  }

  /** However long the server runs, reloading any user from the table would rebuild exactly the
      list that is cached. */
  lemma {:induction false} CacheStaysInStep(users: seq<User>, db: Relations, ops: seq<Op>)
    requires InStep(users, db) && PossibleRun(users, db, ops)
    ensures InStep(RunUsers(users, ops), RunDb(db, ops))
    decreases |ops|
  {
    if ops != [] {
      match ops[0] {
        case Register(id) => RegisterInStepIff(users, db, id);
        case Apply(c) => ChangeKeepsInStep(users, db, c);
      }
      CacheStaysInStep(AfterUsers(users, ops[0]), AfterDb(db, ops[0]), ops[1..]);
    }
  }

  /** Cached friendship is symmetric, and is exactly the presence of the pair's row. */
  lemma FriendshipIsSymmetric(users: seq<User>, db: Relations, i: nat, j: nat)
    requires InStep(users, db) && i < |users| && j < |users| && i != j
    ensures Find(users[i].friends, users[j].userid).Some? <==> Find(users[j].friends, users[i].userid).Some?
    ensures Find(users[i].friends, users[j].userid).Some? <==> Key(users[i].userid, users[j].userid) in db
  {
    var a, b := users[i].userid, users[j].userid;
    assert a != b;
    assert Find(users[i].friends, b) == Side(db, a, b);
    assert Find(users[j].friends, a) == Side(db, b, a);
  }
}
