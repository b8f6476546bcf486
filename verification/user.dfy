/** Local account management on the device: the account and group databases,
    the directories under /home, the password table, and the account
    lifecycle built on top of them (existence queries, uid allocation, name
    resolution, creation with a compensating delete, deletion).

    Every external command (useradd, chpasswd, groupadd, usermod, userdel) is
    an abstract change of the database state `Db`; whether the command exits
    with status 0 is an input, since nothing here runs a command. */
module User {
  import opened Wrappers

  /** One entry of the account database: a login name and its numeric uid. */
  datatype Passwd = Passwd(name: string, uid: nat)

  /** One entry of the group database: a group name and its listed members. */
  datatype Group = Group(name: string, members: seq<string>)

  /** Why an account operation raised its error. */
  datatype UserError =
    | AlreadyExists   // creation asked for a name that is already an account
    | UseraddFailed
    | ChpasswdFailed
    | GroupaddFailed
    | DeleteFailed    // userdel exited non-zero

  /** Exit status of each command `create_user` may run: true is status 0. */
  datatype Commands = Commands(useradd: bool, chpasswd: bool, groupadd: bool,
                               usermod: bool, userdel: bool)

  /** The part of the machine the account operations read and change. */
  datatype Db = Db(passwd: seq<Passwd>, groups: seq<Group>, dirs: set<string>,
                   passwords: map<string, string>)

  const FirstUid: nat := 1001
  const MaxSuffix: nat := 1000000
  const DefaultPassword: string := "kano"
  const KanoUsers: string := "kanousers"
  const DefaultGroups: seq<string> :=
    ["tty", "adm", "dialout", "cdrom", "audio", "users", "sudo", "video",
     "games", "plugdev", "input", "kanousers", "i2c"]

  function Home(name: string): string { "/home/" + name }

  function OldHome(name: string): string { "/home/" + name + "-old" }

  // ---------------------------------------------------------------------
  // Queries

  /** The names that have an entry in the account database. */
  ghost function Names(db: seq<Passwd>): set<string>
  {
    set p | p in db :: p.name
  }

  /** The names that have an entry in the group database. */
  ghost function GroupNames(gs: seq<Group>): set<string>
  {
    set g | g in gs :: g.name
  }

  /** Lookup by name, first entry first, failing with None as getpwnam
      fails with KeyError. */
  function GetPwNam(db: seq<Passwd>, name: string): (r: Option<Passwd>)
    ensures r.Some? ==> r.value in db && r.value.name == name
    ensures r.None? <==> name !in Names(db)
  {
    if |db| == 0 then None
    else if db[0].name == name then Some(db[0])
    else
      assert db == [db[0]] + db[1..];
      GetPwNam(db[1..], name)
  }

  /** Lookup by name in the group database, as getgrnam. */
  function GetGrNam(gs: seq<Group>, name: string): (r: Option<Group>)
    ensures r.Some? ==> r.value in gs && r.value.name == name
    ensures r.None? <==> name !in GroupNames(gs)
  {
    if |gs| == 0 then None
    else if gs[0].name == name then Some(gs[0])
    else
      assert gs == [gs[0]] + gs[1..];
      GetGrNam(gs[1..], name)
  }

  /** `user_exists`: the lookup succeeds exactly for names in the database. */
  function UserExists(db: seq<Passwd>, name: string): (b: bool)
    ensures b <==> name in Names(db)
  {
    GetPwNam(db, name).Some?
  }

  /** `group_exists`: the lookup succeeds and the entry found carries the
      name asked for. */
  function GroupExists(gs: seq<Group>, name: string): (b: bool)
    ensures b <==> name in GroupNames(gs)
  {
    var g := GetGrNam(gs, name);
    g.Some? && g.value.name == name
  }

  /** `get_group_members`: the member list of the group of that name. The
      lookup raises for an unknown group; its only caller asks first. */
  function GetGroupMembers(gs: seq<Group>, name: string): (r: seq<string>)
    requires GroupExists(gs, name)
    ensures Group(name, r) in gs
  {
    GetGrNam(gs, name).value.members
  }

  // ---------------------------------------------------------------------
  // Uid allocation

  ghost predicate UidInUse(db: seq<Passwd>, u: nat)
  {
    exists i :: 0 <= i < |db| && db[i].uid == u
  }

  /** `u` is the smallest uid from 1001 up that no account uses. */
  ghost predicate IsNextUid(db: seq<Passwd>, u: nat)
  {
    FirstUid <= u && !UidInUse(db, u) &&
    forall k :: FirstUid <= k < u ==> UidInUse(db, k)
  }

  /** The largest uid in use (0 for an empty database). */
  function MaxUid(db: seq<Passwd>): (m: nat)
    ensures forall i :: 0 <= i < |db| ==> db[i].uid <= m
  {
    if |db| == 0 then 0
    else
      var rest := MaxUid(db[1..]);
      if db[0].uid > rest then db[0].uid else rest
  }

  /** The first free uid at or above `u`, by the same upward scan as
      `get_next_uid`, as a reference definition. */
  ghost function FreeUidFrom(db: seq<Passwd>, u: nat): (r: nat)
    requires forall k :: FirstUid <= k < u ==> UidInUse(db, k)
    requires FirstUid <= u
    ensures IsNextUid(db, r)
    decreases MaxUid(db) + 1 - u
  {
    if UidInUse(db, u) then FreeUidFrom(db, u + 1) else u
  }

  /** The uid `get_next_uid` returns, as a function of the database. */
  ghost function NextUid(db: seq<Passwd>): (u: nat)
    ensures IsNextUid(db, u)
  {
    FreeUidFrom(db, FirstUid)
  }

  /** The smallest free uid is unique: whoever finds one finds `NextUid`. */
  lemma NextUidUnique(db: seq<Passwd>, u: nat)
    requires IsNextUid(db, u)
    ensures u == NextUid(db)
  {
  }

  /** `get_next_uid`: collect the uids of all accounts, then count up from
      1001 past every uid in use. */
  method GetNextUid(db: seq<Passwd>) returns (uid: nat)
    ensures IsNextUid(db, uid)
  {
    var uids: seq<nat> := [];
    for j := 0 to |db|
      invariant |uids| == j
      invariant forall t :: 0 <= t < j ==> uids[t] == db[t].uid
    {
      uids := uids + [db[j].uid];
    }
    uid := FirstUid;
    while uid in uids
      invariant FirstUid <= uid
      invariant forall k :: FirstUid <= k < uid ==> UidInUse(db, k)
      decreases MaxUid(db) + 1 - uid
    {
      uid := uid + 1;
    }
  }

  // ---------------------------------------------------------------------
  // Name resolution

  /** Decimal digits of `n`, as Python's `str` writes a non-negative int. */
  function NatToString(n: nat): (s: string)
    ensures |s| > 0
    ensures n > 0 ==> s[0] != '0'
    ensures forall i :: 0 <= i < |s| ==> '0' <= s[i] <= '9'
    decreases n
  {
    var d := "0123456789"[n % 10];
    if n < 10 then [d] else NatToString(n / 10) + [d]
  }

  /** The number a string of decimal digits spells, most significant first. */
  function DigitsValue(s: string): nat
  {
    if |s| == 0 then 0
    else
      var d := s[|s| - 1] as int - '0' as int;
      DigitsValue(s[..|s| - 1]) * 10 + (if 0 <= d then d else 0)
  }

  /** The digits `NatToString` writes spell `n` back. */
  lemma {:induction false} NatToStringRoundTrip(n: nat)
    ensures DigitsValue(NatToString(n)) == n
  {
    var s := NatToString(n);
    var d := "0123456789"[n % 10];
    assert d as int - '0' as int == n % 10;
    if n >= 10 {
      NatToStringRoundTrip(n / 10);
      assert s[..|s| - 1] == NatToString(n / 10);
    }
  }

  /** The `k`-th name tried for `base`: the base itself, then base1, base2, ... */
  function Candidate(base: string, k: nat): string
  {
    if k == 0 then base else base + NatToString(k)
  }

  /** Every candidate before the `k`-th is an existing account. */
  ghost predicate TakenBelow(db: seq<Passwd>, base: string, k: nat)
  {
    forall j :: 0 <= j < k ==> UserExists(db, Candidate(base, j))
  }

  /** `r` is what the suffix search yields for `base`: the first free
      candidate, or the last one tried once 1,000,000 suffixes are spent. */
  ghost predicate ResolvesUnique(db: seq<Passwd>, base: string, r: string)
  {
    exists k :: 0 <= k <= MaxSuffix && r == Candidate(base, k) &&
      TakenBelow(db, base, k) && (k < MaxSuffix ==> !UserExists(db, r))
  }

  /** `make_username_unique`: try the base, then the base with suffixes 1,
      2, ... up to 1,000,000, and stop at the first name that is not an
      account. When every suffix is taken, the last name tried is returned
      although it is taken. */
  method MakeUsernameUnique(db: seq<Passwd>, base: string) returns (username: string)
    ensures ResolvesUnique(db, base, username)
    ensures !UserExists(db, base) ==> username == base
    ensures UserExists(db, username) ==> username == base + NatToString(MaxSuffix)
  {
    var n := 1;
    username := base;
    while UserExists(db, username) && n <= MaxSuffix
      invariant 1 <= n <= MaxSuffix + 1
      invariant username == Candidate(base, n - 1)
      invariant TakenBelow(db, base, n - 1)
    {
      assert TakenBelow(db, base, n) by {
        forall j | 0 <= j < n
          ensures UserExists(db, Candidate(base, j))
        {
          if j == n - 1 {
            assert Candidate(base, j) == username;
          }
        }
      }
      username := base + NatToString(n);
      n := n + 1;
    }
    ghost var k := n - 1;
    assert k <= MaxSuffix && username == Candidate(base, k) &&
      TakenBelow(db, base, k) && (k < MaxSuffix ==> !UserExists(db, username));
    if k > 0 {
      assert UserExists(db, Candidate(base, 0));
      assert username == base + NatToString(k);
    }
  }

  // ---------------------------------------------------------------------
  // Name resolution with only `kano` taken

  /** The only account of a one-account database is its own name. */
  lemma OnlyAccount(p: Passwd, n: string)
    ensures UserExists([p], n) <==> n == p.name
  {
    assert Names([p]) == {p.name};
  }

  /** The first suffixed candidate for "kano". */
  lemma FirstSuffixed()
    ensures Candidate("kano", 1) == "kano1"
  {
    assert NatToString(1) == "1";
  }

  /** The body of `ResolvesUnique` for the one-account database
      `[Passwd("kano", 1000)]`, with the witness `k` named: the state of the
      suffix search after `k` tries. */
  ghost predicate KanoSearchAt(r: string, k: nat)
  {
    var db := [Passwd("kano", 1000)];
    k <= MaxSuffix && r == Candidate("kano", k) &&
    TakenBelow(db, "kano", k) && (k < MaxSuffix ==> !UserExists(db, r))
  }

  /** The taken base is passed over... */
  lemma KanoSearchPassesBase(r: string, k: nat)
    requires KanoSearchAt(r, k)
    ensures k != 0
  {
    OnlyAccount(Passwd("kano", 1000), r);
  }

  /** ...and the free first suffix ends the search. */
  lemma KanoSearchStopsAtOne(r: string, k: nat)
    requires KanoSearchAt(r, k)
    ensures k <= 1
  {
    FirstSuffixed();
    OnlyAccount(Passwd("kano", 1000), "kano1");
    assert !UserExists([Passwd("kano", 1000)], Candidate("kano", 1));
  }

  /** With only `kano` taken, the suffix search for "kano" yields "kano1". */
  lemma KanoResolvesToKano1(r: string)
    requires ResolvesUnique([Passwd("kano", 1000)], "kano", r)
    ensures r == "kano1"
  {
    var k: nat :| k <= MaxSuffix && r == Candidate("kano", k) &&
      TakenBelow([Passwd("kano", 1000)], "kano", k) &&
      (k < MaxSuffix ==> !UserExists([Passwd("kano", 1000)], r));
    KanoSearchPassesBase(r, k);
    KanoSearchStopsAtOne(r, k);
    FirstSuffixed();
  }

  // ---------------------------------------------------------------------
  // Command effects

  /** No two accounts share a name. */
  ghost predicate UniqueNames(db: seq<Passwd>)
  {
    |db| == 0 || (db[0].name !in Names(db[1..]) && UniqueNames(db[1..]))
  }

  /** The account database without the entries of `name`. */
  function RemoveAccount(db: seq<Passwd>, name: string): (r: seq<Passwd>)
    ensures forall p :: p in r <==> p in db && p.name != name
    ensures Names(r) == Names(db) - {name}
    ensures name !in Names(db) ==> r == db
  {
    if |db| == 0 then []
    else
      assert db == [db[0]] + db[1..];
      var rest := RemoveAccount(db[1..], name);
      if db[0].name == name then rest else [db[0]] + rest
  }

  /** A member list without `name`. */
  function Without(members: seq<string>, name: string): (r: seq<string>)
    ensures forall m :: m in r <==> m in members && m != name
  {
    if |members| == 0 then []
    else
      var rest := Without(members[1..], name);
      if members[0] == name then rest else [members[0]] + rest
  }

  /** Every group with `name` dropped from its member list. */
  function DropMember(gs: seq<Group>, name: string): (r: seq<Group>)
    ensures |r| == |gs|
    ensures forall i :: 0 <= i < |gs| ==>
      r[i].name == gs[i].name &&
      (forall m :: m in r[i].members <==> m in gs[i].members && m != name)
  {
    seq(|gs|, i requires 0 <= i < |gs| =>
      gs[i].(members := Without(gs[i].members, name)))
  }

  /** `usermod -G list name`: the groups named in `list` list `name`, the
      others do not; no other member changes. */
  function SetSupplementary(gs: seq<Group>, name: string, list: seq<string>): (r: seq<Group>)
    ensures |r| == |gs|
    ensures forall i :: 0 <= i < |gs| ==>
      r[i].name == gs[i].name &&
      (name in r[i].members <==> gs[i].name in list) &&
      (forall m :: m != name ==> (m in r[i].members <==> m in gs[i].members))
  {
    seq(|gs|, i requires 0 <= i < |gs| =>
      var g := gs[i];
      if g.name !in list then g.(members := Without(g.members, name))
      else if name in g.members then g
      else g.(members := g.members + [name]))
  }

  /** A home directory left over at /home/<name> is moved to
      /home/<name>-old; otherwise nothing moves. */
  function MoveHomeAside(s: Db, name: string): (r: Db)
    ensures Home(name) !in r.dirs
    ensures Home(name) in s.dirs ==> OldHome(name) in r.dirs
    ensures forall d :: d != Home(name) && d != OldHome(name) ==> (d in r.dirs <==> d in s.dirs)
    ensures r.passwd == s.passwd && r.groups == s.groups && r.passwords == s.passwords
    ensures Home(name) !in s.dirs ==> r == s
  {
    if Home(name) in s.dirs
    then s.(dirs := s.dirs - {Home(name)} + {OldHome(name)})
    else s
  }

  /** `useradd -u uid -m name`: a new last account entry and its home. */
  function Useradd(s: Db, name: string, uid: nat): (r: Db)
    ensures |r.passwd| == |s.passwd| + 1 && r.passwd[..|s.passwd|] == s.passwd
    ensures r.passwd[|s.passwd|] == Passwd(name, uid)
    ensures Home(name) in r.dirs && r.dirs - {Home(name)} == s.dirs - {Home(name)}
    ensures r.groups == s.groups && r.passwords == s.passwords
  {
    s.(passwd := s.passwd + [Passwd(name, uid)], dirs := s.dirs + {Home(name)})
  }

  /** `userdel -r name`: the account, its home, its password and its group
      memberships are gone; every other account is kept. */
  function Userdel(s: Db, name: string): (r: Db)
    ensures !UserExists(r.passwd, name)
    ensures forall m :: m != name ==> (UserExists(r.passwd, m) <==> UserExists(s.passwd, m))
    ensures Home(name) !in r.dirs && name !in r.passwords
    ensures forall g :: g in r.groups ==> name !in g.members
  {
    var gs := DropMember(s.groups, name);
    assert forall g :: g in gs ==> name !in g.members by {
      forall g | g in gs ensures name !in g.members {
        var i :| 0 <= i < |gs| && gs[i] == g;
      }
    }
    Db(RemoveAccount(s.passwd, name), gs, s.dirs - {Home(name)}, s.passwords - {name})
  }

  /** `userdel -r name` touches nothing of any other user: the other
      account entries, directories and passwords are kept, and every group
      keeps its name and position and all its other members. */
  lemma UserdelKeepsOthers(s: Db, name: string)
    ensures var r := Userdel(s, name);
      (forall p :: p in r.passwd <==> p in s.passwd && p.name != name) &&
      (forall d :: d != Home(name) ==> (d in r.dirs <==> d in s.dirs)) &&
      (forall m :: m != name ==> (m in r.passwords <==> m in s.passwords)) &&
      (forall m :: m != name && m in s.passwords ==> r.passwords[m] == s.passwords[m]) &&
      |r.groups| == |s.groups| &&
      (forall i :: 0 <= i < |s.groups| ==>
        r.groups[i].name == s.groups[i].name &&
        (forall m :: m != name ==> (m in r.groups[i].members <==> m in s.groups[i].members)))
  {
  }

  /** The group database with `kanousers` present: unchanged when it is
      there, otherwise with a new empty group appended (`groupadd`). */
  function WithKanoUsers(gs: seq<Group>): (r: seq<Group>)
    ensures GroupExists(r, KanoUsers)
    ensures GroupExists(gs, KanoUsers) ==> r == gs
    ensures forall g :: g in gs ==> g in r
    ensures GroupNames(r) == GroupNames(gs) + {KanoUsers}
  {
    if GroupExists(gs, KanoUsers) then gs
    else
      assert Group(KanoUsers, []) in gs + [Group(KanoUsers, [])];
      gs + [Group(KanoUsers, [])]
  }

  /** The state after one `create_user` call and the error it raised. */
  datatype Outcome = Outcome(state: Db, err: Option<UserError>)

  /** What `create_user` does to the machine, step by step, for the given
      command results: refuse an existing name; move a stale home aside;
      useradd with the next free uid; chpasswd, deleting the new account when
      it fails; make sure kanousers exists; usermod, whose status is ignored. */
  ghost function Created(s: Db, name: string, cmd: Commands): (o: Outcome)
    ensures o.err == Some(AlreadyExists) <==> UserExists(s.passwd, name)
    ensures o.err.None? <==>
      (!UserExists(s.passwd, name) && cmd.useradd && cmd.chpasswd &&
       (GroupExists(s.groups, KanoUsers) || cmd.groupadd))
  {
    if UserExists(s.passwd, name) then Outcome(s, Some(AlreadyExists))
    else
      var moved := MoveHomeAside(s, name);
      if !cmd.useradd then Outcome(moved, Some(UseraddFailed))
      else
        var added := Useradd(moved, name, NextUid(s.passwd));
        if !cmd.chpasswd then
          if cmd.userdel then Outcome(Userdel(added, name), Some(ChpasswdFailed))
          else Outcome(added, Some(DeleteFailed))
        else
          var withPassword := added.(passwords := added.passwords[name := DefaultPassword]);
          if !GroupExists(s.groups, KanoUsers) && !cmd.groupadd then
            Outcome(withPassword, Some(GroupaddFailed))
          else
            var grouped := withPassword.(groups := WithKanoUsers(s.groups));
            if cmd.usermod
            then Outcome(grouped.(groups := SetSupplementary(grouped.groups, name, DefaultGroups)), None)
            else Outcome(grouped, None)
  }

  /** What `delete_all_users` does to the machine when kanousers lists
      `members`: delete them in order and stop at the first userdel that
      fails (those named in `failing`). */
  ghost function DeletedAll(s: Db, members: seq<string>, failing: set<string>): (o: Outcome)
    ensures o.err.Some? ==> o.err == Some(DeleteFailed)
    decreases |members|
  {
    if |members| == 0 then Outcome(s, None)
    else if members[0] in failing then Outcome(s, Some(DeleteFailed))
    else DeletedAll(Userdel(s, members[0]), members[1..], failing)
  }

  // ---------------------------------------------------------------------
  // Properties of the command effects

  lemma {:induction false} NamesAppend(db: seq<Passwd>, p: Passwd)
    ensures Names(db + [p]) == Names(db) + {p.name}
  {
    assert forall q :: q in db + [p] <==> q in db || q == p;
  }

  /** Appending an account whose name is new keeps names unique. */
  lemma {:induction false} AppendKeepsUnique(db: seq<Passwd>, p: Passwd)
    requires UniqueNames(db) && p.name !in Names(db)
    ensures UniqueNames(db + [p])
  {
    if |db| > 0 {
      assert (db + [p])[1..] == db[1..] + [p];
      assert db == [db[0]] + db[1..];
      assert Names(db) == {db[0].name} + Names(db[1..]) by {
        assert forall q :: q in db <==> q == db[0] || q in db[1..];
      }
      AppendKeepsUnique(db[1..], p);
      NamesAppend(db[1..], p);
    }
  }

  /** Removing a name's entries keeps names unique. */
  lemma {:induction false} RemoveKeepsUnique(db: seq<Passwd>, name: string)
    requires UniqueNames(db)
    ensures UniqueNames(RemoveAccount(db, name))
  {
    if |db| > 0 {
      RemoveKeepsUnique(db[1..], name);
      var rest := RemoveAccount(db[1..], name);
      if db[0].name != name {
        assert RemoveAccount(db, name) == [db[0]] + rest;
        assert ([db[0]] + rest)[1..] == rest;
      }
    }
  }

  /** A user created on a database without duplicate names leaves a
      database without duplicate names: at most one account per name. */
  lemma CreatedKeepsUnique(s: Db, name: string, cmd: Commands)
    requires UniqueNames(s.passwd)
    ensures UniqueNames(Created(s, name, cmd).state.passwd)
  {
    if !UserExists(s.passwd, name) && cmd.useradd {
      var p := Passwd(name, NextUid(s.passwd));
      AppendKeepsUnique(s.passwd, p);
      if !cmd.chpasswd && cmd.userdel {
        RemoveKeepsUnique(s.passwd + [p], name);
      }
    }
  }

  /** Creation of an existing account raises before anything changes. */
  lemma CreateExistingRefused(s: Db, name: string, cmd: Commands)
    requires UserExists(s.passwd, name)
    ensures Created(s, name, cmd) == Outcome(s, Some(AlreadyExists))
  {
  }

  /** Whenever creation gets past the existence check, a directory found at
      /home/<name> survives as /home/<name>-old. */
  lemma CreatePreservesOldHome(s: Db, name: string, cmd: Commands)
    requires !UserExists(s.passwd, name) && Home(name) in s.dirs
    ensures OldHome(name) in Created(s, name, cmd).state.dirs
  {
    assert OldHome(name) != Home(name) by {
      assert |OldHome(name)| == |Home(name)| + 4;
    }
  }

  /** A successful creation leaves exactly the new account added, with the
      uid `get_next_uid` picks, its home, the default password, and a
      `kanousers` group (membership of it depends on usermod, see
      `UsermodJoinsKanoUsers`). */
  lemma CreateSucceeds(s: Db, name: string, cmd: Commands)
    requires Created(s, name, cmd).err.None?
    ensures var r := Created(s, name, cmd).state;
      !UserExists(s.passwd, name) &&
      r.passwd == s.passwd + [Passwd(name, NextUid(s.passwd))] &&
      UserExists(r.passwd, name) && Home(name) in r.dirs &&
      r.passwords == s.passwords[name := DefaultPassword] &&
      GroupExists(r.groups, KanoUsers)
  {
    var gs := WithKanoUsers(s.groups);
    var r := Created(s, name, cmd).state;
    assert r.groups == (if cmd.usermod then SetSupplementary(gs, name, DefaultGroups) else gs);
    NamesAppend(s.passwd, Passwd(name, NextUid(s.passwd)));
    if cmd.usermod {
      SupplementaryKeepsGroups(gs, name, DefaultGroups);
    }
  }

  /** `usermod -G` neither creates nor removes a group. */
  lemma SupplementaryKeepsGroups(gs: seq<Group>, name: string, list: seq<string>)
    ensures GroupNames(SetSupplementary(gs, name, list)) == GroupNames(gs)
  {
    var r := SetSupplementary(gs, name, list);
    forall n | n in GroupNames(gs) ensures n in GroupNames(r) {
      var i :| 0 <= i < |gs| && gs[i].name == n;
      assert r[i] in r;
    }
    forall n | n in GroupNames(r) ensures n in GroupNames(gs) {
      var i :| 0 <= i < |r| && r[i].name == n;
      assert gs[i] in gs;
    }
  }


  /** Creating the same name twice: the second call raises and changes
      nothing, so exactly one account of that name remains. */
  lemma CreateTwiceRefused(s: Db, name: string, cmd: Commands, again: Commands)
    requires UniqueNames(s.passwd) && Created(s, name, cmd).err.None?
    ensures var r := Created(s, name, cmd).state;
      Created(r, name, again) == Outcome(r, Some(AlreadyExists)) &&
      UserExists(r.passwd, name) && UniqueNames(r.passwd)
  {
    CreateSucceeds(s, name, cmd);
    CreatedKeepsUnique(s, name, cmd);
  }

  /** When the suffix search runs out and hands back a taken name,
      creation refuses it: a colliding name is never provisioned. */
  lemma ExhaustedNameRefused(s: Db, base: string, r: string, cmd: Commands)
    requires ResolvesUnique(s.passwd, base, r) && UserExists(s.passwd, r)
    ensures r == base + NatToString(MaxSuffix)
    ensures forall k :: 0 <= k < MaxSuffix ==> UserExists(s.passwd, Candidate(base, k))
    ensures Created(s, r, cmd) == Outcome(s, Some(AlreadyExists))
  {
  }

  /** A useradd failure raises without touching accounts, groups or
      passwords: only the stale home has moved. */
  lemma CreateUseraddFails(s: Db, name: string, cmd: Commands)
    requires !UserExists(s.passwd, name) && !cmd.useradd
    ensures Created(s, name, cmd) == Outcome(MoveHomeAside(s, name), Some(UseraddFailed))
  {
  }

  /** A groupadd failure raises after the account and its password are in
      place; nothing is rolled back. */
  lemma CreateGroupaddFails(s: Db, name: string, cmd: Commands)
    requires !UserExists(s.passwd, name) && cmd.useradd && cmd.chpasswd
    requires !GroupExists(s.groups, KanoUsers) && !cmd.groupadd
    ensures var o := Created(s, name, cmd);
      o.err == Some(GroupaddFailed) &&
      o.state.passwd == s.passwd + [Passwd(name, NextUid(s.passwd))] &&
      UserExists(o.state.passwd, name) &&
      o.state.passwords == s.passwords[name := DefaultPassword] &&
      o.state.groups == s.groups && !GroupExists(o.state.groups, KanoUsers)
  {
    var o := Created(s, name, cmd);
    NamesAppend(s.passwd, Passwd(name, NextUid(s.passwd)));
    assert o.state.passwd == s.passwd + [Passwd(name, NextUid(s.passwd))];
  }

  /** A chpasswd failure whose compensating delete fails too raises the
      delete's error, and the new account stays without a password. */
  lemma CreateRollbackFails(s: Db, name: string, cmd: Commands)
    requires !UserExists(s.passwd, name) && cmd.useradd && !cmd.chpasswd && !cmd.userdel
    ensures var o := Created(s, name, cmd);
      o.err == Some(DeleteFailed) &&
      o.state.passwd == s.passwd + [Passwd(name, NextUid(s.passwd))] &&
      UserExists(o.state.passwd, name) && Home(name) in o.state.dirs &&
      o.state.passwords == s.passwords && o.state.groups == s.groups
  {
    NamesAppend(s.passwd, Passwd(name, NextUid(s.passwd)));
  }

  /** The usermod exit status is ignored: the raised error, the accounts,
      the directories and the passwords do not depend on it. */
  lemma UsermodIgnored(s: Db, name: string, cmd: Commands)
    ensures var o := Created(s, name, cmd);
      var o' := Created(s, name, cmd.(usermod := !cmd.usermod));
      o.err == o'.err && o.state.passwd == o'.state.passwd &&
      o.state.dirs == o'.state.dirs && o.state.passwords == o'.state.passwords
  {
  }

  /** When usermod succeeds, the new user is a member of `kanousers`. */
  lemma UsermodJoinsKanoUsers(s: Db, name: string, cmd: Commands)
    requires Created(s, name, cmd).err.None? && cmd.usermod
    ensures exists g :: (g in Created(s, name, cmd).state.groups &&
      g.name == KanoUsers && name in g.members)
  {
    assert Created(s, name, cmd).state.groups ==
      SetSupplementary(WithKanoUsers(s.groups), name, DefaultGroups);
    JoinsListedGroup(WithKanoUsers(s.groups), name);
  }

  /** `usermod -G` with the default list puts the user in an existing
      `kanousers` group. */
  lemma JoinsListedGroup(gs: seq<Group>, name: string)
    requires GroupExists(gs, KanoUsers)
    ensures exists g :: (g in SetSupplementary(gs, name, DefaultGroups) &&
      g.name == KanoUsers && name in g.members)
  {
    var joined := SetSupplementary(gs, name, DefaultGroups);
    assert KanoUsers in GroupNames(gs);
    var g :| g in gs && g.name == KanoUsers;
    var i :| 0 <= i < |gs| && gs[i] == g;
    assert DefaultGroups[11] == KanoUsers;
    assert joined[i].name == KanoUsers && name in joined[i].members;
    assert joined[i] in joined;
  }

  /** A chpasswd failure whose compensating delete succeeds leaves no such
      account, the account database as before, and no group listing the name. */
  lemma {:induction false} CreateRollsBack(s: Db, name: string, cmd: Commands)
    requires !UserExists(s.passwd, name) && cmd.useradd && !cmd.chpasswd && cmd.userdel
    ensures var o := Created(s, name, cmd);
      o.err == Some(ChpasswdFailed) && !UserExists(o.state.passwd, name) &&
      o.state.passwd == s.passwd &&
      Home(name) !in o.state.dirs && name !in o.state.passwords &&
      forall g :: g in o.state.groups ==> name !in g.members
  {
    var p := Passwd(name, NextUid(s.passwd));
    var db := s.passwd + [p];
    assert RemoveAccount(db, name) == s.passwd by {
      RemoveAppendNew(s.passwd, p);
    }
  }

  /** Removing the name of a just-appended account undoes the append. */
  lemma {:induction false} RemoveAppendNew(db: seq<Passwd>, p: Passwd)
    requires p.name !in Names(db)
    ensures RemoveAccount(db + [p], p.name) == db
  {
    if |db| == 0 {
      assert db + [p] == [p];
      assert RemoveAccount([p], p.name) == RemoveAccount([p][1..], p.name);
    } else {
      assert (db + [p])[1..] == db[1..] + [p];
      assert db == [db[0]] + db[1..];
      assert p.name !in Names(db[1..]) by {
        assert forall q :: q in db[1..] ==> q in db;
      }
      RemoveAppendNew(db[1..], p);
      assert db[0] in db;
    }
  }

  /** After `delete_all_users` completes without error, none of the listed
      members is an account any more, and nobody else was removed. */
  lemma {:induction false} DeletedAllRemovesMembers(s: Db, members: seq<string>, failing: set<string>)
    requires DeletedAll(s, members, failing).err.None?
    ensures forall m :: m in members ==> !UserExists(DeletedAll(s, members, failing).state.passwd, m)
    ensures forall m :: m !in members ==>
      (UserExists(DeletedAll(s, members, failing).state.passwd, m) <==> UserExists(s.passwd, m))
    decreases |members|
  {
    if |members| > 0 {
      var next := Userdel(s, members[0]);
      DeletedAllRemovesMembers(next, members[1..], failing);
      assert members == [members[0]] + members[1..];
      DeletedAllKeepsAbsent(next, members[1..], failing, members[0]);
    }
  }

  /** Deleting accounts never brings an absent account back. */
  lemma {:induction false} DeletedAllKeepsAbsent(s: Db, members: seq<string>, failing: set<string>, m: string)
    requires !UserExists(s.passwd, m)
    ensures !UserExists(DeletedAll(s, members, failing).state.passwd, m)
    decreases |members|
  {
    if |members| > 0 && members[0] !in failing {
      DeletedAllKeepsAbsent(Userdel(s, members[0]), members[1..], failing, m);
    }
  }

  /** `delete_all_users` raises exactly when one of the members, before any
      earlier failure, is refused by userdel — that is, when any is. */
  lemma {:induction false} DeletedAllFailsIff(s: Db, members: seq<string>, failing: set<string>)
    ensures DeletedAll(s, members, failing).err.None? <==>
      forall i :: 0 <= i < |members| ==> members[i] !in failing
    ensures DeletedAll(s, members, failing).err.Some? ==>
      DeletedAll(s, members, failing).err == Some(DeleteFailed)
    decreases |members|
  {
    if |members| > 0 && members[0] !in failing {
      DeletedAllFailsIff(Userdel(s, members[0]), members[1..], failing);
      assert forall i :: 1 <= i < |members| ==> members[i] == members[1..][i - 1];
    }
  }

  /** `delete_all_users` keeps the database free of duplicate names. */
  lemma {:induction false} DeletedAllKeepsUnique(s: Db, members: seq<string>, failing: set<string>)
    requires UniqueNames(s.passwd)
    ensures UniqueNames(DeletedAll(s, members, failing).state.passwd)
    decreases |members|
  {
    if |members| > 0 && members[0] !in failing {
      RemoveKeepsUnique(s.passwd, members[0]);
      DeletedAllKeepsUnique(Userdel(s, members[0]), members[1..], failing);
    }
  }

  /** The state after `userdel` of each name of `names`, in order. */
  ghost function UserdelAll(s: Db, names: seq<string>): Db
    decreases |names|
  {
    if |names| == 0 then s else UserdelAll(Userdel(s, names[0]), names[1..])
  }

  /** When the delete of member `k` is the first to fail, `delete_all_users`
      raises with exactly the members before `k` deleted: the failing one and
      those after it are untouched. */
  lemma {:induction false} DeletedAllStopsAt(s: Db, members: seq<string>, failing: set<string>, k: nat)
    requires k < |members| && members[k] in failing
    requires forall j :: 0 <= j < k ==> members[j] !in failing
    ensures DeletedAll(s, members, failing) == Outcome(UserdelAll(s, members[..k]), Some(DeleteFailed))
    decreases k
  {
    if k > 0 {
      assert members[1..][..k - 1] == members[..k][1..];
      DeletedAllStopsAt(Userdel(s, members[0]), members[1..], failing, k - 1);
    }
  }

  // ---------------------------------------------------------------------
  // The machine

  /** The machine's account state, changed in place by the commands the
      account operations run, plus the services started on it. */
  class Host {
    var passwd: seq<Passwd>
    var groups: seq<Group>
    var dirs: set<string>
    var passwords: map<string, string>
    var services: seq<string>

    ghost function State(): Db
      reads this
    {
      Db(passwd, groups, dirs, passwords)
    }

    /** The account database never holds two entries of one name. */
    ghost predicate Valid()
      reads this
    {
      UniqueNames(passwd)
    }

    constructor (passwd: seq<Passwd>, groups: seq<Group>, dirs: set<string>,
                 passwords: map<string, string>)
      requires UniqueNames(passwd)
      ensures Valid()
      ensures State() == Db(passwd, groups, dirs, passwords) && services == []
    {
      this.passwd := passwd;
      this.groups := groups;
      this.dirs := dirs;
      this.passwords := passwords;
      this.services := [];
    }

    /** `delete_user`: kill the user's processes (not modelled; its result
        is ignored), then `userdel -r`; raise when userdel fails. */
    method DeleteUser(name: string, userdelOk: bool) returns (err: Option<UserError>)
      requires Valid()
      modifies this
      ensures Valid()
      ensures err.None? <==> userdelOk
      ensures err.Some? ==> err == Some(DeleteFailed)
      ensures State() == if userdelOk then Userdel(old(State()), name) else old(State())
      ensures services == old(services)
    {
      if !userdelOk {
        return Some(DeleteFailed);
      }
      RemoveKeepsUnique(passwd, name);
      passwd := RemoveAccount(passwd, name);
      groups := DropMember(groups, name);
      dirs := dirs - {Home(name)};
      passwords := passwords - {name};
      err := None;
    }

    /** `create_user`, running each command with the exit status given in
        `cmd` (`cmd.userdel` is the status of the compensating delete). */
    method CreateUser(name: string, cmd: Commands) returns (err: Option<UserError>)
      requires Valid()
      modifies this
      ensures Valid()
      ensures Outcome(State(), err) == Created(old(State()), name, cmd)
      ensures services == old(services)
    {
      ghost var s := State();
      if UserExists(passwd, name) {
        return Some(AlreadyExists);
      }
      if Home(name) in dirs {
        dirs := dirs - {Home(name)} + {OldHome(name)};
      }
      var uid := GetNextUid(passwd);
      NextUidUnique(passwd, uid);
      ghost var moved := MoveHomeAside(s, name);
      assert State() == moved;
      if !cmd.useradd {
        assert Created(s, name, cmd) == Outcome(moved, Some(UseraddFailed));
        return Some(UseraddFailed);
      }
      AppendKeepsUnique(passwd, Passwd(name, uid));
      passwd := passwd + [Passwd(name, uid)];
      dirs := dirs + {Home(name)};
      ghost var added := Useradd(moved, name, uid);
      assert State() == added;
      if !cmd.chpasswd {
        var deleted := DeleteUser(name, cmd.userdel);
        if deleted.Some? {
          assert Created(s, name, cmd) == Outcome(added, Some(DeleteFailed));
          return deleted;
        }
        assert Created(s, name, cmd) == Outcome(Userdel(added, name), Some(ChpasswdFailed));
        return Some(ChpasswdFailed);
      }
      passwords := passwords[name := DefaultPassword];
      assert State() == added.(passwords := added.passwords[name := DefaultPassword]);
      assert groups == s.groups;
      if !GroupExists(groups, KanoUsers) {
        if !cmd.groupadd {
          return Some(GroupaddFailed);
        }
        groups := groups + [Group(KanoUsers, [])];
      }
      if cmd.usermod {
        groups := SetSupplementary(groups, name, DefaultGroups);
      }
      err := None;
    }

    /** `delete_all_users`: when kanousers exists, delete each of its
        members in turn; the first failing delete raises and stops the rest. */
    method DeleteAllUsers(failing: set<string>) returns (err: Option<UserError>)
      requires Valid()
      modifies this
      ensures Valid()
      ensures !old(GroupExists(groups, KanoUsers)) ==> err.None? && State() == old(State())
      ensures old(GroupExists(groups, KanoUsers)) ==>
        Outcome(State(), err) == DeletedAll(old(State()), old(GetGroupMembers(groups, KanoUsers)), failing)
      ensures services == old(services)
    {
      if !GroupExists(groups, KanoUsers) {
        return None;
      }
      var members := GetGroupMembers(groups, KanoUsers);
      ghost var s := State();
      var i := 0;
      while i < |members|
        invariant 0 <= i <= |members|
        invariant Valid() && services == old(services)
        invariant DeletedAll(State(), members[i..], failing) == DeletedAll(s, members, failing)
      {
        ghost var before := State();
        assert DeletedAll(before, members[i..], failing) ==
          if members[i] in failing then Outcome(before, Some(DeleteFailed))
          else DeletedAll(Userdel(before, members[i]), members[i + 1..], failing)
        by {
          assert members[i..][0] == members[i] && members[i..][1..] == members[i + 1..];
        }
        var e := DeleteUser(members[i], members[i] !in failing);
        if e.Some? {
          return e;
        }
        i := i + 1;
      }
      err := None;
    }
  }
}
