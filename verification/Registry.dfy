/** The player registry (Server/GameServer/PlayerManager.cpp): three tables over the same
    player objects, by player name, by object id and by session. */
module Registry {
  import opened Wrappers
  import opened Client
  import opened Rooms

  datatype Account = Account(name: string, session: SessionId)

  /** The registry as values; a table entry names a player by its object id. */
  datatype Accounts = Accounts(byName: map<string, Id>, byObject: map<Id, Account>, bySession: map<SessionId, Id>,
                               nextId: Id) {
    /** The name table and the object table hold the same players, and a session entry always
        points at a registered player of that session. */
    ghost predicate Consistent() {
      && (forall n :: n in byName ==> byName[n] in byObject && byObject[byName[n]].name == n)
      && (forall i :: i in byObject ==> byObject[i].name in byName && byName[byObject[i].name] == i && i < nextId)
      && (forall s :: s in bySession ==> bySession[s] in byObject && byObject[bySession[s]].session == s)
    }

    /** Every registered player is also found by its session. */
    ghost predicate OneToOne() {
      Consistent() && forall i :: i in byObject ==> Reachable(i)
    }

    ghost predicate Reachable(i: Id)
      requires i in byObject
    {
      byObject[i].session in bySession && bySession[byObject[i].session] == i
    }

    /** PlayerManager::Login with a fresh object id; nothing happens for an empty or taken name. */
    function Login(session: SessionId, name: string): Accounts {
      if name == "" || name in byName then this
      else
        Accounts(byName[name := nextId], byObject[nextId := Account(name, session)], bySession[session := nextId],
                 nextId + 1)
    }

    /** PlayerManager::Logout: whoever the session table names is taken out of all tables. */
    function Logout(session: SessionId): Accounts
      requires session in bySession ==> bySession[session] in byObject
    {
      if session !in bySession then this else Drop(bySession[session])
    }

    /** PlayerManager::Unregister: the player's name and id go, and the entry of its connection,
        whoever that entry names. */
    function Drop(i: Id): Accounts
      requires i in byObject
    {
      Accounts(byName - {byObject[i].name}, byObject - {i}, bySession - {byObject[i].session}, nextId)
    }
  }

  datatype Request = LoginRequest(session: SessionId, name: string) | Disconnected(session: SessionId)

  ghost function Serve(a: Accounts, r: Request): Accounts
    requires a.Consistent()
  {
    match r
    case LoginRequest(session, name) => a.Login(session, name)
    case Disconnected(session) => a.Logout(session)
  }

  const NOBODY := Accounts(map[], map[], map[], 1)

  /** The state after the first `n` requests of a run. */
  ghost function After(start: Accounts, requests: seq<Request>, n: nat): (a: Accounts)
    requires start.Consistent() && n <= |requests|
    ensures a.Consistent()
  {
    if n == 0 then start else
      var before := After(start, requests, n - 1);
      ServeKeepsConsistent(before, requests[n - 1]);
      Serve(before, requests[n - 1])
  }

  lemma ServeKeepsConsistent(a: Accounts, r: Request)
    requires a.Consistent()
    ensures Serve(a, r).Consistent()
  {}

  lemma LoginEntries(a: Accounts, session: SessionId, name: string)
    requires a.Consistent() && name != "" && name !in a.byName
    ensures a.Login(session, name) ==
            Accounts(a.byName[name := a.nextId], a.byObject[a.nextId := Account(name, session)],
                     a.bySession[session := a.nextId], a.nextId + 1)
    ensures a.Login(session, name).Consistent()
  {
    ServeKeepsConsistent(a, LoginRequest(session, name));
  }

  lemma NextIdKeepsConsistent(a: Accounts)
    requires a.Consistent()
    ensures var b := a.(nextId := a.nextId + 1); b.Consistent() && (a.OneToOne() ==> b.OneToOne())
  {}

  lemma DropKeepsConsistent(a: Accounts, i: Id)
    requires a.Consistent() && i in a.byObject
    ensures a.Drop(i).Consistent()
  {}

  /** A login that the registry accepts although its session already has a player. */
  ghost predicate LogsInAgain(a: Accounts, r: Request) {
    r.LoginRequest? && r.name != "" && r.name !in a.byName && r.session in a.bySession
  }

  /** One request leaves the three tables in bijection exactly when they were and it is not such
      a login: a lost bijection never comes back. */
  lemma ServeOneToOne(a: Accounts, r: Request)
    requires a.Consistent()
    ensures Serve(a, r).OneToOne() <==> a.OneToOne() && !LogsInAgain(a, r)
  {
    var b := Serve(a, r);
    if LogsInAgain(a, r) {
      var first := a.bySession[r.session];
      assert first in b.byObject && !b.Reachable(first);
    } else if !a.OneToOne() {
      var p :| p in a.byObject && !a.Reachable(p);
      StrandedStep(a, p, r);
    } else {
      FirstLoginKeepsOneToOne(a, r);
    }
  }

  lemma FirstLoginKeepsOneToOne(a: Accounts, r: Request)
    requires a.OneToOne() && !LogsInAgain(a, r)
    ensures Serve(a, r).OneToOne()
  {
    var b := Serve(a, r);
    ServeKeepsConsistent(a, r);
    hide Accounts.Consistent;
    forall i | i in b.byObject ensures b.Reachable(i) {
      assert i in a.byObject ==> a.Reachable(i);
    }
  }

  ghost predicate FirstLogin(requests: seq<Request>, i: nat)
    requires i < |requests|
  {
    !LogsInAgain(After(NOBODY, requests, i), requests[i])
  }

  /** In every run: the tables are in bijection exactly as long as no session has logged in
      again before logging out. */
  lemma {:induction false} RunOneToOne(requests: seq<Request>, n: nat)
    requires n <= |requests|
    ensures After(NOBODY, requests, n).OneToOne() <==> forall i :: 0 <= i < n ==> FirstLogin(requests, i)
  {
    if n == 0 {
      assert NOBODY.OneToOne();
      hide *;
    } else {
      RunOneToOne(requests, n - 1);
      OneMoreRequest(requests, n);
      hide *;
    }
  }

  lemma OneMoreRequest(requests: seq<Request>, n: nat)
    requires 0 < n <= |requests|
    ensures After(NOBODY, requests, n).OneToOne() <==>
              After(NOBODY, requests, n - 1).OneToOne() && FirstLogin(requests, n - 1)
    ensures (forall i :: 0 <= i < n ==> FirstLogin(requests, i)) <==>
            (forall i :: 0 <= i < n - 1 ==> FirstLogin(requests, i)) && FirstLogin(requests, n - 1)
  {
    var before, r := After(NOBODY, requests, n - 1), requests[n - 1];
    ServeOneToOne(before, r);
    assert After(NOBODY, requests, n) == Serve(before, r);
    hide Accounts.OneToOne, Accounts.Consistent, Serve, After, LogsInAgain;
    assert FirstLogin(requests, n - 1) <==> !LogsInAgain(before, r);
    hide *;
  }

  /** After a second login on one session the first player is stranded: in every continuation it
      stays registered, no disconnect removes it, and its name is refused to everybody. */
  lemma {:induction false} StrandedPlayerStays(start: Accounts, p: Id, requests: seq<Request>, n: nat)
    requires start.Consistent() && p in start.byObject && !start.Reachable(p) && n <= |requests|
    ensures var a := After(start, requests, n);
            && p in a.byObject && a.byObject[p] == start.byObject[p] && !a.Reachable(p)
            && (forall s :: a.Login(s, start.byObject[p].name) == a)
  {
    if n > 0 {
      StrandedPlayerStays(start, p, requests, n - 1);
      var a, r := After(start, requests, n - 1), requests[n - 1];
      StrandedStep(a, p, r);
    }
    assert After(start, requests, n).byObject[p].name in After(start, requests, n).byName;
  }

  lemma StrandedStep(a: Accounts, p: Id, r: Request)
    requires a.Consistent() && p in a.byObject && !a.Reachable(p)
    ensures var b := Serve(a, r); p in b.byObject && b.byObject[p] == a.byObject[p] && !b.Reachable(p)
  {}

  /** A table leads to the objects that its entries name. */
  ghost predicate Follows<K>(table: map<K, Creature>, ids: map<K, Id>, objects: map<Id, Creature>) {
    && table.Keys == ids.Keys
    && (forall k :: k in table ==> ids[k] in objects && table[k] == objects[ids[k]])
  }

  lemma FollowsAdd<K>(table: map<K, Creature>, ids: map<K, Id>, objects: map<Id, Creature>, k: K, i: Id, c: Creature)
    requires Follows(table, ids, objects) && i !in objects
    ensures table.Keys == ids.Keys && Follows(table[k := c], ids[k := i], objects[i := c])
  {}

  lemma NamesWithout(table: map<string, Creature>, objects: map<Id, Creature>, a: Accounts, i: Id)
    requires a.Consistent() && i in a.byObject && Follows(table, a.byName, objects)
    ensures var name := a.byObject[i].name; Follows(table - {name}, a.byName - {name}, objects - {i})
  {}

  lemma SessionsWithout(table: map<SessionId, Creature>, objects: map<Id, Creature>, a: Accounts, i: Id)
    requires a.Consistent() && i in a.byObject && Follows(table, a.bySession, objects)
    ensures var s := a.byObject[i].session; Follows(table - {s}, a.bySession - {s}, objects - {i})
  {}

  /** The ids in use are among those handed out, which are all below the next one. */
  ghost predicate Covers(issued: set<Id>, used: set<Id>, next: Id) {
    used <= issued && forall i :: i in issued ==> i < next
  }

  lemma CoversNext(issued: set<Id>, used: set<Id>, next: Id)
    requires Covers(issued, used, next)
    ensures next !in issued && Covers(issued + {next}, used, next + 1)
  {}

  lemma CoversMore(issued: set<Id>, objects: map<Id, Creature>, c: Creature, next: Id)
    requires Covers(issued, objects.Keys, next)
    ensures next !in objects && Covers(issued + {next}, objects[next := c].Keys, next + 1)
  {}

  lemma CoversLess(issued: set<Id>, objects: map<Id, Creature>, i: Id, next: Id)
    requires Covers(issued, objects.Keys, next)
    ensures Covers(issued, (objects - {i}).Keys, next)
  {}

  /** The three hash tables of PlayerManager over shared player objects. */
  class PlayerManager {
    var byName: map<string, Creature>
    var byObject: map<Id, Creature>
    var bySession: map<SessionId, Creature>
    var nextId: Id
    /** What the tables say, as values. */
    ghost var accounts: Accounts
    /** The ids that have been handed out, to players and monsters. */
    ghost var issued: set<Id>

    /** The tables have the entries of `accounts` and point at shared objects. */
    ghost predicate Valid()
      reads this, byObject.Values`session
    {
      && accounts.Consistent()
      && Tables()
      && nextId == accounts.nextId && Covers(issued, byObject.Keys, nextId)
    }

    ghost predicate Tables()
      reads this, byObject.Values`session
    {
      && Follows(byName, accounts.byName, byObject) && Follows(bySession, accounts.bySession, byObject)
      && byObject.Keys == accounts.byObject.Keys
      && (forall i :: i in byObject ==> Carries(byObject[i], i, accounts.byObject[i]))
    }

    lemma Parts()
      requires Valid()
      ensures accounts.Consistent() && Tables() && nextId == accounts.nextId && nextId !in issued && nextId !in byObject
      ensures Covers(issued, byObject.Keys, nextId) && byName.Keys == accounts.byName.Keys
    {}

    lemma ValidAgain()
      requires accounts.Consistent() && Tables() && nextId == accounts.nextId && Covers(issued, byObject.Keys, nextId)
      ensures Valid()
    {}

    constructor ()
      ensures Valid() && accounts == NOBODY && byObject == map[] && bySession == map[] && nextId == 1
    {
      byName, byObject, bySession, nextId := map[], map[], map[], 1;
      accounts, issued := NOBODY, {};
    }

    /** ObjectIdGenerator: ids are shared by players and monsters and never reused. */
    method GenerateId() returns (id: Id)
      requires Valid()
      modifies this
      ensures Valid() && id !in old(issued) && issued == old(issued) + {id}
      ensures id == old(nextId) && nextId == id + 1
      ensures byName == old(byName) && byObject == old(byObject) && bySession == old(bySession)
      ensures accounts == old(accounts).(nextId := id + 1) && (old(accounts.OneToOne()) ==> accounts.OneToOne())
    {
      hide *;
      Parts();
      NextIdKeepsConsistent(accounts);
      id := nextId;
      nextId := nextId + 1;
      CoversNext(issued, byObject.Keys, id);
      accounts, issued := accounts.(nextId := nextId), issued + {id};
      SameTables();
      ValidAgain();
    }

    twostate lemma SameTables()
      requires old(Tables()) && byName == old(byName) && byObject == old(byObject) && bySession == old(bySession)
      requires accounts == old(accounts).(nextId := accounts.nextId)
      requires forall i :: i in byObject ==> byObject[i].session == old(byObject[i].session)
      ensures Tables()
    {
      assert forall i :: i in byObject ==> old(Carries(byObject[i], i, accounts.byObject[i]));
    }

    /** Register: refused, without any change, if the name is taken. */
    method Register(player: Creature) returns (ok: bool)
      requires Valid() && player.isPlayer && player.session.Some? && player.id == nextId && player.playerId != ""
      modifies this
      ensures Valid()
      ensures ok <==> player.playerId !in old(byName)
      ensures !ok ==>
                && accounts == old(accounts)
                && byName == old(byName) && byObject == old(byObject) && bySession == old(bySession)
      ensures ok ==> accounts == old(accounts).Login(player.session.value, player.playerId)
                     && byObject == old(byObject)[player.id := player]
                     && bySession == old(bySession)[player.session.value := player]
      ensures nextId == if ok then old(nextId) + 1 else old(nextId)
      ensures issued == if ok then old(issued) + {player.id} else old(issued)
    {
      if player.playerId in byName {
        return false;
      }
      hide *;
      accounts := accounts.Login(player.session.value, player.playerId);
      byName := byName[player.playerId := player];
      byObject := byObject[player.id := player];
      bySession := bySession[player.session.value := player];
      nextId := nextId + 1;
      issued := issued + {player.id};
      Entered(player);
      return true;
    }

    twostate lemma Entered(new player: Creature)
      requires old(Valid()) && player.isPlayer && player.session.Some? && player.id == old(nextId)
      requires player.playerId != "" && player.playerId !in old(byName)
      requires byName == old(byName)[player.playerId := player] && byObject == old(byObject)[player.id := player]
      requires bySession == old(bySession)[player.session.value := player]
      requires accounts == old(accounts).Login(player.session.value, player.playerId)
      requires nextId == old(nextId) + 1 && issued == old(issued) + {player.id}
      requires forall i :: i in old(byObject) ==> byObject[i].session == old(byObject[i].session)
      ensures Valid()
    {
      hide Accounts.Consistent, Follows, Covers, Accounts.Login;
      CoversMore(old(issued), old(byObject), player, old(nextId));
      FollowsAdd(old(byName), old(accounts).byName, old(byObject), player.playerId, player.id, player);
      FollowsAdd(old(bySession), old(accounts).bySession, old(byObject), player.session.value, player.id, player);
      LoginEntries(old(accounts), player.session.value, player.playerId);
      OthersCarry(player);
      hide *;
    }

    twostate lemma OthersCarry(new player: Creature)
      requires old(Tables()) && byObject == old(byObject)[player.id := player]
      requires forall i :: i in accounts.byObject && i != player.id ==>
                 i in old(accounts).byObject && accounts.byObject[i] == old(accounts).byObject[i]
      requires player.id in accounts.byObject && Carries(player, player.id, accounts.byObject[player.id])
      requires forall i :: i in old(byObject) ==> byObject[i].session == old(byObject[i].session)
      requires byObject.Keys == accounts.byObject.Keys
      ensures forall i :: i in byObject ==> Carries(byObject[i], i, accounts.byObject[i])
    {
      assert forall i :: i in old(byObject) ==> old(Carries(byObject[i], i, accounts.byObject[i]));
    }

    /** A new player object with a fresh id, unless the name is empty or taken. */
    method Login(session: SessionId, name: string) returns (player: Creature?)
      requires Valid()
      modifies this
      ensures Valid() && accounts == old(accounts).Login(session, name)
      ensures player == null <==> name == "" || name in old(byName)
      ensures player == null ==> byObject == old(byObject) && bySession == old(bySession) && nextId == old(nextId)
      ensures player != null ==>
                && fresh(player) && player.id !in old(issued) && player.id == old(nextId) && player.isPlayer
                && player.session == Some(session)
                && player.state == Lobby && player.roomId == 0 && player.lastMoveTick == 0
                && player.lastAttackTick == 0 && !player.hasDied
                && byObject == old(byObject)[player.id := player] && bySession == old(bySession)[session := player]
                && nextId == old(nextId) + 1
    {
      if name == "" || name in byName {
        return null;
      }
      var p := new Creature.Player(nextId, name, session);
      var ok := Register(p);
      return p;
    }

    method FindBySession(session: SessionId) returns (player: Creature?)
      requires Valid()
      ensures player == if session in bySession then bySession[session] else null
    {
      if session in bySession {
        return bySession[session];
      }
      return null;
    }

    /** A registered player leaves the name and the id table, takes the entry of its connection
        with it, whoever that entry names, and loses its connection. */
    method Unregister(player: Creature)
      requires Valid() && player.id in byObject && byObject[player.id] == player
      modifies this, player`session, player`state
      ensures Valid() && accounts == old(accounts).Drop(player.id)
      ensures byName == old(byName) - {player.playerId} && byObject == old(byObject) - {player.id}
      ensures old(player.session).Some? && bySession == old(bySession) - {old(player.session).value}
      ensures nextId == old(nextId)
      ensures player.session == None && player.state == Offline
    {
      hide *;
      Registered(player);
      accounts := accounts.Drop(player.id);
      byName := byName - {player.playerId};
      byObject := byObject - {player.id};
      if player.session.Some? {
        bySession := bySession - {player.session.value};
      }
      player.session := None;
      player.state := Offline;
      Left(player);
    }

    lemma Registered(player: Creature)
      requires Valid() && player.id in byObject && byObject[player.id] == player
      ensures player.session.Some? && player.id in accounts.byObject
    {
      assert Carries(player, player.id, accounts.byObject[player.id]);
    }

    twostate lemma Left(player: Creature)
      requires old(Valid()) && player.id in old(byObject) && old(byObject)[player.id] == player
      requires old(player.session).Some?
      requires byName == old(byName) - {player.playerId} && byObject == old(byObject) - {player.id}
      requires bySession == old(bySession) - {old(player.session).value}
      requires accounts == old(accounts).Drop(player.id) && nextId == old(nextId) && issued == old(issued)
      requires forall i :: i in byObject && byObject[i] != player ==> byObject[i].session == old(byObject[i].session)
      ensures Valid()
    {
      assert old(Carries(player, player.id, accounts.byObject[player.id]));
      hide Accounts.Consistent, Follows, Covers;
      NamesWithout(old(byName), old(byObject), old(accounts), player.id);
      SessionsWithout(old(bySession), old(byObject), old(accounts), player.id);
      DropKeepsConsistent(old(accounts), player.id);
      CoversLess(issued, old(byObject), player.id, nextId);
      assert forall i :: i in old(byObject) ==> old(Carries(byObject[i], i, accounts.byObject[i]));
    }
  }

  /** A player object agrees with its account. */
  ghost predicate Carries(c: Creature, i: Id, account: Account)
    reads c`session
  {
    c.id == i && c.isPlayer && c.playerId == account.name && c.session == Some(account.session)
  }
}
