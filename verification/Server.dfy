/** The packet handlers (ClientPacketHandler.cpp, RoomManager.cpp, PlayerManager.cpp) over the
    registry, the room and the connections. Each handler refines one step of the game machine,
    so the theorems about runs hold of the objects. */
module Server {
  import opened Wrappers
  import opened Zones
  import opened MapCollisions
  import opened Movement
  import opened Client
  import opened World
  import opened Runs
  import opened Registry
  import opened Rooms

  lemma UpdateTwice<K, V>(m: map<K, V>, k: K, a: V, b: V)
    ensures m[k := a][k := b] == m[k := b]
  {}

  /** A row of the spawn table, with the maximum the monster table gives for its type. */
  datatype MonsterSpawn = MonsterSpawn(maxHp: int, pos: Pos)

  /** Monsters are numbered from 1 in the order of the table. */
  ghost function SpawnedBody(spawns: seq<MonsterSpawn>, id: Id): Body
    requires 1 <= id <= |spawns|
  {
    Body.Monster(spawns[id - 1].pos, LoadedHp(spawns[id - 1].maxHp))
  }

  ghost function SpawnedBodies(spawns: seq<MonsterSpawn>): map<Id, Body> {
    map id | 1 <= id <= |spawns| :: SpawnedBody(spawns, id)
  }

  /** One monster for each entry, with the loaded position and hit points; a negative maximum counts
      as 1. */
  lemma LoadedMonsters(spawns: seq<MonsterSpawn>, id: Id)
    ensures id in SpawnedBodies(spawns) <==> 1 <= id <= |spawns|
    ensures 1 <= id <= |spawns| ==>
              var entry := spawns[id - 1];
              SpawnedBodies(spawns)[id] == Body.Monster(entry.pos, if entry.maxHp >= 0 then entry.maxHp else 1)
  {}

  class GameServer {
    const room: Room
    const players: PlayerManager
    const net: Network
    const collision: MapCollision
    ghost const tiles: Tiles
    const stats: PlayerStats
    /** CreatureManager: everything that lives, in the room or not. */
    var creatures: map<Id, Creature>
    /** The state of the game machine that the objects stand for. */
    ghost var bodies: map<Id, Body>
    ghost var avatars: map<Id, Avatar>

    ghost function Now(): State
      reads `bodies, `avatars, players`nextId
    {
      State(bodies, avatars, players.nextId)
    }

    constructor (data: RoomData, collision: MapCollision, stats: PlayerStats, spawns: seq<MonsterSpawn>)
      requires collision.Valid()
      ensures room.roomId == 1 && room.layout == FromRoomData(data) && this.collision == collision
      ensures this.stats == stats
      ensures Settled() && Initial(Now()) && net.wire == map[]
      ensures bodies == if collision.IsLoaded() then SpawnedBodies(spawns) else map[]
      ensures fresh(room) && fresh(room.zones) && fresh(room.residents.Values) && fresh(players) && fresh(net)
      ensures fresh(creatures.Values)
      ensures players.byObject == map[]
    {
      hide *;
      var n := new Network();
      var r := new Room(1, data, n);
      var p := new PlayerManager();
      room, players, net := r, p, n;
      this.collision, this.stats := collision, stats;
      tiles := collision.View();
      creatures, bodies, avatars := map[], map[], map[];
      new;
      SettledAtFirst();
      if collision.IsLoaded() {
        InitDefaultRoom(spawns);
      }
    }

    lemma SettledAtFirst()
      requires room.Indexed() && room.residents == map[] && room.players == map[] && room.net == net
      requires net.wire == map[]
      requires players.Valid() && players.byObject == map[] && players.accounts == NOBODY
      requires creatures == map[] && bodies == map[] && avatars == map[] && collision.Valid()
      requires collision.View() == tiles
      ensures Settled() && Initial(Now()) && SpawnedBodies([]) == bodies
    {
      EverybodySeesItself();
      assert creatures == players.byObject + room.residents;
    }

    lemma EverybodySeesItself()
      requires room.Shape()
      ensures forall a :: room.near(a, a)
    {
      forall a ensures room.near(a, a) {
        room.NearItself(a);
      }
    }

    ghost function TheRules(): Rules {
      Rules(room.near, room.layout.spawn, tiles, stats)
    }

    /** The room's creatures are the bodies of the machine. */
    ghost predicate BodiesMirror()
      reads `bodies, room`residents, room.residents.Values`pos, room.residents.Values`hp
    {
      && room.residents.Keys == bodies.Keys
      && (forall id :: id in room.residents ==> room.residents[id].Body() == bodies[id])
    }

    /** A registered player's connection has been sent exactly what its avatar has been told. */
    ghost predicate AvatarOk(c: Creature, a: Avatar)
      reads c`session, c`lastMoveTick, c`lastAttackTick, net
    {
      && c.session.Some? && c.session.value in net.wire
      && net.wire[c.session.value] == a.log
      && c.lastMoveTick == a.lastMove && c.lastAttackTick == a.lastAttack
    }

    ghost predicate AvatarsMirror()
      reads `avatars, players`byObject, players.byObject.Values`session, players.byObject.Values`lastMoveTick,
            players.byObject.Values`lastAttackTick, net
    {
      && players.byObject.Keys == avatars.Keys
      && (forall id :: id in players.byObject ==> AvatarOk(players.byObject[id], avatars[id]))
    }

    /** Registered players have connections of their own: the session table leads back to them. */
    ghost predicate OwnConnections()
      reads players`byObject, players`accounts, players.byObject.Values`session
    {
      forall id :: id in players.byObject ==> OwnConnection(players.byObject[id], id, players.accounts.bySession)
    }

    ghost predicate OwnConnection(c: Creature, id: Id, owners: map<SessionId, Id>)
      reads c`session
    {
      c.id == id && c.isPlayer && c.session.Some? && c.session.value in owners && owners[c.session.value] == id
    }

    /** The player creatures of the room are registered players. */
    ghost predicate SameObjects()
      reads room`residents, players`byObject
    {
      && (forall id :: id in room.residents ==> (room.residents[id].isPlayer <==> id in players.byObject))
      && (forall id :: id in room.residents && id in players.byObject ==> room.residents[id] == players.byObject[id])
    }

    /** Who is who: the bodies of the machine are the creatures of the room, and its players are
        registered players with connections of their own. */
    ghost predicate Cast()
      reads `bodies, room`residents, room.residents.Values`pos, room.residents.Values`hp,
            players`byObject, players`accounts, players.byObject.Values`session
    {
      room.net == net && BodiesMirror() && OwnConnections() && SameObjects()
    }

    ghost predicate Mirror()
      reads `bodies, `avatars, room`residents, room.residents.Values`pos, room.residents.Values`hp,
            players`byObject, players`accounts, players.byObject.Values`session, players.byObject.Values`lastMoveTick,
            players.byObject.Values`lastAttackTick, net
    {
      Cast() && AvatarsMirror()
    }

    /** What connections without a registered player have been sent. */
    ghost function Outside(): map<SessionId, seq<Packet>>
      reads net, players`accounts
    {
      map s | s in net.wire && s !in players.accounts.bySession :: net.wire[s]
    }

    lemma RoomIsOnline()
      requires Mirror() && room.Tabled()
      ensures room.Online()
      ensures forall id :: id in room.players ==> id in players.byObject && players.byObject[id] == room.players[id]
      ensures forall s, id ::
                s !in players.accounts.bySession && id in room.players ==> room.players[id].session != Some(s)
    {
      forall id | id in room.players
        ensures room.players[id].session.Some? && room.players[id].session.value in players.accounts.bySession
      {
        assert id in players.byObject && players.byObject[id] == room.players[id];
        assert OwnConnection(room.players[id], id, players.accounts.bySession);
      }
    }

    /** Who is told about a position is who hears about it in the machine. */
    ghost predicate InAudience(id: Id, at: Pos, exclude: Option<SessionId>)
      reads room`players, room.players.Values`session, room.players.Values`pos
    {
      id in room.players && room.Told(id, at, exclude)
    }

    lemma AudienceMatches(id: Id, at: Pos, exclude: Option<SessionId>, except: Option<Id>)
      requires Mirror() && room.Tabled() && id in players.byObject
      requires except.Some? ==> except.value in players.byObject
      requires exclude == if except.Some? then players.byObject[except.value].session else None
      ensures InAudience(id, at, exclude) <==> Hears(room.near, bodies, id, at) && except != Some(id)
    {
      if id in room.residents {
        assert bodies[id] == room.residents[id].Body();
        assert room.residents[id] == players.byObject[id];
        assert id in room.players && room.players[id] == room.residents[id];
        if except.Some? && except.value != id {
          assert players.byObject[except.value].session != players.byObject[id].session;
        }
      }
    }

    lemma BroadcastReachesAudience(at: Pos, packet: Packet, exclude: Option<SessionId>, except: Option<Id>,
                                   heard: map<Id, Avatar>)
      requires Mirror() && room.Tabled()
      requires except.Some? ==> except.value in players.byObject
      requires exclude == if except.Some? then players.byObject[except.value].session else None
      requires heard == Broadcast(room.near, bodies, avatars, at, except, packet)
      ensures heard.Keys == avatars.Keys
      ensures forall id :: id in players.byObject ==>
                heard[id] == if InAudience(id, at, exclude) then avatars[id].Told(packet) else avatars[id]
    {
      forall id | id in players.byObject
        ensures InAudience(id, at, exclude) <==> Hears(room.near, bodies, id, at) && except != Some(id)
      {
        AudienceMatches(id, at, exclude, except);
      }
    }

    /** A broadcast to everybody in view is a broadcast of the machine: one packet for each player
        that hears about the position, and none for anybody else. */
    method Announce(at: Pos, packet: Packet, exclude: Option<SessionId>, ghost except: Option<Id>)
      requires Mirror() && room.Tabled()
      requires except.Some? ==> except.value in players.byObject
      requires exclude == if except.Some? then players.byObject[except.value].session else None
      modifies net, `avatars
      ensures AvatarsMirror()
      ensures avatars == Broadcast(room.near, bodies, old(avatars), at, except, packet)
      ensures Outside() == old(Outside())
    {
      hide *;
      MirrorsHere();
      ghost var heard := Broadcast(room.near, bodies, avatars, at, except, packet);
      BroadcastReachesAudience(at, packet, exclude, except, heard);
      ToldOnly(at, packet, exclude);
      avatars := heard;
      AllTold(at, packet, exclude, heard);
    }

    twostate lemma AllTold(new at: Pos, new packet: Packet, new exclude: Option<SessionId>, new heard: map<Id, Avatar>)
      requires old(AvatarsMirror()) && avatars == heard && heard.Keys == old(avatars).Keys
      requires players.byObject == old(players.byObject)
      requires forall id :: id in players.byObject ==>
                 heard[id] == if old(InAudience(id, at, exclude)) then old(avatars)[id].Told(packet)
                              else old(avatars)[id]
      requires forall id :: id in players.byObject ==> unchanged(players.byObject[id])
      requires forall id :: id in players.byObject ==> var s := players.byObject[id].session.value;
                 s in net.wire && net.wire[s] == old(net.wire)[s] + if old(InAudience(id, at, exclude)) then [packet]
                                                                    else []
      ensures AvatarsMirror()
    {
      hide InAudience;
      forall id | id in players.byObject
        ensures AvatarOk(players.byObject[id], avatars[id])
      {
        assert old(AvatarOk(players.byObject[id], avatars[id]));
      }
    }

    /** BroadcastToView, seen from the registry. */
    method ToldOnly(at: Pos, packet: Packet, exclude: Option<SessionId>)
      requires Mirror() && room.Tabled()
      modifies net
      ensures Outside() == old(Outside())
      ensures forall id :: id in players.byObject ==> var s := players.byObject[id].session.value;
                s in net.wire && net.wire[s] == old(net.wire)[s] + if old(InAudience(id, at, exclude)) then [packet]
                                                                   else []
    {
      RoomIsOnline();
      ghost var owners, there := players.accounts.bySession, room.players;
      ghost var heard, out := room.BroadcastToView(at, packet, exclude);
      forall s | s in net.wire && s !in owners ensures net.wire[s] == old(net.wire)[s] {
        assert forall id :: id in there ==> there[id].session != Some(s);
      }
      assert Outside() == old(Outside());
      forall id | id in players.byObject
        ensures var s := players.byObject[id].session.value;
                s in net.wire && net.wire[s] == old(net.wire)[s] + if old(InAudience(id, at, exclude)) then [packet]
                                                                   else []
      {
        assert old(AvatarOk(players.byObject[id], avatars[id]));
      }
    }

    /** The objects stand for the state of the machine, and the zone index is exact. */
    ghost predicate Core()
      reads `bodies, `avatars, room, room.zones, room.residents.Values`pos, room.residents.Values`hp,
            room.residents.Values`zoneIndex, room.players.Values`session, players`byObject, players`accounts,
            players.byObject.Values`session, players.byObject.Values`lastMoveTick,
            players.byObject.Values`lastAttackTick, net
    {
      Mirror() && room.Indexed()
    }

    /** A registered player is in the room exactly when its state is InGame. */
    ghost predicate Playing()
      reads room`residents, players`byObject, players.byObject.Values`state, players.byObject.Values`roomId
    {
      forall id :: id in players.byObject ==> PlayingOk(players.byObject[id], id in room.residents)
    }

    ghost predicate PlayingOk(c: Creature, inRoom: bool)
      reads c`state, c`roomId
    {
      c.state == (if inRoom then InGame else Lobby) && c.roomId == (if inRoom then room.roomId else 0)
    }

    /** The creature table holds the registered players and the creatures of the room. */
    ghost predicate Table()
      reads `creatures, room`residents, players`byObject
    {
      creatures == players.byObject + room.residents
    }

    ghost predicate NobodyDead()
      reads `creatures, creatures.Values`hasDied
    {
      forall id :: id in creatures ==> !creatures[id].hasDied
    }

    /** A packet to the player's own connection. */
    method SendTo(player: Creature, packet: Packet)
      requires AvatarsMirror() && OwnConnections()
      requires player.id in players.byObject && players.byObject[player.id] == player
      modifies net, `avatars
      ensures AvatarsMirror()
      ensures avatars == old(avatars)[player.id := old(avatars)[player.id].Told(packet)]
      ensures Outside() == old(Outside())
    {
      hide *;
      OwnLine(player);
      net.Send(player.session.value, packet);
      avatars := avatars[player.id := avatars[player.id].Told(packet)];
      OneTold(player, packet);
    }

    lemma OwnLine(player: Creature)
      requires AvatarsMirror() && OwnConnections()
      requires player.id in players.byObject && players.byObject[player.id] == player
      ensures player.session.Some? && player.session.value in net.wire
      ensures net.wire[player.session.value] == avatars[player.id].log
      ensures player.id in avatars
    {
      assert AvatarOk(player, avatars[player.id]);
    }

    /** Only `player` has been sent something, and its avatar has been told the same. */
    twostate lemma OneTold(player: Creature, new packet: Packet)
      requires old(AvatarsMirror() && OwnConnections()) && unchanged(players)
      requires player.id in players.byObject && players.byObject[player.id] == player && player.session.Some?
      requires player.session.value in old(net.wire) && player.id in old(avatars)
      requires var s := player.session.value; net.wire == old(net.wire)[s := old(net.wire)[s] + [packet]]
      requires avatars == old(avatars)[player.id := old(avatars)[player.id].Told(packet)]
      requires forall c :: c in players.byObject.Values ==> unchanged(c)
      ensures AvatarsMirror() && Outside() == old(Outside())
    {
      assert player in players.byObject.Values && old(OwnConnection(player, player.id, players.accounts.bySession));
      forall id | id in players.byObject ensures AvatarOk(players.byObject[id], avatars[id]) {
        assert players.byObject[id] in players.byObject.Values;
        assert old(AvatarOk(players.byObject[id], avatars[id]) &&
                   OwnConnection(players.byObject[id], id, players.accounts.bySession));
      }
    }

    lemma OtherSessions(player: Creature)
      requires OwnConnections() && player.id in players.byObject && players.byObject[player.id] == player
      ensures forall id :: id in players.byObject && id != player.id ==>
                players.byObject[id] != player && players.byObject[id].session != player.session
    {}

    method EnterRoom(player: Creature)
      requires room.Indexed() && Cast()
      requires player.isPlayer && player.session.Some? && player.id !in room.residents
      requires player.id in players.byObject && players.byObject[player.id] == player
      modifies room`players, room`residents, room`files, room.zones, player`pos, player`roomId, player`zoneIndex,
               `bodies
      ensures room.Indexed() && Cast()
      ensures bodies == old(bodies)[player.id := Body.Player(room.layout.spawn)]
      ensures room.residents == old(room.residents)[player.id := player]
      ensures player.pos == room.layout.spawn && player.roomId == room.roomId
    {
      hide *;
      room.SamePlayers(player.id);
      var ok := room.EnterPlayer(player);
      bodies := bodies[player.id := Body.Player(room.layout.spawn)];
      CastWith(player);
    }

    /** A registered player has appeared in the room. */
    twostate lemma CastWith(player: Creature)
      requires old(Cast()) && player.isPlayer && player.id in players.byObject && players.byObject[player.id] == player
      requires room.residents == old(room.residents)[player.id := player]
      requires bodies == old(bodies)[player.id := Body.Player(player.pos)]
      requires player.id !in old(room.residents)
      requires unchanged(players) && forall c :: c in players.byObject.Values ==> c.session == old(c.session)
      requires forall c :: c in old(room.residents.Values) && c != player ==> c.pos == old(c.pos) && c.hp == old(c.hp)
      ensures Cast()
    {
      assert old(OwnConnection(player, player.id, players.accounts.bySession));
      forall id | id in room.residents ensures room.residents[id].Body() == bodies[id] {
        assert id != player.id ==>
                 && room.residents[id] in old(room.residents.Values)
                 && (id in players.byObject <==> room.residents[id].isPlayer);
      }
      forall id | id in players.byObject
        ensures OwnConnection(players.byObject[id], id, players.accounts.bySession)
      {
        assert players.byObject[id] in players.byObject.Values;
        assert old(OwnConnection(players.byObject[id], id, players.accounts.bySession));
      }
    }

    lemma InRegistry(player: Creature)
      requires Mirror() && player.id in players.byObject && players.byObject[player.id] == player
      ensures player.isPlayer && player.session.Some?
      ensures player.id in room.residents ==>
                room.residents[player.id] == player && bodies[player.id] == Body.Player(player.pos)
    {
      assert AvatarOk(player, avatars[player.id]) && OwnConnection(player, player.id, players.accounts.bySession);
    }

    lemma MirrorsHere()
      requires Mirror()
      ensures Cast() && AvatarsMirror()
    {}

    lemma MirrorsAgain()
      requires Cast() && AvatarsMirror()
      ensures Mirror()
    {}

    /** The first half of EnterGame, for a player that is not in the room yet. */
    method Arrive(player: Creature)
      requires Core() && player.id in players.byObject && players.byObject[player.id] == player
      requires player.id !in room.residents
      modifies room`players, room`residents, room`files, room.zones, player`pos, player`roomId, player`zoneIndex, net,
               `bodies, `avatars
      ensures Core()
      ensures bodies == old(bodies)[player.id := Body.Player(room.layout.spawn)]
      ensures room.residents == old(room.residents)[player.id := player] && player.roomId == room.roomId
      ensures avatars == Broadcast(room.near, bodies, old(avatars), room.layout.spawn, Some(player.id),
                                   Spawn(SpawnEntry(player.id, room.layout.spawn)))
      ensures Outside() == old(Outside())
    {
      hide *;
      CoreParts();
      InRegistry(player);
      EnterRoom(player);
      IndexedIsTabled();
      MirrorsAgain();
      Announce(player.pos, Spawn(SpawnEntry(player.id, player.pos)), player.session, Some(player.id));
      ReadyAgain();
    }

    lemma BodiesAgree()
      requires BodiesMirror()
      ensures room.Bodies() == bodies
    {
      var m := room.Bodies();
      assert forall id :: id in m ==> m[id] == bodies[id];
    }

    /** The second half of EnterGame: the player is in game and gets its spawn list. */
    method Welcome(player: Creature) returns (ghost order: seq<Id>)
      requires Core() && player.id in players.byObject && players.byObject[player.id] == player
      requires player.id in room.residents
      modifies player`state, player`lastMoveTick, net, `avatars
      ensures AvatarsMirror() && player.state == InGame && player.lastMoveTick == 0
      ensures Listing(bodies, order) && ListsAround(room.near, bodies, order, player.id, player.pos)
      ensures player.id in bodies
      ensures avatars == old(avatars)[player.id := old(avatars)[player.id].Told(
                EnterReply(true, player.id, SpawnList(room.near, bodies, player.id, order))).(lastMove := 0)]
      ensures Outside() == old(Outside())
    {
      hide *;
      CoreParts();
      PlayerInGame(player);
      InRegistry(player);
      var spawns;
      spawns, order := room.FillEnterGameSpawns(player, bodies);
      Reset(player, InGame);
      SendTo(player, EnterReply(true, player.id, spawns));
      ghost var reset := old(avatars)[player.id].(lastMove := 0);
      UpdateTwice(old(avatars), player.id, reset, reset.Told(EnterReply(true, player.id, spawns)));
      ResetAndTold(old(avatars)[player.id], EnterReply(true, player.id, spawns));
    }

    lemma ResetAndTold(a: Avatar, packet: Packet)
      ensures a.(lastMove := 0).Told(packet) == a.Told(packet).(lastMove := 0)
    {}

    method Reset(player: Creature, state: PlayerState)
      requires AvatarsMirror() && OwnConnections()
      requires player.id in players.byObject && players.byObject[player.id] == player
      modifies player`state, player`lastMoveTick, `avatars
      ensures AvatarsMirror() && player.state == state && player.lastMoveTick == 0
      ensures avatars == old(avatars)[player.id := old(avatars)[player.id].(lastMove := 0)]
    {
      OtherSessions(player);
      player.state := state;
      player.lastMoveTick := 0;
      avatars := avatars[player.id := avatars[player.id].(lastMove := 0)];
      forall id | id in players.byObject
        ensures AvatarOk(players.byObject[id], avatars[id])
      {
        assert old(AvatarOk(players.byObject[id], avatars[id]));
      }
    }

    /** Entering is refused as long as there is no map: then there is no room either. */
    ghost function EntryEvent(p: Id, order: seq<Id>): Event {
      if tiles.IsLoaded() then Event.Enter(p, order) else EnterRefused(p)
    }

    /** RoomManager::EnterGame, and the answer to the client. */
    method EnterGame(player: Creature) returns (ghost order: seq<Id>)
      requires MapAgrees() && Core() && Playing() && player.id in players.byObject
      requires players.byObject[player.id] == player
      modifies room`players, room`residents, room`files, room.zones, player`pos, player`roomId, player`zoneIndex,
               player`state, player`lastMoveTick, net, `bodies, `avatars
      ensures Core() && Playing()
      ensures IsStep(TheRules(), old(Now()), EntryEvent(player.id, order), Now())
      ensures room.residents == if tiles.IsLoaded() then old(room.residents)[player.id := player]
                                else old(room.residents)
      ensures Outside() == old(Outside())
    {
      hide *;
      CoreParts();
      PlayersTabled();
      LoadedOrNot();
      EntryEvents(player.id);
      if !collision.IsLoaded() {
        order := [];
        RefuseEntry(player);
      } else if player.id in room.players {
        order := EnterAgain(player);
      } else {
        order := EnterNew(player);
      }
    }

    lemma LoadedOrNot()
      requires MapAgrees()
      ensures TheRules().Valid() && (collision.IsLoaded() <==> tiles.IsLoaded()) && TheRules().tiles == tiles
    {}

    lemma EntryEvents(p: Id)
      ensures forall order ::
                EntryEvent(p, order) == if tiles.IsLoaded() then Event.Enter(p, order) else EnterRefused(p)
    {}

    method RefuseEntry(player: Creature)
      requires TheRules().Valid() && !tiles.IsLoaded() && Core() && player.id in players.byObject
      requires players.byObject[player.id] == player
      modifies net, `avatars
      ensures Core() && IsStep(TheRules(), old(Now()), EnterRefused(player.id), Now())
      ensures Outside() == old(Outside())
    {
      hide *;
      CoreParts();
      OwnLine(player);
      TellHere(player.id, EnterReply(false, 0, []));
      EntryRefused(Now(), player.id);
      SendTo(player, EnterReply(false, 0, []));
      ReadyAgain();
    }

    lemma EntryRefused(s: State, p: Id)
      requires TheRules().Valid() && !tiles.IsLoaded() && p in s.avatars
      ensures IsStep(TheRules(), s, EnterRefused(p), Tell(s, p, EnterReply(false, 0, [])))
    {}

    /** The room's player table has the registered players that are in the room. */
    lemma PlayersTabled()
      requires Core()
      ensures forall id :: id in players.byObject ==> (id in room.players <==> id in room.residents)
    {}

    method EnterAgain(player: Creature) returns (ghost order: seq<Id>)
      requires TheRules().Valid() && tiles.IsLoaded() && Core() && Playing() && player.id in players.byObject
      requires players.byObject[player.id] == player
      requires player.id in room.residents
      modifies player`state, player`lastMoveTick, net, `avatars
      ensures Core() && Playing() && room.residents == old(room.residents)[player.id := player]
      ensures IsStep(TheRules(), old(Now()), Event.Enter(player.id, order), Now())
      ensures Outside() == old(Outside())
    {
      hide *;
      CoreParts();
      OtherSessions(player);
      PlayerInGame(player);
      InGameHere(player);
      StateNow();
      order := Welcome(player);
      EntersAgainHere(old(Now()), player.id, player.pos, order, State(bodies, avatars, players.nextId));
      StillPlaying(player);
      ReadyAgain();
    }

    lemma CoreParts()
      requires Core()
      ensures Mirror() && Cast() && OwnConnections() && AvatarsMirror() && room.Indexed() && room.Filed()
      ensures room.Tabled()
      ensures players.byObject.Keys == avatars.Keys && room.residents.Keys == bodies.Keys
    {}

    lemma EntersAgainHere(s: State, p: Id, at: Pos, order: seq<Id>, t: State)
      requires TheRules().Valid() && tiles.IsLoaded() && p in s.avatars && p in s.bodies && s.bodies[p].pos == at
      requires Listing(s.bodies, order) && ListsAround(room.near, s.bodies, order, p, at)
      requires t == State(s.bodies, s.avatars[p := s.avatars[p].Told(
                 EnterReply(true, p, SpawnList(room.near, s.bodies, p, order))).(lastMove := 0)], s.nextId)
      ensures IsStep(TheRules(), s, Event.Enter(p, order), t)
    {
      hide SpawnList, ListsAround;
    }

    /** The two halves of EnterGame make one step of the machine. */
    lemma EntersHere(s: State, p: Id, order: seq<Id>, heard: map<Id, Avatar>, t: State)
      requires TheRules().Valid() && tiles.IsLoaded() && p in s.avatars && p !in s.bodies && p in heard
      requires var after := s.bodies[p := Body.Player(room.layout.spawn)];
               && Listing(after, order) && ListsAround(room.near, after, order, p, room.layout.spawn)
               && heard == Broadcast(room.near, after, s.avatars, room.layout.spawn, Some(p),
                                     Spawn(SpawnEntry(p, room.layout.spawn)))
               && t == State(after, heard[p := heard[p].Told(
                    EnterReply(true, p, SpawnList(room.near, after, p, order))).(lastMove := 0)], s.nextId)
      ensures IsStep(TheRules(), s, Event.Enter(p, order), t)
    {
      hide SpawnList, ListsAround, Broadcast;
    }

    method EnterNew(player: Creature) returns (ghost order: seq<Id>)
      requires TheRules().Valid() && tiles.IsLoaded() && Core() && Playing() && player.id in players.byObject
      requires players.byObject[player.id] == player
      requires player.id !in room.residents
      modifies room`players, room`residents, room`files, room.zones, player`pos, player`roomId, player`zoneIndex,
               player`state, player`lastMoveTick, net, `bodies, `avatars
      ensures Core() && Playing()
      ensures IsStep(TheRules(), old(Now()), Event.Enter(player.id, order), Now())
      ensures room.residents == old(room.residents)[player.id := player]
      ensures Outside() == old(Outside())
    {
      hide *;
      CoreParts();
      OtherSessions(player);
      StateNow();
      ghost var heard;
      order, heard := ArriveInGame(player);
      EntersHere(old(Now()), player.id, order, heard, State(bodies, avatars, players.nextId));
      StillPlaying(player);
      ReadyAgain();
    }

    method ArriveInGame(player: Creature) returns (ghost order: seq<Id>, ghost heard: map<Id, Avatar>)
      requires Core() && player.id in players.byObject && players.byObject[player.id] == player
      requires player.id !in room.residents
      modifies room`players, room`residents, room`files, room.zones, player`pos, player`roomId, player`zoneIndex,
               player`state, player`lastMoveTick, net, `bodies, `avatars
      ensures Cast() && AvatarsMirror() && room.Indexed() && player.state == InGame && player.roomId == room.roomId
      ensures bodies == old(bodies)[player.id := Body.Player(room.layout.spawn)]
      ensures room.residents == old(room.residents)[player.id := player]
      ensures Listing(bodies, order) && ListsAround(room.near, bodies, order, player.id, room.layout.spawn)
      ensures heard == Broadcast(room.near, bodies, old(avatars), room.layout.spawn, Some(player.id),
                                 Spawn(SpawnEntry(player.id, room.layout.spawn)))
      ensures player.id in heard && player.id in bodies
      ensures avatars == heard[player.id := heard[player.id].Told(
                EnterReply(true, player.id, SpawnList(room.near, bodies, player.id, order))).(lastMove := 0)]
      ensures Outside() == old(Outside())
    {
      hide *;
      Arrive(player);
      CoreParts();
      PlayerInGame(player);
      heard := avatars;
      order := Welcome(player);
    }

    /** Only `player` has entered or left: everybody else's state still fits. */
    twostate lemma StillPlaying(player: Creature)
      requires old(Playing()) && OwnConnections()
      requires player.id in players.byObject && players.byObject[player.id] == player
      requires old(players.byObject) == players.byObject
      requires PlayingOk(player, player.id in room.residents)
      requires forall id :: id != player.id ==> (id in room.residents <==> id in old(room.residents))
      requires forall id :: id in players.byObject && id != player.id ==>
                 players.byObject[id].state == old(players.byObject[id].state) &&
                 players.byObject[id].roomId == old(players.byObject[id].roomId)
      ensures Playing()
    {
      forall id | id in players.byObject && id != player.id
        ensures PlayingOk(players.byObject[id], id in room.residents)
      {
        assert old(PlayingOk(players.byObject[id], id in room.residents));
      }
    }

    /** RoomManager::LeaveGame. A player that is in no room only goes back to the lobby. */
    method LeaveGame(player: Creature)
      requires Core() && Playing() && player.id in players.byObject && players.byObject[player.id] == player
      modifies room`players, room`residents, room`files, room.zones, player`roomId, player`zoneIndex, player`state,
               player`lastMoveTick, net, `bodies, `avatars
      ensures Core() && Playing()
      ensures player.id in old(Now()).avatars && Now() == Quit(TheRules(), old(Now()), player.id)
      ensures room.residents == old(room.residents) - {player.id}
      ensures Outside() == old(Outside())
    {
      hide *;
      CoreParts();
      InGameHere(player);
      StateNow();
      if player.roomId != room.roomId {
        OtherSessions(player);
        NothingToQuit(player.id);
        player.state := Lobby;
        StillPlaying(player);
        ReadyAgain();
        return;
      }
      LeaveRoom(player);
    }

    lemma NothingToQuit(p: Id)
      requires p in avatars && p !in bodies
      ensures Quit(TheRules(), Now(), p) == Now()
    {}

    method LeaveRoom(player: Creature)
      requires Core() && Playing() && player.id in players.byObject && players.byObject[player.id] == player
      requires player.id in room.residents
      modifies room`players, room`residents, room`files, room.zones, player`roomId, player`zoneIndex, player`state,
               player`lastMoveTick, net, `bodies, `avatars
      ensures Core() && Playing()
      ensures player.id in old(Now()).avatars && Now() == Quit(TheRules(), old(Now()), player.id)
      ensures room.residents == old(room.residents) - {player.id}
      ensures Outside() == old(Outside())
    {
      hide *;
      CoreParts();
      OtherSessions(player);
      InGameHere(player);
      StateNow();
      QuitsHere(player);
      Depart(player);
      StillPlaying(player);
      ReadyAgain();
    }

    method Depart(player: Creature)
      requires Core() && player.id in players.byObject && players.byObject[player.id] == player
      requires player.id in room.residents && player.state == InGame
      modifies room`players, room`residents, room`files, room.zones, player`roomId, player`zoneIndex, player`state,
               player`lastMoveTick, net, `bodies, `avatars
      ensures Cast() && AvatarsMirror() && room.Indexed() && player.state == Lobby && player.roomId == 0
      ensures bodies == old(bodies) - {player.id} && room.residents == old(room.residents) - {player.id}
      ensures var heard := Broadcast(room.near, old(bodies), old(avatars), player.pos, None, Despawn(player.id));
              player.id in heard && avatars == heard[player.id := heard[player.id].(lastMove := 0)]
      ensures Outside() == old(Outside())
    {
      hide *;
      CoreParts();
      InRegistry(player);
      SayGoodbye(player);
      QuitRoom(player);
    }

    lemma InGameHere(player: Creature)
      requires Core() && Playing() && player.id in players.byObject && players.byObject[player.id] == player
      ensures player.isPlayer && player.session.Some?
      ensures player.state == (if player.id in room.residents then InGame else Lobby)
      ensures player.roomId == (if player.id in room.residents then room.roomId else 0) && room.roomId > 0
      ensures player.id in room.residents ==>
                room.residents[player.id] == player && bodies[player.id] == Body.Player(player.pos)
    {
      assert PlayingOk(player, player.id in room.residents);
    }

    /** The farewell broadcast and the departure make the step of the machine. */
    lemma QuitsHere(player: Creature)
      requires player.id in avatars && player.id in bodies && bodies[player.id].pos == player.pos
      ensures var heard := Broadcast(room.near, bodies, avatars, player.pos, None, Despawn(player.id));
              Quit(TheRules(), Now(), player.id)
              == State(bodies - {player.id}, heard[player.id := heard[player.id].(lastMove := 0)], players.nextId)
    {}

    method SayGoodbye(player: Creature)
      requires Mirror() && room.Tabled() && player.id in players.byObject && players.byObject[player.id] == player
      requires player.state == InGame
      modifies player`state, player`lastMoveTick, net, `avatars
      ensures AvatarsMirror() && player.state == Lobby
      ensures var heard := Broadcast(room.near, bodies, old(avatars), player.pos, None, Despawn(player.id));
              player.id in heard && avatars == heard[player.id := heard[player.id].(lastMove := 0)]
      ensures Outside() == old(Outside())
    {
      if player.state == InGame {
        Announce(player.pos, Despawn(player.id), None, None);
      }
      Reset(player, Lobby);
    }

    method QuitRoom(player: Creature)
      requires room.Indexed() && Cast()
      requires player.isPlayer && player.id in room.residents && room.residents[player.id] == player
      modifies room`players, room`residents, room`files, room.zones, player`roomId, player`zoneIndex, `bodies
      ensures room.Indexed() && Cast()
      ensures bodies == old(bodies) - {player.id} && room.residents == old(room.residents) - {player.id}
      ensures player.roomId == 0
    {
      hide *;
      room.LeavePlayer(player);
      bodies := bodies - {player.id};
      CastWithout(player);
    }

    /** SetPosition, and the tick that ValidateClientPosition records. */
    method MoveBody(player: Creature, to: Pos, now: nat)
      requires Mirror() && room.Indexed()
      requires player.id in players.byObject && players.byObject[player.id] == player && player.id in room.residents
      modifies player`pos, player`lastMoveTick, `bodies, `avatars
      ensures Mirror() && bodies == old(bodies)[player.id := Body.Player(to)] && player.pos == to
      ensures room.Filed() && forall id :: id in room.residents && id != player.id ==> room.InPlace(id)
      ensures avatars == old(avatars)[player.id := old(avatars)[player.id].(lastMove := now)]
    {
      hide *;
      MirrorParts();
      SetPosition(player, to);
      OthersStayInPlace(player);
      StampMove(player, now);
      MirrorsAgain();
    }

    lemma MirrorParts()
      requires Mirror() && room.Indexed()
      ensures Cast() && AvatarsMirror() && OwnConnections() && room.Filed() && players.byObject.Keys == avatars.Keys
      ensures forall id :: id in room.residents ==> room.residents[id].id == id
    {}

    method SetPosition(player: Creature, to: Pos)
      requires Cast() && (forall id :: id in room.residents ==> room.residents[id].id == id)
      requires player.id in players.byObject && players.byObject[player.id] == player && player.id in room.residents
      modifies player`pos, `bodies
      ensures Cast() && bodies == old(bodies)[player.id := Body.Player(to)] && player.pos == to
    {
      player.pos := to;
      bodies := bodies[player.id := Body.Player(to)];
    }

    method StampMove(player: Creature, now: nat)
      requires AvatarsMirror() && OwnConnections() && player.id in players.byObject
      requires players.byObject[player.id] == player
      modifies player`lastMoveTick, `avatars
      ensures AvatarsMirror() && avatars == old(avatars)[player.id := old(avatars)[player.id].(lastMove := now)]
    {
      OtherSessions(player);
      player.lastMoveTick := now;
      avatars := avatars[player.id := avatars[player.id].(lastMove := now)];
      forall id | id in players.byObject
        ensures AvatarOk(players.byObject[id], avatars[id])
      {
        assert old(AvatarOk(players.byObject[id], avatars[id]));
      }
    }

    /** Moving one creature leaves the others in the zones of their positions. */
    twostate lemma OthersStayInPlace(player: Creature)
      requires old(room.Indexed()) && room.Filed() && room.residents == old(room.residents)
      requires forall id :: id in room.residents && id != player.id ==>
                 room.residents[id].pos == old(room.residents[id].pos) &&
                 room.residents[id].zoneIndex == old(room.residents[id].zoneIndex)
      ensures forall id :: id in room.residents && id != player.id ==> room.InPlace(id)
    {
      forall id | id in room.residents && id != player.id ensures room.InPlace(id) {
        assert old(room.InPlace(id));
      }
    }

    /** Zone, own client and other clients follow a position that has just changed. */
    method Follow(player: Creature, from: Pos, to: Pos) returns (ghost order: seq<Id>)
      requires Mirror() && room.Filed() && room.Online() && room.Bodies() == bodies
      requires player.id in players.byObject && players.byObject[player.id] == player && player.id in room.residents
      requires forall id :: id in room.residents && id != player.id ==> room.InPlace(id)
      requires player.zoneIndex == room.zoneOf(from) && player.pos == to
      modifies room`files, room.zones, player`zoneIndex, net
      ensures room.Indexed() && Listing(bodies, order)
      ensures ListsAround(room.near, bodies, order, player.id, from)
      ensures ListsAround(room.near, bodies, order, player.id, to)
      ensures Outside() == old(Outside())
      ensures forall id :: id in players.byObject ==>
                id in avatars && AvatarOk(players.byObject[id], Followed(avatars[id], id, player.id, from, to, order))
    {
      hide *;
      PlayersInRoom();
      InRegistry(player);
      order := room.MoveOnline(player, from, to, bodies);
      AllFollowed(player, from, to, order);
    }

    /** An avatar after the spawns and despawns of a move. */
    ghost function Followed(a: Avatar, id: Id, p: Id, from: Pos, to: Pos, order: seq<Id>): Avatar
      requires forall q :: q in order ==> q in bodies
      reads `bodies
    {
      a.(log := a.log + SyncPackets(room.near, bodies, id, p, from, to, order))
    }

    /** What the room has sent is what the machine says. */
    twostate lemma AllFollowed(player: Creature, new from: Pos, new to: Pos, new order: seq<Id>)
      requires Listing(bodies, order) && room.MoveSent(old(net.wire), player, from, to, bodies, order)
      requires room.net == net && unchanged(this) && unchanged(players) && players.byObject.Keys == avatars.Keys
      requires player.id in players.byObject && players.byObject[player.id] == player
      requires forall id :: id in players.byObject ==> old(AvatarOk(players.byObject[id], avatars[id]))
      requires forall c :: c in players.byObject.Values ==>
                 c.session == old(c.session) && c.lastMoveTick == old(c.lastMoveTick) &&
                 c.lastAttackTick == old(c.lastAttackTick)
      requires forall s, id ::
                s !in players.accounts.bySession && id in room.players ==> room.players[id].session != Some(s)
      requires forall id :: id in players.byObject && id in room.residents ==>
                 id in room.players && room.players[id] == players.byObject[id]
                 && id in bodies && bodies[id] == Body.Player(players.byObject[id].pos)
      requires forall id :: id in players.byObject && id !in room.residents ==>
                 id !in bodies &&
                 (forall other :: other in room.players ==> room.players[other].session != players.byObject[id].session)
      requires player.id in room.residents
      ensures Outside() == old(Outside())
      ensures forall id :: id in players.byObject ==>
                id in avatars && AvatarOk(players.byObject[id], Followed(avatars[id], id, player.id, from, to, order))
    {
      hide ListsAround, OwnPackets, WatchPackets, Room.MoveSent, AvatarOk, Followed, Listing;
      ListedHere(order);
      OthersUntold(old(net.wire), player, from, to, order);
      forall id | id in players.byObject
        ensures AvatarOk(players.byObject[id], Followed(avatars[id], id, player.id, from, to, order))
      {
        assert players.byObject[id] in players.byObject.Values;
        WasOk(players.byObject[id], avatars[id]);
        FollowedOne(old(net.wire), id, players.byObject[id], avatars[id], player, from, to, order);
      }
    }

    twostate lemma WasOk(c: Creature, new a: Avatar)
      requires old(AvatarOk(c, a))
      requires c.session == old(c.session) && c.lastMoveTick == old(c.lastMoveTick)
      requires c.lastAttackTick == old(c.lastAttackTick)
      ensures c.session.Some? && c.session.value in old(net.wire) && old(net.wire)[c.session.value] == a.log
      ensures c.lastMoveTick == a.lastMove && c.lastAttackTick == a.lastAttack
    {}

    /** Connections without a player are sent nothing. */
    lemma OthersUntold(before: map<SessionId, seq<Packet>>, player: Creature, from: Pos, to: Pos, order: seq<Id>)
      requires (forall q :: q in order ==> q in bodies) && room.net == net
      requires room.MoveSent(before, player, from, to, bodies, order)
      requires forall s, id ::
                s !in players.accounts.bySession && id in room.players ==> room.players[id].session != Some(s)
      ensures Outside() == map s | s in before && s !in players.accounts.bySession :: before[s]
    {
      ghost var owners, there := players.accounts.bySession, room.players;
      forall s | s in net.wire && s !in owners ensures net.wire[s] == before[s] {
        assert forall id :: id in there ==> there[id].session != Some(s);
      }
    }

    /** One registered player's connection. */
    lemma FollowedOne(before: map<SessionId, seq<Packet>>, id: Id, c: Creature, a: Avatar, player: Creature, from: Pos,
                      to: Pos, order: seq<Id>)
      requires (forall q :: q in order ==> q in bodies) && room.net == net
      requires room.MoveSent(before, player, from, to, bodies, order)
      requires c.session.Some? && c.session.value in before && before[c.session.value] == a.log
      requires c.lastMoveTick == a.lastMove && c.lastAttackTick == a.lastAttack
      requires id == player.id ==> c == player
      requires id != player.id && id in bodies ==>
                id in room.players && room.players[id] == c && bodies[id] == Body.Player(c.pos)
      requires id != player.id && id !in bodies ==> forall other ::
                other in room.players ==> room.players[other].session != c.session
      ensures AvatarOk(c, Followed(a, id, player.id, from, to, order))
    {
      hide OwnPackets, WatchPackets;
      assert a.log + [] == a.log;
      if id == player.id {
        assert room.Grown(before, c.session.value, OwnPackets(room.near, bodies, id, from, to, order));
      } else if id in bodies {
        assert room.Grown(before, c.session.value, WatchPackets(room.near, c.pos, player.id, from, to));
      } else {
        ghost var s, there := c.session.value, room.players;
        assert forall other :: other in there ==> there[other].session != Some(s);
        assert net.wire[s] == before[s];
      }
    }

    lemma PlayersInRoom()
      requires Mirror() && room.Filed()
      ensures forall s, id ::
                s !in players.accounts.bySession && id in room.players ==> room.players[id].session != Some(s)
      ensures room.net == net && players.byObject.Keys == avatars.Keys && room.residents.Keys == bodies.Keys
      ensures forall id :: id in players.byObject ==> AvatarOk(players.byObject[id], avatars[id])
      ensures forall id :: id in players.byObject && id in room.residents ==>
                id in room.players && room.players[id] == players.byObject[id] &&
                bodies[id] == Body.Player(players.byObject[id].pos)
      ensures forall id :: id in players.byObject && id !in room.residents ==>
                id !in bodies &&
                (forall other :: other in room.players ==> room.players[other].session != players.byObject[id].session)
    {
      forall id, other | id in players.byObject && id !in room.residents && other in room.players
        ensures room.players[other].session != players.byObject[id].session
      {
        assert other in players.byObject && players.byObject[other] == room.players[other];
      }
      RoomIsOnline();
    }

    lemma ListedHere(order: seq<Id>)
      requires Listing(bodies, order)
      ensures forall q :: q in order ==> q in bodies
    {}

    lemma SyncMoveIsFollow(p: Id, from: Pos, to: Pos, order: seq<Id>, synced: map<Id, Avatar>)
      requires Listing(bodies, order) && synced == SyncMove(room.near, bodies, avatars, p, from, to, order)
      ensures synced.Keys == avatars.Keys
      ensures forall id :: id in avatars ==> synced[id] == Followed(avatars[id], id, p, from, to, order)
    {}

    method FollowMove(player: Creature, from: Pos, to: Pos) returns (ghost order: seq<Id>)
      requires Mirror() && room.Filed()
      requires player.id in players.byObject && players.byObject[player.id] == player && player.id in room.residents
      requires forall id :: id in room.residents && id != player.id ==> room.InPlace(id)
      requires player.zoneIndex == room.zoneOf(from) && player.pos == to
      modifies room`files, room.zones, player`zoneIndex, net, `avatars
      ensures room.Indexed() && Mirror() && Cast() && Listing(bodies, order)
      ensures ListsAround(room.near, bodies, order, player.id, from)
      ensures ListsAround(room.near, bodies, order, player.id, to)
      ensures avatars == SyncMove(room.near, bodies, old(avatars), player.id, from, to, order)
      ensures Outside() == old(Outside())
    {
      hide *;
      ReadyToFollow();
      order := Follow(player, from, to);
      ListedHere(order);
      ghost var synced := SyncMove(room.near, bodies, avatars, player.id, from, to, order);
      SyncMoveIsFollow(player.id, from, to, order, synced);
      avatars := synced;
      AvatarsFollow();
    }

    lemma ReadyToFollow()
      requires Mirror() && room.Filed()
      ensures room.Online() && room.Bodies() == bodies && room.Shape() && players.byObject.Keys == avatars.Keys
      ensures Cast()
    {
      RoomIsOnline();
      BodiesAgree();
    }

    lemma AvatarsFollow()
      requires Cast()
      requires players.byObject.Keys == avatars.Keys
      requires forall id :: id in players.byObject ==> AvatarOk(players.byObject[id], avatars[id])
      ensures Mirror() && Cast()
    {}

    /** The mover and everybody else in view are told the new position. */
    method NoticeMove(player: Creature, to: Pos)
      requires Mirror() && room.Tabled()
      requires player.id in players.byObject && players.byObject[player.id] == player
      modifies net, `avatars
      ensures AvatarsMirror()
      ensures var told := old(avatars)[player.id := old(avatars)[player.id].Told(MoveNotice(player.id, to))];
              avatars == Broadcast(room.near, bodies, told, to, Some(player.id), MoveNotice(player.id, to))
      ensures Outside() == old(Outside())
    {
      SendTo(player, MoveNotice(player.id, to));
      Announce(to, MoveNotice(player.id, to), player.session, Some(player.id));
    }

    method StampAttack(player: Creature, now: nat)
      requires AvatarsMirror() && OwnConnections() && player.id in players.byObject
      requires players.byObject[player.id] == player
      modifies player`lastAttackTick, `avatars
      ensures AvatarsMirror() && avatars == old(avatars)[player.id := old(avatars)[player.id].(lastAttack := now)]
      ensures player.lastAttackTick == now
    {
      OtherSessions(player);
      player.lastAttackTick := now;
      avatars := avatars[player.id := avatars[player.id].(lastAttack := now)];
      forall id | id in players.byObject
        ensures AvatarOk(players.byObject[id], avatars[id])
      {
        assert old(AvatarOk(players.byObject[id], avatars[id]));
      }
    }

    /** What the handlers may use of the objects and the machine they stand for. */
    lemma PlayerInGame(player: Creature)
      requires Core() && player.id in players.byObject && players.byObject[player.id] == player
      requires player.id in room.residents
      ensures Mirror() && room.Indexed() && room.Filed() && room.Tabled() && player.zoneIndex == room.zoneOf(player.pos)
      ensures bodies == room.Bodies() && player.id in bodies && bodies[player.id] == Body.Player(player.pos)
      ensures player.id in avatars && AvatarOk(player, avatars[player.id])
    {
      BodiesAgree();
      assert room.InPlace(player.id);
    }

    /** Handle_C_S_MOVE for a player in game. */
    method MovePlayer(player: Creature, client: Pos, now: nat, root: real) returns (ghost order: seq<Id>)
      requires Core() && collision.Valid() && collision.View() == tiles
      requires player.id in players.byObject && players.byObject[player.id] == player && player.id in room.residents
      requires IsRoot(root, DistSq(player.pos, client))
      modifies room`files, room.zones, player`pos, player`zoneIndex, player`lastMoveTick, net, `bodies, `avatars
      ensures Core()
      ensures var to := ValidateClientPosition(tiles, old(player.pos), client, stats.moveSpeed,
                                               EffectiveDelta(old(player.lastMoveTick), now), root);
              MovedTo(old(Now()), Now(), player.id, now, old(player.pos), to, order)
      ensures Outside() == old(Outside())
    {
      var from := player.pos;
      var to := Validate(collision, from, client, stats.moveSpeed, player.lastMoveTick, now, root);
      order := MoveTo(player, to, now);
    }

    /** The game after `p` has gone somewhere, told about what the room listed on the way. */
    ghost predicate MovedTo(s: State, t: State, p: Id, now: nat, from: Pos, to: Pos, order: seq<Id>)
    {
      && p in s.avatars && Listing(s.bodies, order)
      && ListsAround(room.near, s.bodies, order, p, from) && ListsAround(room.near, s.bodies, order, p, to)
      && t == Moved(TheRules(), s, p, now, from, to, order)
    }

    method MoveTo(player: Creature, to: Pos, now: nat) returns (ghost order: seq<Id>)
      requires Core()
      requires player.id in players.byObject && players.byObject[player.id] == player && player.id in room.residents
      modifies room`files, room.zones, player`pos, player`zoneIndex, player`lastMoveTick, net, `bodies, `avatars
      ensures Core()
      ensures MovedTo(old(Now()), Now(), player.id, now, old(player.pos), to, order)
      ensures Outside() == old(Outside())
    {
      hide *;
      PlayerInGame(player);
      StateNow();
      var from := player.pos;
      MoveBody(player, to, now);
      order := FollowMove(player, from, to);
      IndexedIsTabled();
      NoticeMove(player, to);
      MovedHere(old(Now()), player.id, now, from, to, order, State(bodies, avatars, players.nextId));
      ReadyAgain();
    }

    lemma IndexedIsTabled()
      requires room.Indexed()
      ensures room.Tabled()
    {}

    /** MovedInSteps for the states of the objects. */
    lemma MovedHere(s: State, p: Id, now: nat, from: Pos, to: Pos, order: seq<Id>, t: State)
      requires p in s.avatars && p in s.bodies && s.bodies[p].Player? && t.bodies == s.bodies[p := Body.Player(to)]
      requires Listing(t.bodies, order) && t.nextId == s.nextId
      requires ListsAround(room.near, t.bodies, order, p, from) && ListsAround(room.near, t.bodies, order, p, to)
      requires var synced := SyncMove(room.near, t.bodies, s.avatars[p := s.avatars[p].(lastMove := now)], p, from, to,
                                      order);
               var noticed := synced[p := synced[p].Told(MoveNotice(p, to))];
               t.avatars == Broadcast(room.near, t.bodies, noticed, to, Some(p), MoveNotice(p, to))
      ensures MovedTo(s, t, p, now, from, to, order)
    {
      hide SyncMove, Broadcast, Moved;
      MovedInSteps(TheRules(), s, p, now, from, to, order);
    }

    lemma ReadyAgain()
      requires Cast() && AvatarsMirror() && room.Indexed()
      ensures Core() && Now() == State(bodies, avatars, players.nextId)
    {}

    // ---------- Attacks ----------

    predicate InReach(at: Pos, target: Pos, hp: int) {
      hp > 0 && DistSq(at, target) <= stats.attackRange * stats.attackRange && stats.attackDamage > 0
    }

    /** The visits of the attack handler: the first monster that is alive, in range and hurt is
        the one that is hit, and no other is touched. */
    method StrikeFirst(at: Pos, ms: seq<Creature>) returns (hit: Creature?)
      requires forall c :: c in ms ==> !c.hasDied
      modifies ms`hp, ms`hasDied
      ensures hit != null ==>
                && hit in ms && old(hit.hp) > 0 && stats.attackDamage > 0 && Within(at, hit.pos, stats.attackRange)
                && hit.hp == (if old(hit.hp) <= stats.attackDamage then 0 else old(hit.hp) - stats.attackDamage)
                && (hit.hasDied <==> hit.hp == 0)
      ensures hit == null ==>
                forall c :: c in ms && old(c.hp) > 0 && stats.attackDamage > 0 ==> !Within(at, c.pos, stats.attackRange)
      ensures forall c :: c in ms && c != hit ==> c.hp == old(c.hp) && !c.hasDied
    {
      hit := null;
      for k := 0 to |ms|
        invariant hit == null ==> forall c :: c in ms[..k] ==> !old(InReach(at, c.pos, c.hp))
        invariant hit != null ==>
                    && hit in ms && old(InReach(at, hit.pos, hit.hp))
                    && hit.hp == (if old(hit.hp) <= stats.attackDamage then 0 else old(hit.hp) - stats.attackDamage)
                    && (hit.hasDied <==> hit.hp == 0)
        invariant forall c :: c in ms && c != hit ==> c.hp == old(c.hp) && !c.hasDied
      {
        var monster := ms[k];
        if hit == null && monster.IsAlive() && DistSq(at, monster.pos) <= stats.attackRange * stats.attackRange {
          var dealt := monster.TakeDamage(stats.attackDamage);
          if dealt > 0 {
            hit := monster;
          }
        }
      }
      assert ms[..|ms|] == ms;
    }

    /** StrikeFirst on the monsters in view, seen from the machine. */
    method Strike(at: Pos, ms: seq<Creature>) returns (hit: Creature?)
      requires Cast() && forall id :: id in room.residents ==> room.residents[id].id == id
      requires forall c :: c in ms ==>
                !c.hasDied && !c.isPlayer && c.id in room.residents && room.residents[c.id] == c && room.near(at, c.pos)
      requires forall id ::
                 id in room.residents && !room.residents[id].isPlayer && room.near(at, room.residents[id].pos) ==>
                   room.residents[id] in ms
      modifies ms`hp, ms`hasDied, `bodies
      ensures Cast()
      ensures hit == null ==> bodies == old(bodies) && forall m :: m in bodies ==> !CanHit(TheRules(), bodies, at, m)
      ensures hit != null ==>
                && hit in ms && CanHit(TheRules(), old(bodies), at, hit.id)
                && bodies == old(bodies)[hit.id := Body.Monster(hit.pos, hit.hp)]
                && old(bodies)[hit.id].pos == hit.pos
                && hit.hp == old(bodies)[hit.id].hp - Dealt(TheRules(), old(bodies)[hit.id].hp)
                && (hit.hasDied <==> hit.hp <= 0)
      ensures forall c :: c in ms && c != hit ==> !c.hasDied
    {
      hide *;
      hit := StrikeFirst(at, ms);
      if hit != null {
        bodies := bodies[hit.id := Body.Monster(hit.pos, hit.hp)];
      }
      StruckInMachine(at, ms, hit);
    }

    /** What StrikeFirst has done to the objects, as the machine has it. */
    twostate lemma StruckInMachine(new at: Pos, ms: seq<Creature>, new hit: Creature?)
      requires old(Cast()) && unchanged(players) && room.residents == old(room.residents)
      requires forall id :: id in room.residents ==> room.residents[id].id == id
      requires forall c ::
                c in ms ==> !c.isPlayer && c.id in room.residents && room.residents[c.id] == c && room.near(at, c.pos)
      requires forall id ::
                 id in room.residents && !room.residents[id].isPlayer && room.near(at, room.residents[id].pos) ==>
                   room.residents[id] in ms
      requires forall c :: c in room.residents.Values ==> c.pos == old(c.pos) && (c !in ms ==> c.hp == old(c.hp))
      requires forall c :: c in players.byObject.Values ==> c.session == old(c.session)
      requires hit != null ==>
                && hit in ms && old(hit.hp) > 0 && stats.attackDamage > 0 && Within(at, hit.pos, stats.attackRange)
                && hit.hp == (if old(hit.hp) <= stats.attackDamage then 0 else old(hit.hp) - stats.attackDamage)
      requires hit == null ==>
                 forall c :: c in ms && old(c.hp) > 0 && stats.attackDamage > 0 ==>
                   !Within(at, c.pos, stats.attackRange)
      requires forall c :: c in ms && c != hit ==> c.hp == old(c.hp)
      requires bodies == if hit == null then old(bodies) else old(bodies)[hit.id := Body.Monster(hit.pos, hit.hp)]
      ensures Cast()
      ensures hit == null ==> forall m :: m in bodies ==> !CanHit(TheRules(), bodies, at, m)
      ensures hit != null ==>
                && CanHit(TheRules(), old(bodies), at, hit.id) && old(bodies)[hit.id].pos == hit.pos
                && hit.hp == old(bodies)[hit.id].hp - Dealt(TheRules(), old(bodies)[hit.id].hp)
    {
      forall id | id in room.residents
        ensures room.residents[id].Body() == bodies[id] && old(room.residents[id].Body()) == old(bodies)[id]
      {
        assert room.residents[id] in room.residents.Values;
      }
      forall id | id in players.byObject
        ensures OwnConnection(players.byObject[id], id, players.accounts.bySession)
      {
        assert players.byObject[id] in players.byObject.Values;
        assert old(OwnConnection(players.byObject[id], id, players.accounts.bySession));
      }
    }

    lemma NobodyInRoomDead()
      requires Core() && Table() && NobodyDead()
      ensures forall id :: id in creatures ==> creatures[id].id == id
      ensures forall id :: id in room.residents ==>
                id in creatures && creatures[id] == room.residents[id] && !room.residents[id].hasDied
      ensures forall id :: id in creatures ==> !creatures[id].hasDied
    {
      FiledIds();
      assert forall id ::
          id in players.byObject ==> OwnConnection(players.byObject[id], id, players.accounts.bySession);
      forall id | id in room.residents
        ensures id in creatures && creatures[id] == room.residents[id]
      {
        assert id in (players.byObject + room.residents);
      }
    }

    /** An attack that is not on cooldown, with its announcement: `struck` is what the damage has
        made of the room. */
    method Swing(player: Creature, now: nat) returns (hit: Creature?)
      requires Core() && Table() && NobodyDead()
      requires player.id in players.byObject && players.byObject[player.id] == player && player.id in room.residents
      modifies player`lastAttackTick, room.residents.Values`hp, room.residents.Values`hasDied, net, `bodies, `avatars
      ensures Core() && player.id in old(avatars)
      ensures Aimed(old(bodies), player.pos, hit)
      ensures avatars == Broadcast(room.near, bodies,
                                   old(avatars)[player.id := old(avatars)[player.id].(lastAttack := now)],
                                   player.pos, None, Notice(player.id, hit))
      ensures forall id :: id in creatures && (hit == null || id != hit.id || hit.hp > 0) ==> !creatures[id].hasDied
      ensures Outside() == old(Outside())
    {
      hide *;
      CoreParts();
      hit := Aim(player, now);
      NoticeSays(player.id, hit);
      ReportAttack(player.pos,
                   AttackNotice(player.id, if hit == null then 0 else hit.id, if hit == null then 0 else hit.hp));
    }

    /** The tick and the damage. */
    method Aim(player: Creature, now: nat) returns (hit: Creature?)
      requires Core() && Table() && NobodyDead()
      requires player.id in players.byObject && players.byObject[player.id] == player && player.id in room.residents
      modifies player`lastAttackTick, room.residents.Values`hp, room.residents.Values`hasDied, `bodies, `avatars
      ensures Cast() && AvatarsMirror() && room.Indexed() && player.id in old(avatars)
      ensures Aimed(old(bodies), player.pos, hit)
      ensures avatars == old(avatars)[player.id := old(avatars)[player.id].(lastAttack := now)]
      ensures forall id :: id in creatures && (hit == null || id != hit.id || hit.hp > 0) ==> !creatures[id].hasDied
    {
      hide *;
      CoreParts();
      FiledIds();
      NobodyInRoomDead();
      StampAttack(player, now);
      hit := HitFrom(player.pos);
    }

    /** The first monster in view that can be hit loses the damage. */
    method HitFrom(at: Pos) returns (hit: Creature?)
      requires Cast() && room.Indexed()
      requires forall id :: id in room.residents ==> room.residents[id].id == id && !room.residents[id].hasDied
      modifies room.residents.Values`hp, room.residents.Values`hasDied, `bodies
      ensures Cast() && room.Indexed() && Aimed(old(bodies), at, hit)
      ensures forall id ::
                id in room.residents && (hit == null || id != hit.id || hit.hp > 0) ==> !room.residents[id].hasDied
      ensures hit != null && hit.hp > 0 ==> !hit.hasDied
    {
      hide *;
      var ms := room.MonstersInView(at);
      hit := Strike(at, ms);
      AimedThere(old(bodies), at, hit);
    }

    method ReportAttack(at: Pos, packet: Packet)
      requires Cast() && AvatarsMirror() && room.Indexed()
      modifies net, `avatars
      ensures Core() && avatars == Broadcast(room.near, bodies, old(avatars), at, None, packet)
      ensures Outside() == old(Outside())
    {
      hide *;
      IndexedIsTabled();
      MirrorsAgain();
      Announce(at, packet, None, None);
      ReadyAgain();
    }

    /** What S_C_ATTACK says: the attacker, the monster hit (or 0) and the hit points it has left. */
    ghost function Notice(p: Id, hit: Creature?): Packet
      reads hit
    {
      if hit == null then AttackNotice(p, 0, 0) else AttackNotice(p, hit.id, hit.hp)
    }

    lemma NoticeSays(p: Id, hit: Creature?)
      ensures Notice(p, hit) == AttackNotice(p, if hit == null then 0 else hit.id, if hit == null then 0 else hit.hp)
    {}

    /** The monster hit, if there is one, could be hit and has lost the damage dealt; there is none
        only if none could be hit. */
    ghost predicate Aimed(before: map<Id, Body>, at: Pos, hit: Creature?)
      reads `bodies, room`residents, hit
    {
      if hit == null then bodies == before && forall m :: m in before ==> !CanHit(TheRules(), before, at, m)
      else
        && !hit.isPlayer && hit.id in room.residents && room.residents[hit.id] == hit
        && CanHit(TheRules(), before, at, hit.id)
        && bodies == Struck(TheRules(), before, Some(hit.id)) && bodies[hit.id] == Body.Monster(hit.pos, hit.hp)
        && (hit.hasDied <==> hit.hp <= 0)
    }

    lemma AimedThere(before: map<Id, Body>, at: Pos, hit: Creature?)
      requires hit == null ==> bodies == before && forall m :: m in before ==> !CanHit(TheRules(), before, at, m)
      requires hit != null ==>
                 && !hit.isPlayer && hit.id in room.residents && room.residents[hit.id] == hit
                 && CanHit(TheRules(), before, at, hit.id)
                 && bodies == before[hit.id := Body.Monster(hit.pos, hit.hp)]
                 && before[hit.id].pos == hit.pos && hit.hp == before[hit.id].hp - Dealt(TheRules(), before[hit.id].hp)
                 && (hit.hasDied <==> hit.hp <= 0)
      ensures Aimed(before, at, hit)
    {}

    lemma FiledIds()
      requires room.Indexed()
      ensures forall id :: id in room.residents ==> room.residents[id].id == id
    {}

    method RemoveMonster(monster: Creature)
      requires room.Indexed() && Cast()
      requires !monster.isPlayer && monster.id in room.residents && room.residents[monster.id] == monster
      modifies room`residents, room`files, room.zones, monster`roomId, monster`zoneIndex, `bodies
      ensures room.Indexed() && Cast()
      ensures bodies == old(bodies) - {monster.id} && room.residents == old(room.residents) - {monster.id}
    {
      hide *;
      room.IndexedParts();
      room.UnregisterCreature(monster);
      bodies := bodies - {monster.id};
      CastWithout(monster);
    }

    /** A creature has left the room. */
    twostate lemma CastWithout(c: Creature)
      requires old(Cast()) && room.residents == old(room.residents) - {c.id} && bodies == old(bodies) - {c.id}
      requires unchanged(players) && forall c :: c in players.byObject.Values ==> c.session == old(c.session)
      requires forall c :: c in room.residents.Values ==> c.pos == old(c.pos) && c.hp == old(c.hp)
      ensures Cast()
    {
      forall id | id in room.residents ensures room.residents[id].Body() == bodies[id] {
        assert room.residents[id] in room.residents.Values;
      }
      forall id | id in players.byObject
        ensures OwnConnection(players.byObject[id], id, players.accounts.bySession)
      {
        assert players.byObject[id] in players.byObject.Values;
        assert old(OwnConnection(players.byObject[id], id, players.accounts.bySession));
      }
    }

    /** HandleCreatureDeath, and the removal from the room and the creature table. */
    method Bury(monster: Creature)
      requires Core() && !monster.isPlayer && monster.id in room.residents && room.residents[monster.id] == monster
      modifies room`residents, room`files, room.zones, monster`roomId, monster`zoneIndex, net, `bodies, `avatars,
               `creatures
      ensures Core()
      ensures bodies == old(bodies) - {monster.id} && creatures == old(creatures) - {monster.id}
      ensures room.residents == old(room.residents) - {monster.id}
      ensures avatars == Broadcast(room.near, old(bodies), old(avatars), monster.pos, None, Die(monster.id))
      ensures Outside() == old(Outside())
    {
      hide *;
      CoreParts();
      Announce(monster.pos, Die(monster.id), None, None);
      RemoveMonster(monster);
      creatures := creatures - {monster.id};
      ReadyAgain();
    }

    /** A monster's departure concerns neither the registered players nor their states. */
    twostate lemma AfterDeath(monster: Creature)
      requires old(Core() && Playing() && Table()) && !monster.isPlayer && monster.id in old(room.residents)
      requires old(room.residents)[monster.id] == monster
      requires creatures == old(creatures) - {monster.id} && room.residents == old(room.residents) - {monster.id}
      requires players.byObject == old(players.byObject)
      requires forall id :: id in players.byObject && players.byObject[id] != monster ==>
                 players.byObject[id].state == old(players.byObject[id].state) &&
                 players.byObject[id].roomId == old(players.byObject[id].roomId)
      requires forall id :: id in creatures ==> !creatures[id].hasDied
      ensures Playing() && Table() && NobodyDead()
    {
      hide Room.Indexed, BodiesMirror, AvatarsMirror;
      assert forall id ::
          id in players.byObject ==> old(OwnConnection(players.byObject[id], id, players.accounts.bySession));
      forall id | id in players.byObject ensures PlayingOk(players.byObject[id], id in room.residents) {
        assert old(PlayingOk(players.byObject[id], id in room.residents));
      }
      assert creatures == players.byObject + room.residents;
    }

    lemma AllAlive()
      requires forall id :: id in creatures ==> !creatures[id].hasDied
      ensures NobodyDead()
    {}

    lemma StateNow()
      ensures Now() == State(bodies, avatars, players.nextId)
    {}

    lemma BodyOf(player: Creature)
      requires Core() && player.id in players.byObject && players.byObject[player.id] == player
      requires player.id in room.residents
      ensures player.id in Now().avatars && player.id in Now().bodies && Now().bodies[player.id].pos == player.pos
      ensures Now().avatars[player.id].lastAttack == player.lastAttackTick
      ensures Now().avatars[player.id].lastMove == player.lastMoveTick
      ensures Now() == State(bodies, avatars, players.nextId)
      ensures TheRules().stats == stats && TheRules().near == room.near
    {
      PlayerInGame(player);
    }

    /** Handle_C_S_ATTACK for a player in game; `target` is the monster that was hit. */
    method AttackAs(player: Creature, now: nat) returns (ghost target: Option<Id>)
      requires TheRules().Valid() && Core() && Playing() && Table() && NobodyDead()
      requires player.id in players.byObject && players.byObject[player.id] == player && player.id in room.residents
      modifies player`lastAttackTick, room.residents.Values`hp, room.residents.Values`hasDied,
               room.residents.Values`roomId, room.residents.Values`zoneIndex,
               room`residents, room`files, room.zones, net, `bodies, `avatars, `creatures
      ensures Core() && Playing() && Table() && NobodyDead()
      ensures IsStep(TheRules(), old(Now()), Attack(player.id, now, target), Now())
      ensures room.residents.Keys <= old(room.residents.Keys) && creatures.Values <= old(creatures.Values)
      ensures Outside() == old(Outside())
    {
      BodyOf(player);
      if TickDiff(now, player.lastAttackTick) < stats.cooldownMs {
        return None;
      }
      target := AttackNow(player, now);
    }

    method AttackNow(player: Creature, now: nat) returns (ghost target: Option<Id>)
      requires TheRules().Valid() && Core() && Playing() && Table() && NobodyDead()
      requires player.id in players.byObject && players.byObject[player.id] == player && player.id in room.residents
      requires !OnCooldown(TheRules(), avatars[player.id], now)
      modifies player`lastAttackTick, room.residents.Values`hp, room.residents.Values`hasDied,
               room.residents.Values`roomId, room.residents.Values`zoneIndex,
               room`residents, room`files, room.zones, net, `bodies, `avatars, `creatures
      ensures Core() && Playing() && Table() && NobodyDead()
      ensures IsStep(TheRules(), old(Now()), Attack(player.id, now, target), Now())
      ensures room.residents.Keys <= old(room.residents.Keys) && creatures.Values <= old(creatures.Values)
      ensures Outside() == old(Outside())
    {
      hide *;
      BodyOf(player);
      ghost var at := player.pos;
      var hit := Swing(player, now);
      target := if hit == null then None else Some(hit.id);
      ghost var struck, noticed := bodies, avatars;
      AttackHere(old(Now()), player.id, at, now, hit, noticed);
      if hit != null {
        AimedParts(old(bodies), at, hit);
      }
      if hit != null && hit.hasDied {
        Bury(hit);
        AfterDeath(hit);
        assert (old(creatures) - {hit.id}).Values <= old(creatures).Values;
      } else {
        AllAlive();
      }
      StateNow();
    }

    lemma AimedParts(before: map<Id, Body>, at: Pos, hit: Creature)
      requires Aimed(before, at, hit)
      ensures !hit.isPlayer && hit.id in room.residents && room.residents[hit.id] == hit
      ensures hit.hasDied <==> hit.hp <= 0
    {}

    /** The announcements of the handler and those of the machine. */
    lemma AttackHere(s: State, p: Id, at: Pos, now: nat, hit: Creature?, noticed: map<Id, Avatar>)
      requires TheRules().Valid() && p in s.avatars && p in s.bodies && s.bodies[p].pos == at
      requires !OnCooldown(TheRules(), s.avatars[p], now) && Aimed(s.bodies, at, hit)
      requires noticed == Broadcast(room.near, bodies, s.avatars[p := s.avatars[p].(lastAttack := now)], at, None,
                                    Notice(p, hit))
      ensures var target := if hit == null then None else Some(hit.id);
              IsStep(TheRules(), s, Attack(p, now, target),
                     if hit != null && hit.hasDied then
                       State(bodies - {hit.id}, Broadcast(room.near, bodies, noticed, hit.pos, None, Die(hit.id)),
                             s.nextId)
                     else State(bodies, noticed, s.nextId))
    {
      hide Broadcast;
    }

    // ---------- Whole requests: one step of the machine each ----------

    ghost predicate MapAgrees()
      reads collision, collision.blocked
    {
      TheRules().Valid() && collision.Valid() && collision.View() == tiles
    }

    /** The three tables of the registry are in bijection. */
    ghost predicate Registered()
      reads players, players.byObject.Values`session
    {
      players.Valid() && players.accounts.OneToOne()
    }

    ghost predicate Ids()
      reads room`residents, players`nextId
    {
      forall id :: id in room.residents ==> id < players.nextId
    }

    /** Clients that are not logged in have been sent nothing but refusals and old login answers. */
    ghost predicate Strangers()
      reads net, players`accounts
    {
      forall s :: s in Outside() ==> AllHarmless(Outside()[s])
    }

    ghost predicate Settled()
      reads this, room, room.zones, room.residents.Values, room.players.Values, players, players.byObject.Values,
            creatures.Values, net, collision, collision.blocked
    {
      Core() && Playing() && Table() && NobodyDead() && Registered() && Ids() && Strangers() && MapAgrees()
    }

    /** The part of Settled that does not depend on what has been sent. */
    ghost predicate Ordered()
      reads this, room, room.zones, room.residents.Values, players, players.byObject.Values, creatures.Values,
            collision, collision.blocked
    {
      Cast() && room.Indexed() && Playing() && Table() && NobodyDead() && Registered() && Ids() && MapAgrees()
    }

    lemma OrderedParts()
      requires Settled()
      ensures Ordered() && AvatarsMirror() && OwnConnections() && Strangers()
      ensures Now() == State(bodies, avatars, players.nextId)
    {}

    lemma SettledWhenOrdered()
      requires Ordered() && AvatarsMirror() && Strangers()
      ensures Settled() && Now() == State(bodies, avatars, players.nextId)
    {}

    lemma SettledParts()
      requires Settled()
      ensures Cast() && Core() && Playing() && Table() && NobodyDead() && Registered() && Ids() && Strangers()
      ensures MapAgrees() && TheRules().Valid()
    {}

    lemma SettledAgain()
      requires Core() && Playing() && Table() && NobodyDead() && Registered() && Ids() && Strangers() && MapAgrees()
      ensures Settled()
    {}

    /** A registered player has entered: table and ids still fit. */
    lemma TableWith(player: Creature, before: map<Id, Creature>)
      requires creatures == players.byObject + before && room.residents == before[player.id := player]
      requires player.id in players.byObject && players.byObject[player.id] == player
      requires player.id in before ==> before[player.id] == player
      ensures Table()
    {
      assert creatures == players.byObject + room.residents;
    }

    method EnterAs(player: Creature) returns (ghost order: seq<Id>)
      requires Settled() && player.id in players.byObject && players.byObject[player.id] == player
      modifies room`players, room`residents, room`files, room.zones, player`pos, player`roomId, player`zoneIndex,
               player`state, player`lastMoveTick, net, `bodies, `avatars
      ensures Settled() && IsStep(TheRules(), old(Now()), EntryEvent(player.id, order), Now())
      ensures Outside() == old(Outside())
      ensures net.wire.Keys == old(net.wire.Keys)
    {
      hide *;
      SettledParts();
      WireKeys();
      order := EnterGame(player);
      AfterEnter(player);
      SettledAgain();
      WireKeys();
    }

    twostate lemma AfterEnter(player: Creature)
      requires old(Table() && Ids() && Strangers() && Registered() && Cast())
      requires player.id in players.byObject && players.byObject[player.id] == player
      requires players.byObject == old(players.byObject)
      requires creatures == old(creatures)
      requires room.residents == old(room.residents) || room.residents == old(room.residents)[player.id := player]
      requires players.nextId == old(players.nextId) && Outside() == old(Outside())
      ensures Table() && Ids() && Strangers()
    {
      hide BodiesMirror, OwnConnections;
      if room.residents != old(room.residents) {
        TableWith(player, old(room.residents));
      }
    }

    method LeaveAs(player: Creature)
      requires Settled() && player.id in players.byObject && players.byObject[player.id] == player
      modifies room`players, room`residents, room`files, room.zones, player`roomId, player`zoneIndex, player`state,
               player`lastMoveTick, net, `bodies, `avatars
      ensures Settled() && IsStep(TheRules(), old(Now()), Event.Leave(player.id), Now())
      ensures player.id !in room.residents && Outside() == old(Outside())
      ensures net.wire.Keys == old(net.wire.Keys)
    {
      hide *;
      SettledParts();
      WireKeys();
      LeaveGame(player);
      AfterLeave(player);
      SettledAgain();
      ghost var left := Now();
      Answer(player, LeaveReply(true));
      LeaveIsStep(old(Now()), left, Now(), player.id);
      WireKeys();
    }

    method Answer(player: Creature, packet: Packet)
      requires Settled() && player.id in players.byObject && players.byObject[player.id] == player
      modifies net, `avatars
      ensures Settled() && Outside() == old(Outside())
      ensures player.id in old(Now()).avatars && Now() == Tell(old(Now()), player.id, packet)
    {
      hide *;
      OrderedParts();
      OwnLine(player);
      TellHere(player.id, packet);
      SendTo(player, packet);
      SameStrangers();
      SettledWhenOrdered();
    }

    lemma TellHere(p: Id, packet: Packet)
      requires p in avatars
      ensures p in Now().avatars
      ensures Tell(Now(), p, packet) == State(bodies, avatars[p := avatars[p].Told(packet)], players.nextId)
    {}

    /** The departure and the answer together. */
    lemma LeaveIsStep(s: State, left: State, t: State, p: Id)
      requires TheRules().Valid() && p in s.avatars && left == Quit(TheRules(), s, p) && p in left.avatars
      requires t == Tell(left, p, LeaveReply(true))
      ensures IsStep(TheRules(), s, Event.Leave(p), t)
    {
      hide Quit, Tell;
    }

    twostate lemma AfterLeave(player: Creature)
      requires old(Table() && Ids() && Strangers() && Cast())
      requires player.id in players.byObject && players.byObject[player.id] == player
      requires players.byObject == old(players.byObject)
      requires creatures == old(creatures) && room.residents == old(room.residents) - {player.id}
      requires players.nextId == old(players.nextId) && Outside() == old(Outside())
      ensures Table() && Ids() && Strangers()
    {
      hide BodiesMirror, OwnConnections;
      assert creatures == players.byObject + room.residents;
    }

    method MoveAs(player: Creature, client: Pos, now: nat, root: real) returns (ghost order: seq<Id>)
      requires Settled() && player.id in players.byObject && players.byObject[player.id] == player
      requires player.id in room.residents
      requires IsRoot(root, DistSq(player.pos, client))
      modifies room`files, room.zones, player`pos, player`zoneIndex, player`lastMoveTick, net, `bodies, `avatars
      ensures Settled() && IsStep(TheRules(), old(Now()), Move(player.id, client, now, root, order), Now())
      ensures Outside() == old(Outside())
      ensures net.wire.Keys == old(net.wire.Keys)
    {
      hide *;
      SettledParts();
      WireKeys();
      MapFacts();
      BodyOf(player);
      ghost var from, last := player.pos, player.lastMoveTick;
      order := MovePlayer(player, client, now, root);
      MoveIsStep(old(Now()), Now(), player.id, from, last, client, now, root, order);
      StillThere();
      SettledAgain();
      WireKeys();
    }

    lemma MapFacts()
      requires MapAgrees()
      ensures collision.Valid() && collision.View() == tiles && tiles.Valid()
    {}

    lemma MoveIsStep(s: State, t: State, p: Id, from: Pos, last: nat, client: Pos, now: nat, root: real, order: seq<Id>)
      requires TheRules().Valid() && p in s.bodies && p in s.avatars && s.bodies[p].pos == from
      requires s.avatars[p].lastMove == last
      requires IsRoot(root, DistSq(from, client))
      requires MovedTo(s, t, p, now, from,
                       ValidateClientPosition(tiles, from, client, stats.moveSpeed, EffectiveDelta(last, now), root),
                       order)
      ensures IsStep(TheRules(), s, Move(p, client, now, root, order), t)
    {
      hide ValidateClientPosition, Moved, EffectiveDelta, ListsAround, Listing;
    }

    /** Nobody entered, left, died, logged in or out. */
    twostate lemma StillThere()
      requires old(Table() && Ids() && Strangers())
      requires creatures == old(creatures) && room.residents == old(room.residents)
      requires players.byObject == old(players.byObject)
      requires players.nextId == old(players.nextId) && Outside() == old(Outside())
      ensures Table() && Ids() && Strangers()
    {}

    method AttackStep(player: Creature, now: nat) returns (ghost target: Option<Id>)
      requires Settled() && player.id in players.byObject && players.byObject[player.id] == player
      requires player.id in room.residents
      modifies player`lastAttackTick, room.residents.Values`hp, room.residents.Values`hasDied,
               room.residents.Values`roomId, room.residents.Values`zoneIndex,
               room`residents, room`files, room.zones, net, `bodies, `avatars, `creatures
      ensures Settled() && IsStep(TheRules(), old(Now()), Attack(player.id, now, target), Now())
      ensures Outside() == old(Outside()) && creatures.Values <= old(creatures.Values)
      ensures net.wire.Keys == old(net.wire.Keys)
    {
      hide *;
      SettledParts();
      WireKeys();
      target := AttackAs(player, now);
      AfterAttack();
      SettledAgain();
      WireKeys();
    }

    twostate lemma AfterAttack()
      requires old(Ids() && Strangers())
      requires room.residents.Keys <= old(room.residents.Keys) && players.nextId == old(players.nextId)
      requires Outside() == old(Outside())
      ensures Ids() && Strangers()
    {}

    // ---------- Connections, logins and logouts ----------

    /** The open connections: those of the registered players, and the others. */
    lemma WireKeys()
      requires Settled()
      ensures net.wire.Keys == Outside().Keys + players.accounts.bySession.Keys
    {
      forall s | s in players.accounts.bySession ensures s in net.wire {
        Bound(s);
      }
    }

    /** Who owns a connection. */
    lemma Bound(session: SessionId)
      requires Settled() && session in players.accounts.bySession
      ensures var p := players.accounts.bySession[session];
              && p in players.byObject && players.byObject[p].id == p && players.byObject[p].session == Some(session)
              && p in avatars && session in net.wire
    {
      var p := players.accounts.bySession[session];
      assert Carries(players.byObject[p], p, players.accounts.byObject[p]);
      assert AvatarOk(players.byObject[p], avatars[p]);
    }

    /** A connection without a player has been sent a packet that changes no picture. */
    twostate lemma StrangerTold(new session: SessionId, new packet: Packet)
      requires old(AvatarsMirror() && OwnConnections() && Strangers()) && Harmless(packet)
      requires session in old(net.wire) && session !in players.accounts.bySession
      requires net.wire == old(net.wire)[session := old(net.wire)[session] + [packet]]
      requires unchanged(this) && unchanged(players) && forall c :: c in players.byObject.Values ==> unchanged(c)
      ensures AvatarsMirror() && Strangers()
    {
      forall id | id in players.byObject ensures AvatarOk(players.byObject[id], avatars[id]) {
        assert players.byObject[id] in players.byObject.Values;
        assert old(AvatarOk(players.byObject[id], avatars[id]) &&
                   OwnConnection(players.byObject[id], id, players.accounts.bySession));
      }
      forall s | s in Outside() ensures AllHarmless(Outside()[s]) {
        assert s in old(Outside()) && old(Outside())[s] == old(net.wire)[s];
      }
    }

    twostate lemma SameStrangers()
      requires old(Strangers()) && Outside() == old(Outside())
      ensures Strangers()
    {}

    /** An answer to a connection without a player. */
    method Refuse(session: SessionId, packet: Packet)
      requires Settled() && session in net.wire && session !in players.accounts.bySession && Harmless(packet)
      modifies net
      ensures Settled() && Now() == old(Now())
      ensures net.wire == old(net.wire)[session := old(net.wire)[session] + [packet]]
    {
      hide *;
      OrderedParts();
      net.Send(session, packet);
      StrangerTold(session, packet);
      SettledWhenOrdered();
    }

    /** A new connection: nothing has been sent on it. */
    method Connect(session: SessionId)
      requires Settled() && session !in net.wire
      modifies net
      ensures Settled() && Now() == old(Now()) && net.wire == old(net.wire)[session := []]
    {
      hide *;
      OrderedParts();
      Connected(session);
      SettledWhenOrdered();
    }

    method Connected(session: SessionId)
      requires AvatarsMirror() && Strangers() && session !in net.wire
      modifies net
      ensures AvatarsMirror() && Strangers()
      ensures net.wire == old(net.wire)[session := []]
    {
      net.Open(session);
      forall id | id in players.byObject ensures AvatarOk(players.byObject[id], avatars[id]) {
        assert old(AvatarOk(players.byObject[id], avatars[id]));
      }
      forall s | s in Outside() ensures AllHarmless(Outside()[s]) {
        assert s != session ==> s in old(Outside()) && old(Outside())[s] == net.wire[s];
      }
    }

    /** A connection without a player goes away. */
    method Drop(session: SessionId)
      requires Settled() && session !in players.accounts.bySession
      modifies net
      ensures Settled() && Now() == old(Now()) && net.wire == old(net.wire) - {session}
    {
      hide *;
      OrderedParts();
      Dropped(session);
      SettledWhenOrdered();
    }

    method Dropped(session: SessionId)
      requires AvatarsMirror() && OwnConnections() && Strangers() && session !in players.accounts.bySession
      modifies net
      ensures AvatarsMirror() && Strangers()
      ensures net.wire == old(net.wire) - {session}
    {
      net.Close(session);
      forall id | id in players.byObject ensures AvatarOk(players.byObject[id], avatars[id]) {
        assert old(AvatarOk(players.byObject[id], avatars[id]));
        assert OwnConnection(players.byObject[id], id, players.accounts.bySession);
      }
      forall s | s in Outside() ensures AllHarmless(Outside()[s]) {
        assert s in old(Outside()) && old(Outside())[s] == net.wire[s];
      }
    }

    /** Handle_C_S_LOGIN. A second login on a connection that has a player goes through, and with
        it the connection loses its first player: exactly then the objects are out of order. */
    method LoginAs(session: SessionId, name: string) returns (player: Creature?)
      requires Settled() && session in net.wire
      modifies players, net, `avatars, `creatures
      ensures players.accounts == old(players.accounts).Login(session, name)
      ensures player == null <==> name == "" || name in old(players.byName)
      ensures net.wire == old(net.wire)[session := old(net.wire)[session] + [LoginReply(player != null)]]
      ensures fresh(creatures.Values - old(creatures.Values))
      ensures Settled() <==> !old(LogsInAgain(players.accounts, LoginRequest(session, name)))
      ensures !old(LogsInAgain(players.accounts, LoginRequest(session, name))) ==>
                if player != null then
                  IsStep(TheRules(), old(Now()), Event.Login(player.id, old(net.wire)[session]), Now())
                else if session in old(players.accounts.bySession) then
                  IsStep(TheRules(), old(Now()), LoginRefused(old(players.accounts.bySession)[session]), Now())
                else Now() == old(Now())
    {
      hide *;
      ghost var again := LogsInAgain(players.accounts, LoginRequest(session, name));
      SettledParts();
      LoginFacts(session, name);
      StateNow();
      player := SignIn(session, name);
      ghost var signed := Now();
      AnswerLogin(session, player != null, again);
      if !again {
        if player != null {
          LoginIsStep(old(Now()), old(net.wire)[session], signed, Now());
        } else if session in old(players.accounts.bySession) {
          RefusalIsStep(old(Now()), old(players.accounts.bySession)[session], Now());
        }
      }
    }

    lemma LoginIsStep(s: State, before: seq<Packet>, signed: State, t: State)
      requires TheRules().Valid() && AllHarmless(before)
      requires signed == State(s.bodies, s.avatars[s.nextId := Avatar(before, 0, 0)], s.nextId + 1)
      requires t == Tell(signed, s.nextId, LoginReply(true))
      ensures IsStep(TheRules(), s, Event.Login(s.nextId, before), t)
    {
      hide AllHarmless;
      UpdateTwice(s.avatars, s.nextId, Avatar(before, 0, 0), Avatar(before + [LoginReply(true)], 0, 0));
    }

    lemma RefusalIsStep(s: State, p: Id, t: State)
      requires TheRules().Valid() && p in s.avatars && t == Tell(s, p, LoginReply(false))
      ensures IsStep(TheRules(), s, LoginRefused(p), t)
    {}

    /** The answer goes to whoever the connection belongs to now. */
    method AnswerLogin(session: SessionId, success: bool, ghost again: bool)
      requires session in net.wire && (if again then !Registered() else Settled())
      modifies net, `avatars
      ensures net.wire == old(net.wire)[session := old(net.wire)[session] + [LoginReply(success)]]
      ensures Settled() <==> !again
      ensures !again ==>
                if session in players.accounts.bySession then
                  var p := players.accounts.bySession[session];
                  p in old(Now()).avatars && Now() == Tell(old(Now()), p, LoginReply(success))
                else Now() == old(Now())
    {
      hide *;
      if !again {
        OrderedParts();
      }
      if !again && session in players.accounts.bySession {
        Bound(session);
        TellHere(players.accounts.bySession[session], LoginReply(success));
      }
      net.Send(session, LoginReply(success));
      if again {
        Unsettled();
      } else if session in players.accounts.bySession {
        ghost var p := players.accounts.bySession[session];
        avatars := avatars[p := avatars[p].Told(LoginReply(success))];
        OneTold(players.byObject[p], LoginReply(success));
        SameStrangers();
        SettledWhenOrdered();
      } else {
        StrangerTold(session, LoginReply(success));
        SettledWhenOrdered();
      }
    }

    lemma Unsettled()
      requires !Registered()
      ensures !Settled()
    {}

    method SignIn(session: SessionId, name: string) returns (player: Creature?)
      requires Settled() && session in net.wire
      modifies players, `avatars, `creatures
      ensures players.accounts == old(players.accounts).Login(session, name)
      ensures player == null <==> name == "" || name in old(players.byName)
      ensures fresh(creatures.Values - old(creatures.Values))
      ensures if old(LogsInAgain(players.accounts, LoginRequest(session, name))) then !Registered() else Settled()
      ensures !old(LogsInAgain(players.accounts, LoginRequest(session, name))) ==>
                if player == null then Now() == old(Now())
                else
                  && player.id == old(players.nextId)
                  && Now() == State(old(bodies), old(avatars)[player.id := Avatar(old(net.wire)[session], 0, 0)],
                                    old(players.nextId) + 1)
    {
      hide *;
      ghost var again := LogsInAgain(players.accounts, LoginRequest(session, name));
      LoginFacts(session, name);
      player := Enroll(session, name);
      if !again {
        if player == null {
          LoginRefusal();
        } else {
          AfterLogin(player, session);
        }
      }
    }

    twostate lemma AfterLogin(new player: Creature, new session: SessionId)
      requires session in old(net.wire) && unchanged(room) && unchanged(net)
      requires forall c :: c in room.residents.Values ==> c.pos == old(c.pos) && c.hp == old(c.hp)
      requires forall c :: c in old(players.byObject.Values) ==> unchanged(c)
      requires forall c :: c in old(creatures.Values) ==> c.hasDied == old(c.hasDied)
      requires room.Indexed() && Registered() && MapAgrees() && SignedIn(player, session) && old(Settled())
      ensures Settled()
      ensures Now() == State(old(bodies), old(avatars)[player.id := Avatar(old(net.wire)[session], 0, 0)],
                             old(players.nextId) + 1)
    {
      hide Room.Indexed, AvatarsMirror, Cast, Playing, Table, NobodyDead, Registered, Ids, Strangers, MapAgrees;
      SignedInHere(player, session);
      LoginCast(player, session);
      LoginAvatars(player, session);
      LoginTables(player, session);
    }

    twostate lemma SignedInHere(new player: Creature, new session: SessionId)
      requires SignedIn(player, session) && forall c :: c in old(players.byObject.Values) ==> unchanged(c)
      ensures player.id !in old(players.byObject) && player.id == old(players.nextId)
      ensures Now() == State(old(bodies), old(avatars)[player.id := Avatar(old(net.wire)[session], 0, 0)],
                             old(players.nextId) + 1)
      ensures forall id :: id in old(players.byObject) ==>
                players.byObject[id] in old(players.byObject.Values) &&
                players.byObject[id] == old(players.byObject)[id]
    {}

    /** PlayerManager::Login, with the entries of the creature table and of the machine. */
    method Enroll(session: SessionId, name: string) returns (player: Creature?)
      requires players.Valid() && session in net.wire
      modifies players, `avatars, `creatures
      ensures players.accounts == old(players.accounts).Login(session, name)
      ensures Registered() <==> old(players.accounts).Login(session, name).OneToOne()
      ensures player == null <==> name == "" || name in old(players.byName)
      ensures player == null ==>
                unchanged(this) && players.byObject == old(players.byObject) && players.nextId == old(players.nextId)
      ensures player != null && session !in old(players.accounts.bySession) ==> SignedIn(player, session)
      ensures player != null ==>
                && player.id == old(players.nextId) && player.id !in old(players.byObject)
                && players.nextId == old(players.nextId) + 1
                && players.byObject == old(players.byObject)[player.id := player]
                && creatures == old(creatures)[player.id := player]
                && avatars == old(avatars)[player.id := Avatar(net.wire[session], 0, 0)]
      ensures fresh(creatures.Values - old(creatures.Values))
    {
      hide *;
      players.Parts();
      LoginSessions(players.accounts, session, name);
      player := players.Login(session, name);
      RegisteredIff();
      if player != null {
        creatures := creatures[player.id := player];
        avatars := avatars[player.id := Avatar(net.wire[session], 0, 0)];
        NowSignedIn(player, session);
      }
    }

    lemma LoginSessions(a: Accounts, session: SessionId, name: string)
      ensures name != "" && name !in a.byName ==> a.Login(session, name).bySession == a.bySession[session := a.nextId]
    {}

    lemma RegisteredIff()
      requires players.Valid()
      ensures Registered() <==> players.accounts.OneToOne()
    {}

    twostate lemma NowSignedIn(new player: Creature, new session: SessionId)
      requires session in old(net.wire) && player.id == old(players.nextId) && player.id !in old(players.byObject)
      requires players.byObject == old(players.byObject)[player.id := player]
      requires players.nextId == old(players.nextId) + 1
      requires player.isPlayer && player.session == Some(session) && player.state == Lobby && player.roomId == 0
      requires !player.hasDied
      requires player.lastMoveTick == 0 && player.lastAttackTick == 0
      requires players.accounts.bySession == old(players.accounts.bySession)[session := player.id]
      requires creatures == old(creatures)[player.id := player]
      requires avatars == old(avatars)[player.id := Avatar(old(net.wire)[session], 0, 0)] && bodies == old(bodies)
      ensures session !in old(players.accounts.bySession) ==> SignedIn(player, session)
    {}

    lemma LoginFacts(session: SessionId, name: string)
      requires Settled() && session in net.wire
      ensures players.Valid() && room.Indexed() && MapAgrees()
      ensures players.accounts.Login(session, name).OneToOne() <==>
                !LogsInAgain(players.accounts, LoginRequest(session, name))
      ensures name == "" || name in players.byName ==> players.accounts.Login(session, name) == players.accounts
      ensures !LogsInAgain(players.accounts, LoginRequest(session, name)) && name != "" && name !in players.byName ==>
                && session !in players.accounts.bySession && AllHarmless(net.wire[session])
                && session in players.accounts.Login(session, name).bySession
                && players.accounts.Login(session, name).bySession[session] == players.nextId
    {
      hide AllHarmless;
      ServeOneToOne(players.accounts, LoginRequest(session, name));
      assert session !in players.accounts.bySession ==> session in Outside() && Outside()[session] == net.wire[session];
    }

    /** Nothing has happened. */
    twostate lemma LoginRefusal()
      requires old(Settled()) && players.byObject == old(players.byObject) && players.accounts == old(players.accounts)
      requires players.nextId == old(players.nextId) && unchanged(this) && unchanged(room) && unchanged(net)
      requires room.Indexed() && Registered() && MapAgrees()
      requires forall id :: id in room.residents ==> unchanged(room.residents[id])
      requires forall id :: id in players.byObject ==> unchanged(players.byObject[id])
      requires forall id :: id in creatures ==> creatures[id].hasDied == old(creatures[id].hasDied)
      ensures Settled() && Now() == old(Now())
    {
      hide Room.Indexed, Registered, MapAgrees;
      assert Outside() == old(Outside());
      forall id | id in players.byObject
        ensures AvatarOk(players.byObject[id], avatars[id]) && PlayingOk(players.byObject[id], id in room.residents)
      {
        assert old(AvatarOk(players.byObject[id], avatars[id]) &&
                   PlayingOk(players.byObject[id], id in room.residents));
      }
    }

    /** `player` has just been registered under a new id with its own connection. */
    twostate predicate SignedIn(new player: Creature, session: SessionId)
      reads this, players, player
    {
      && session in old(net.wire)
      && players.byObject == old(players.byObject)[player.id := player] && player.id == old(players.nextId)
      && player.id !in old(players.byObject)
      && player.isPlayer && player.session == Some(session) && player.state == Lobby && player.roomId == 0
      && !player.hasDied
      && player.lastMoveTick == 0 && player.lastAttackTick == 0
      && players.accounts.bySession == old(players.accounts.bySession)[session := player.id]
      && session !in old(players.accounts.bySession)
      && players.nextId == old(players.nextId) + 1
      && creatures == old(creatures)[player.id := player]
      && avatars == old(avatars)[player.id := Avatar(old(net.wire)[session], 0, 0)] && bodies == old(bodies)
    }

    twostate lemma LoginCast(new player: Creature, session: SessionId)
      requires old(Cast() && Ids()) && SignedIn(player, session) && unchanged(room)
      requires forall id :: id in room.residents ==>
                 room.residents[id].pos == old(room.residents[id].pos) &&
                 room.residents[id].hp == old(room.residents[id].hp)
      requires forall id ::
                id in old(players.byObject) ==> players.byObject[id].session == old(players.byObject[id].session)
      ensures Cast() && Ids()
    {}

    twostate lemma LoginAvatars(new player: Creature, session: SessionId)
      requires old(AvatarsMirror() && Strangers() && session in net.wire) && SignedIn(player, session) && unchanged(net)
      requires forall id :: id in old(players.byObject) ==>
                 players.byObject[id].session == old(players.byObject[id].session)
                 && players.byObject[id].lastMoveTick == old(players.byObject[id].lastMoveTick)
                 && players.byObject[id].lastAttackTick == old(players.byObject[id].lastAttackTick)
      ensures AvatarsMirror() && Strangers()
    {
      assert session in old(Outside()) && old(Outside())[session] == net.wire[session];
      forall id | id in players.byObject ensures AvatarOk(players.byObject[id], avatars[id]) {
        if id != player.id {
          assert old(AvatarOk(players.byObject[id], avatars[id]));
        }
      }
      forall s | s in Outside() ensures AllHarmless(Outside()[s]) {
        assert s in old(Outside()) && old(Outside())[s] == net.wire[s];
      }
    }

    twostate lemma LoginTables(new player: Creature, session: SessionId)
      requires old(Playing() && Table() && NobodyDead() && Ids()) && SignedIn(player, session) && unchanged(room)
      requires forall id :: id in old(players.byObject) ==>
                 players.byObject[id].state == old(players.byObject[id].state) &&
                 players.byObject[id].roomId == old(players.byObject[id].roomId)
      requires forall c :: c in old(creatures.Values) ==> c.hasDied == old(c.hasDied)
      ensures Playing() && Table() && NobodyDead()
    {
      assert player.id !in room.residents;
      assert creatures == players.byObject + room.residents;
      forall id | id in players.byObject ensures PlayingOk(players.byObject[id], id in room.residents) {
        if id != player.id {
          assert old(PlayingOk(players.byObject[id], id in room.residents));
        }
      }
    }

    /** OnDisconnected with a logged-in player: PlayerManager::Logout, and the connection is gone. */
    method LogoutAs(player: Creature, session: SessionId)
      requires Settled() && player.id in players.byObject && players.byObject[player.id] == player
      requires player.session == Some(session)
      modifies room`players, room`residents, room`files, room.zones, player`roomId, player`zoneIndex, player`state,
               player`lastMoveTick, player`session, players, net, `bodies, `avatars, `creatures
      ensures Settled() && IsStep(TheRules(), old(Now()), Event.Logout(player.id), Now())
      ensures players.accounts == old(players.accounts.Logout(session))
      ensures net.wire.Keys == old(net.wire.Keys) - {session}
      ensures creatures.Values <= old(creatures.Values)
    {
      hide *;
      SettledParts();
      LogoutFacts();
      WireKeys();
      LeaveGame(player);
      AfterLeave(player);
      SettledAgain();
      WireKeys();
      ghost var left := Now();
      SignOut(player, session);
      LogoutIsStep(old(Now()), left, Now(), player.id);
    }

    lemma LogoutFacts()
      requires Settled()
      ensures players.accounts.Consistent()
    {}

    lemma LogoutIsStep(s: State, left: State, t: State, p: Id)
      requires TheRules().Valid() && p in s.avatars && left == Quit(TheRules(), s, p)
      requires t == left.(avatars := left.avatars - {p})
      ensures IsStep(TheRules(), s, Event.Logout(p), t)
    {
      hide Quit;
    }

    method SignOut(player: Creature, session: SessionId)
      requires Settled() && player.id in players.byObject && players.byObject[player.id] == player
      requires player.session == Some(session)
      requires player.id !in room.residents
      modifies player`state, player`session, players, net, `avatars, `creatures
      ensures Settled() && player.id in old(Now()).avatars
      ensures Now() == old(Now()).(avatars := old(Now()).avatars - {player.id})
      ensures players.accounts == old(players.accounts.Logout(session)) && net.wire == old(net.wire) - {session}
      ensures creatures.Values <= old(creatures.Values)
    {
      hide *;
      SettledParts();
      CoreParts();
      SignOutFacts(player, session);
      Release(player, session);
      assert (old(creatures) - {player.id}).Values <= old(creatures).Values;
      AfterLogout(player);
      StateNow();
      SettledAgain();
    }

    twostate lemma AfterLogout(player: Creature)
      requires old(Cast() && AvatarsMirror() && OwnConnections() && Playing() && Table() && NobodyDead() && Ids() &&
                   Strangers())
      requires SignedOut(player) && unchanged(room) && player.id !in room.residents && room.Indexed()
      requires forall c :: c in room.residents.Values ==> c.pos == old(c.pos) && c.hp == old(c.hp)
      requires forall c :: c in players.byObject.Values && c != player ==>
                 c.session == old(c.session) && c.lastMoveTick == old(c.lastMoveTick) &&
                 c.lastAttackTick == old(c.lastAttackTick)
                 && c.state == old(c.state) && c.roomId == old(c.roomId)
      requires forall c :: c in creatures.Values ==> c.hasDied == old(c.hasDied)
      ensures Core() && Playing() && Table() && NobodyDead() && Ids() && Strangers()
    {
      hide Core, Mirror, Cast, AvatarsMirror, OwnConnections, Playing, Table, NobodyDead, Ids, Strangers, SignedOut,
           Room.Indexed;
      LogoutCast(player);
      LogoutAvatars(player);
      LogoutTables(player);
      ReadyAgain();
    }

    lemma SignOutFacts(player: Creature, session: SessionId)
      requires Settled() && player.id in players.byObject && players.byObject[player.id] == player
      requires player.session == Some(session)
      ensures players.Valid() && players.accounts.Consistent() && player.id in players.accounts.byObject
      ensures players.accounts.Logout(session) == players.accounts.Drop(player.id)
      ensures players.accounts.Drop(player.id).OneToOne()
      ensures players.accounts.Drop(player.id).bySession == players.accounts.bySession - {session}
      ensures player.id in Now().avatars
      ensures Now().(avatars := Now().avatars - {player.id}) == State(bodies, avatars - {player.id}, players.nextId)
    {
      assert OwnConnection(player, player.id, players.accounts.bySession);
      ServeOneToOne(players.accounts, Disconnected(session));
    }

    twostate predicate SignedOut(player: Creature)
      reads this, players, net
    {
      && player.id in old(players.byObject) && old(players.byObject)[player.id] == player && old(player.session).Some?
      && players.byObject == old(players.byObject) - {player.id} && players.nextId == old(players.nextId)
      && players.accounts.bySession == old(players.accounts.bySession) - {old(player.session).value}
      && creatures == old(creatures) - {player.id}
      && avatars == old(avatars) - {player.id} && bodies == old(bodies)
      && net.wire == old(net.wire) - {old(player.session).value}
    }

    method Release(player: Creature, session: SessionId)
      requires players.Valid() && player.id in players.byObject && players.byObject[player.id] == player
      requires player.session == Some(session)
      requires player.id in players.accounts.byObject && players.accounts.Drop(player.id).OneToOne()
      requires players.accounts.Drop(player.id).bySession == players.accounts.bySession - {session}
      modifies player`state, player`session, players, net, `avatars, `creatures
      ensures Registered() && players.accounts == old(players.accounts.Drop(player.id)) && SignedOut(player)
      ensures net.wire == old(net.wire) - {session} && creatures == old(creatures) - {player.id}
      ensures players.byObject == old(players.byObject) - {player.id}
      ensures avatars == old(avatars) - {player.id} && players.nextId == old(players.nextId)
    {
      hide PlayerManager.Valid, Accounts.Drop, Accounts.OneToOne, Accounts.Consistent;
      creatures := creatures - {player.id};
      avatars := avatars - {player.id};
      players.Unregister(player);
      net.Close(session);
    }

    twostate lemma LogoutCast(player: Creature)
      requires old(Cast() && Ids()) && SignedOut(player) && unchanged(room) && player.id !in room.residents
      requires forall id :: id in room.residents ==>
                 room.residents[id].pos == old(room.residents[id].pos) &&
                 room.residents[id].hp == old(room.residents[id].hp)
      requires forall c :: c in players.byObject.Values && c != player ==> c.session == old(c.session)
      ensures Cast() && Ids()
    {
      forall id | id in players.byObject
        ensures OwnConnection(players.byObject[id], id, players.accounts.bySession)
      {
        assert old(OwnConnection(players.byObject[id], id, players.accounts.bySession));
      }
    }

    twostate lemma LogoutAvatars(player: Creature)
      requires old(AvatarsMirror() && Strangers() && OwnConnections()) && SignedOut(player)
      requires forall c :: c in players.byObject.Values && c != player ==>
                 c.session == old(c.session) && c.lastMoveTick == old(c.lastMoveTick) &&
                 c.lastAttackTick == old(c.lastAttackTick)
      ensures AvatarsMirror() && Strangers()
    {
      forall id | id in players.byObject ensures AvatarOk(players.byObject[id], avatars[id]) {
        assert old(AvatarOk(players.byObject[id], avatars[id]) &&
                   OwnConnection(players.byObject[id], id, players.accounts.bySession));
        assert old(OwnConnection(player, player.id, players.accounts.bySession));
      }
      forall s | s in Outside() ensures AllHarmless(Outside()[s]) {
        assert s in old(Outside()) && old(Outside())[s] == net.wire[s];
      }
    }

    twostate lemma LogoutTables(player: Creature)
      requires old(Playing() && Table() && NobodyDead() && OwnConnections()) && SignedOut(player) && unchanged(room)
      requires player.id !in room.residents
      requires forall c ::
                c in players.byObject.Values && c != player ==> c.state == old(c.state) && c.roomId == old(c.roomId)
      requires forall c :: c in creatures.Values ==> c.hasDied == old(c.hasDied)
      ensures Playing() && Table() && NobodyDead()
    {
      assert creatures == players.byObject + room.residents;
      forall id | id in players.byObject ensures PlayingOk(players.byObject[id], id in room.residents) {
        assert old(PlayingOk(players.byObject[id], id in room.residents) &&
                   OwnConnection(players.byObject[id], id, players.accounts.bySession));
      }
    }

    // ---------- Start-up ----------

    /** InitDefaultRoom: every loaded entry becomes a monster of the room. */
    method InitDefaultRoom(spawns: seq<MonsterSpawn>)
      requires Settled() && Initial(Now()) && players.nextId == 1 && bodies == map[]
      modifies players, room`residents, room`files, room.zones, `creatures, `bodies
      ensures Settled() && Initial(Now()) && bodies == SpawnedBodies(spawns)
      ensures forall i :: 0 <= i < |spawns| ==>
                && i + 1 in bodies
                && bodies[i + 1] == Body.Monster(spawns[i].pos, if spawns[i].maxHp >= 0 then spawns[i].maxHp else 1)
      ensures players.byObject == old(players.byObject) && fresh(room.residents.Values - old(room.residents.Values))
      ensures fresh(creatures.Values - old(creatures.Values))
    {
      hide Settled;
      for i := 0 to |spawns|
        invariant Settled() && Initial(Now()) && players.nextId == i + 1 && bodies == SpawnedBodies(spawns[..i])
        invariant players.byObject == old(players.byObject) && fresh(room.residents.Values - old(room.residents.Values))
        invariant fresh(creatures.Values - old(creatures.Values))
      {
        SpawnMonster(spawns[i]);
        assert spawns[..i + 1][..i] == spawns[..i];
      }
      assert spawns[..|spawns|] == spawns;
    }

    /** CreatureManager::SpawnMonster and Room::RegisterCreature. */
    method SpawnMonster(entry: MonsterSpawn)
      requires Settled() && Initial(Now())
      modifies players, room`residents, room`files, room.zones, `creatures, `bodies
      ensures Settled() && Initial(Now())
      ensures players.nextId == old(players.nextId) + 1
      ensures bodies == old(bodies)[old(players.nextId) := Body.Monster(entry.pos, LoadedHp(entry.maxHp))]
      ensures players.byObject == old(players.byObject) && fresh(room.residents.Values - old(room.residents.Values))
      ensures fresh(creatures.Values - old(creatures.Values))
    {
      hide *;
      SpawnFacts();
      var monster := Populate(entry);
      AfterSpawn(monster);
      SpawnedInitially(monster, entry);
    }

    method Populate(entry: MonsterSpawn) returns (monster: Creature)
      requires room.Indexed() && players.Valid() && players.accounts.OneToOne() && MapAgrees()
      requires players.nextId !in room.residents && players.nextId !in players.byObject
      modifies players, room`residents, room`files, room.zones, `creatures, `bodies
      ensures room.Indexed() && Registered() && MapAgrees() && fresh(monster) && Spawned(monster)
      ensures monster.pos == entry.pos && monster.hp == LoadedHp(entry.maxHp)
      ensures players.byObject == old(players.byObject) && creatures == old(creatures)[monster.id := monster]
      ensures room.residents == old(room.residents)[monster.id := monster]
    {
      hide *;
      monster := Create(entry);
      Settle(monster);
      NowSpawned(monster);
      RegisteredAgain();
    }

    lemma RegisteredAgain()
      requires players.Valid() && players.accounts.OneToOne()
      ensures Registered()
    {}

    lemma SpawnFacts()
      requires Settled()
      ensures players.Valid() && players.accounts.OneToOne() && players.nextId !in room.residents
      ensures players.nextId !in players.byObject && room.Indexed() && MapAgrees()
    {}

    lemma LoadedIs(maxHp: int)
      ensures LoadedHp(maxHp) == if maxHp >= 0 then maxHp else 1
    {}

    /** A new monster under the next id, in the creature table. */
    method Create(entry: MonsterSpawn) returns (monster: Creature)
      requires players.Valid() && players.accounts.OneToOne()
      modifies players, `creatures
      ensures players.Valid() && players.accounts.OneToOne() && players.byObject == old(players.byObject)
      ensures players.accounts.bySession == old(players.accounts.bySession)
      ensures fresh(monster) && monster.id == old(players.nextId) && players.nextId == monster.id + 1
      ensures !monster.isPlayer && !monster.hasDied && monster.pos == entry.pos && monster.hp == LoadedHp(entry.maxHp)
      ensures creatures == old(creatures)[monster.id := monster]
    {
      hide *;
      var id := players.GenerateId();
      LoadedIs(entry.maxHp);
      monster := new Creature.Monster(id, entry.maxHp, entry.pos);
      creatures := creatures[id := monster];
    }

    /** Room::RegisterCreature for a monster that has just been created. */
    method Settle(monster: Creature)
      requires room.Indexed() && !monster.isPlayer && monster.id !in room.residents
      modifies room`residents, room`files, room.zones, monster`roomId, monster`zoneIndex, `bodies
      ensures room.Indexed() && room.residents == old(room.residents)[monster.id := monster]
      ensures bodies == old(bodies)[monster.id := monster.Body()]
    {
      hide *;
      room.IndexedParts();
      room.RegisterCreature(monster);
      bodies := bodies[monster.id := monster.Body()];
    }

    twostate predicate Spawned(new monster: Creature)
      reads this, players, room, monster
    {
      && monster.id == old(players.nextId) && players.nextId == monster.id + 1
      && monster.id !in old(room.residents) && monster.id !in old(players.byObject)
      && !monster.isPlayer && !monster.hasDied
      && room.residents == old(room.residents)[monster.id := monster]
      && players.byObject == old(players.byObject)
      && players.accounts.bySession == old(players.accounts.bySession)
      && creatures == old(creatures)[monster.id := monster]
      && bodies == old(bodies)[monster.id := monster.Body()] && avatars == old(avatars)
    }

    twostate lemma NowSpawned(new monster: Creature)
      requires monster.id == old(players.nextId) && players.nextId == monster.id + 1
      requires monster.id !in old(room.residents) && monster.id !in old(players.byObject) && !monster.isPlayer
      requires !monster.hasDied
      requires room.residents == old(room.residents)[monster.id := monster] && players.byObject == old(players.byObject)
      requires players.accounts.bySession == old(players.accounts.bySession)
      requires creatures == old(creatures)[monster.id := monster]
      requires bodies == old(bodies)[monster.id := monster.Body()] && avatars == old(avatars)
      ensures Spawned(monster)
    {}

    twostate lemma AfterSpawn(new monster: Creature)
      requires old(Settled()) && room.Indexed() && Registered() && MapAgrees() && Spawned(monster) && unchanged(net)
      requires forall c :: c in old(room.residents.Values) ==> c.pos == old(c.pos) && c.hp == old(c.hp)
      requires forall c :: c in players.byObject.Values ==> unchanged(c)
      requires forall c :: c in old(creatures.Values) ==> c.hasDied == old(c.hasDied)
      ensures Settled()
    {
      hide Spawned, Room.Indexed, AvatarsMirror, Cast, Playing, Table, NobodyDead, Registered, Ids, Strangers,
           MapAgrees;
      SpawnedCast(monster);
      SpawnedAvatars(monster);
      SpawnedTables(monster);
    }

    twostate lemma SpawnedCast(new monster: Creature)
      requires old(Cast() && Ids()) && Spawned(monster)
      requires forall c :: c in old(room.residents.Values) ==> c.pos == old(c.pos) && c.hp == old(c.hp)
      requires forall c :: c in players.byObject.Values ==> unchanged(c)
      ensures Cast() && Ids()
    {
      forall id | id in players.byObject
        ensures OwnConnection(players.byObject[id], id, players.accounts.bySession)
      {
        assert players.byObject[id] in players.byObject.Values;
        assert old(OwnConnection(players.byObject[id], id, players.accounts.bySession));
      }
    }

    twostate lemma SpawnedAvatars(new monster: Creature)
      requires old(AvatarsMirror() && Strangers()) && Spawned(monster) && unchanged(net)
      requires forall c :: c in players.byObject.Values ==> unchanged(c)
      ensures AvatarsMirror() && Strangers()
    {
      assert Outside() == old(Outside());
      forall id | id in players.byObject ensures AvatarOk(players.byObject[id], avatars[id]) {
        assert players.byObject[id] in players.byObject.Values;
        assert old(AvatarOk(players.byObject[id], avatars[id]));
      }
    }

    twostate lemma SpawnedTables(new monster: Creature)
      requires old(Playing() && Table() && NobodyDead()) && Spawned(monster)
      requires forall c :: c in players.byObject.Values ==> unchanged(c)
      requires forall c :: c in old(creatures.Values) ==> c.hasDied == old(c.hasDied)
      ensures Playing() && Table() && NobodyDead()
    {
      assert creatures == players.byObject + room.residents;
      forall id | id in players.byObject ensures PlayingOk(players.byObject[id], id in room.residents) {
        assert players.byObject[id] in players.byObject.Values;
        assert old(PlayingOk(players.byObject[id], id in room.residents));
      }
    }

    twostate lemma SpawnedInitially(new monster: Creature, entry: MonsterSpawn)
      requires old(Initial(Now())) && Spawned(monster) && monster.pos == entry.pos
      requires monster.hp == LoadedHp(entry.maxHp)
      ensures Initial(Now()) && players.nextId == old(players.nextId) + 1
      ensures bodies == old(bodies)[old(players.nextId) := Body.Monster(entry.pos, LoadedHp(entry.maxHp))]
    {}
  }
}
