/** Requests as they arrive on connections (ClientPacketHandler.cpp, GameSession.cpp), and what
    the theorems about runs say of the server's objects after any number of them. */
module Handlers {
  import opened Wrappers
  import opened Grid
  import opened Zones
  import opened MapCollisions
  import opened Movement
  import opened Client
  import opened World
  import opened Runs
  import opened Combat
  import opened Pace
  import opened Sending
  import opened Registry
  import opened Rooms
  import opened Server

  class PacketHandlers {
    const game: GameServer
    /** The run of the game machine so far. */
    ghost var states: seq<State>
    ghost var events: seq<Event>

    ghost predicate Valid()
      reads this, game, game.room, game.room.zones, game.room.residents.Values, game.room.players.Values, game.players,
            game.players.byObject.Values, game.creatures.Values, game.net, game.collision, game.collision.blocked
    {
      game.Settled() && History()
    }

    ghost predicate History()
      reads this, game, game.players
    {
      game.TheRules().Valid() && IsRun(game.TheRules(), states, events) && states[|states| - 1] == game.Now()
    }

    constructor (data: RoomData, collision: MapCollision, stats: PlayerStats, spawns: seq<MonsterSpawn>)
      requires collision.Valid()
      ensures Valid() && events == [] && game.net.wire == map[]
      ensures game.bodies == if collision.IsLoaded() then SpawnedBodies(spawns) else map[]
      ensures states == [game.Now()] && game.players.accounts == NOBODY.(nextId := states[0].nextId)
      ensures game.room.layout == FromRoomData(data) && game.collision == collision && game.stats == stats
      ensures fresh(game) && fresh(game.room) && fresh(game.room.zones) && fresh(game.players) && fresh(game.net)
      ensures fresh(game.creatures.Values)
    {
      hide *;
      game := new GameServer(data, collision, stats, spawns);
      events := [];
      new;
      states := [game.Now()];
      RunBegins();
      NobodyYet();
    }

    lemma NobodyYet()
      requires game.Settled() && game.players.byObject == map[]
      ensures game.players.accounts == NOBODY.(nextId := game.Now().nextId)
    {
      var a := game.players.accounts;
      assert a.Consistent() && a.byObject.Keys == {};
      assert a.byName == map[] && a.byObject == map[] && a.bySession == map[];
    }

    lemma RunBegins()
      requires game.Settled() && Initial(game.Now()) && states == [game.Now()] && events == []
      ensures Valid()
    {
      game.SettledParts();
      hide GameServer.Settled, Initial;
    }

    /** One more step of the run. */
    ghost method Record(e: Event)
      requires game.TheRules().Valid() && IsRun(game.TheRules(), states, events)
      requires IsStep(game.TheRules(), states[|states| - 1], e, game.Now())
      modifies `states, `events
      ensures History() && events == old(events) + [e] && old(states) <= states
    {
      ExtendRun(game.TheRules(), states, events, e, game.Now());
      states := states + [game.Now()];
      events := events + [e];
    }

    lemma Parts()
      requires Valid()
      ensures game.Settled() && History() && game.TheRules().Valid() && IsRun(game.TheRules(), states, events)
      ensures |states| == |events| + 1 && states[|events|] == game.Now()
      ensures game.players.Valid() && game.players.accounts.Consistent()
    {}

    lemma ValidAgain()
      requires game.Settled() && History()
      ensures Valid()
    {}

    lemma StillHistory(before: State)
      requires game.TheRules().Valid() && IsRun(game.TheRules(), states, events) && states[|states| - 1] == before
      requires game.Now() == before
      ensures History()
    {}

    /** A new connection is open, and nothing has been sent on it. */
    method OnConnected(session: SessionId)
      requires Valid() && session !in game.net.wire
      modifies game.net
      ensures Valid() && events == old(events)
      ensures game.net.wire == old(game.net.wire)[session := []]
    {
      hide *;
      Parts();
      game.Connect(session);
      StillHistory(old(game.Now()));
      ValidAgain();
    }

    /** The player that the session table has for a connection. */
    ghost function PlayerOf(session: SessionId): Option<Id>
      reads game.players`accounts
    {
      if session in game.players.accounts.bySession then Some(game.players.accounts.bySession[session]) else None
    }

    lemma PlayerOfSays(session: SessionId)
      ensures PlayerOf(session) ==
              if session in game.players.accounts.bySession then Some(game.players.accounts.bySession[session])
              else None
    {}

    ghost predicate IsPlaying(session: SessionId)
      reads game`bodies, game.players`accounts
    {
      PlayerOf(session).Some? && PlayerOf(session).value in game.bodies
    }

    lemma PlayingSays(session: SessionId)
      ensures IsPlaying(session) <==>
              session in game.players.accounts.bySession &&
              game.players.accounts.bySession[session] in game.Now().bodies
      ensures game.Now().bodies == game.bodies
    {}

    /** `player` is what FindBySession answers for this connection. */
    ghost predicate Found(session: SessionId, player: Creature)
      reads game`bodies, game.room`residents, game.players, player
    {
      && PlayerOf(session) == Some(player.id) && player.session == Some(session)
      && player.id in game.players.byObject && game.players.byObject[player.id] == player
      && (player.id in game.bodies <==> player.id in game.room.residents)
      && (player.state == InGame <==> player.id in game.bodies)
      && (player.id in game.bodies ==> game.bodies[player.id].pos == player.pos)
    }

    lemma FoundIt(session: SessionId)
      requires game.Settled()
      ensures session in game.players.bySession <==> PlayerOf(session).Some?
      ensures session in game.players.bySession ==> Found(session, game.players.bySession[session])
    {
      if session in game.players.bySession {
        var player, id := game.players.bySession[session], game.players.accounts.bySession[session];
        assert Carries(game.players.byObject[id], id, game.players.accounts.byObject[id]);
        game.CoreParts();
        game.InGameHere(player);
      }
    }

    /** What FindBySession answers, for the handlers. */
    lemma WhoIs(session: SessionId)
      requires game.Settled()
      ensures session !in game.players.bySession ==> PlayerOf(session) == None && !IsPlaying(session)
      ensures session in game.players.bySession ==>
                var player := game.players.bySession[session];
                && Found(session, player) && PlayerOf(session) == Some(player.id)
                && player.id in game.players.byObject && game.players.byObject[player.id] == player
                && (IsPlaying(session) <==> player.state == InGame)
                && (player.state == InGame ==> player.id in game.bodies && game.bodies[player.id].pos == player.pos)
    {
      FoundIt(session);
      hide GameServer.Settled;
    }

    lemma RefusalsAreHarmless()
      ensures Harmless(EnterReply(false, 0, [])) && Harmless(LeaveReply(false))
    {}

    /** The step that a login is: none if it is refused on a connection without a player. */
    ghost function LoginEvents(session: SessionId, name: string): seq<Event>
      requires session in game.net.wire
      reads game.players, game.net
    {
      if name != "" && name !in game.players.byName then [Event.Login(game.players.nextId, game.net.wire[session])]
      else if PlayerOf(session).Some? then [LoginRefused(PlayerOf(session).value)]
      else []
    }

    lemma LoginEventsAre(session: SessionId, name: string)
      requires session in game.net.wire
      ensures LoginEvents(session, name) ==
              if name != "" && name !in game.players.byName then
                [Event.Login(game.players.nextId, game.net.wire[session])]
              else if session in game.players.accounts.bySession then
                [LoginRefused(game.players.accounts.bySession[session])]
              else []
    {}

    /** Handle_C_S_LOGIN. The answer says whether a fresh player was registered. Everything stays
        in order exactly when this is not a second login on a connection that has a player;
        otherwise that player is stranded in the registry. */
    method HandleLogin(session: SessionId, name: string)
      requires Valid() && session in game.net.wire
      modifies this, game, game.players, game.net
      ensures game.players.accounts == old(game.players.accounts).Login(session, name)
      ensures game.net.wire == old(game.net.wire)[session :=
                old(game.net.wire)[session] + [LoginReply(name != "" && name !in old(game.players.byName))]]
      ensures fresh(game.creatures.Values - old(game.creatures.Values))
      ensures Valid() <==> !old(LogsInAgain(game.players.accounts, LoginRequest(session, name)))
      ensures Valid() ==> events == old(events) + old(LoginEvents(session, name)) && old(states) <= states
    {
      hide *;
      Parts();
      LoginEventsAre(session, name);
      game.StateNow();
      ghost var again := LogsInAgain(game.players.accounts, LoginRequest(session, name));
      var player := game.LoginAs(session, name);
      if again {
        OutOfOrder();
      } else {
        if player != null {
          NewestId(game.TheRules(), old(game.Now()), player.id, old(game.net.wire)[session], game.Now());
          Record(Event.Login(player.id, old(game.net.wire)[session]));
        } else if session in old(game.players.accounts.bySession) {
          Record(LoginRefused(old(game.players.accounts.bySession)[session]));
        } else {
          StillHistory(old(game.Now()));
          assert old(events) + [] == events;
        }
        ValidAgain();
      }
    }

    lemma OutOfOrder()
      requires !game.Settled()
      ensures !Valid()
    {}

    /** An answer that is the handler's whole effect. */
    method Refuse(session: SessionId, packet: Packet)
      requires Valid() && session in game.net.wire && PlayerOf(session) == None && Harmless(packet)
      modifies game.net
      ensures Valid() && events == old(events)
      ensures game.net.wire == old(game.net.wire)[session := old(game.net.wire)[session] + [packet]]
    {
      PlayerOfSays(session);
      hide *;
      Parts();
      game.Refuse(session, packet);
      StillHistory(old(game.Now()));
      ValidAgain();
    }

    /** Handle_C_S_ENTER_GAME. */
    method HandleEnterGame(session: SessionId) returns (ghost order: seq<Id>)
      requires Valid() && session in game.net.wire
      modifies this, game, game.room, game.room.zones, game.room.residents.Values, game.players.byObject.Values,
               game.net
      ensures Valid() && game.net.wire.Keys == old(game.net.wire.Keys) && game.creatures == old(game.creatures)
      ensures old(states) <= states
      ensures events == match old(PlayerOf(session))
                        case None => old(events)
                        case Some(p) => old(events) + [game.EntryEvent(p, order)]
      ensures old(PlayerOf(session)) == None ==>
                game.net.wire == old(game.net.wire)[session := old(game.net.wire)[session] + [EnterReply(false, 0, [])]]
    {
      hide *;
      Parts();
      WhoIs(session);
      var player := game.players.FindBySession(session);
      if player == null {
        order := [];
        RefusalsAreHarmless();
        Refuse(session, EnterReply(false, 0, []));
      } else {
        order := Enter(session, player);
      }
    }

    method Enter(session: SessionId, player: Creature) returns (ghost order: seq<Id>)
      requires Valid() && Found(session, player)
      modifies this, game, game.room, game.room.zones, player, game.net
      ensures Valid() && game.net.wire.Keys == old(game.net.wire.Keys) && game.creatures == old(game.creatures)
      ensures old(states) <= states
      ensures events == old(events) + [game.EntryEvent(player.id, order)]
    {
      hide *;
      Registered(session, player);
      Parts();
      order := game.EnterAs(player);
      Record(game.EntryEvent(player.id, order));
      ValidAgain();
    }

    lemma Registered(session: SessionId, player: Creature)
      requires Found(session, player)
      ensures player.id in game.players.byObject && game.players.byObject[player.id] == player
      ensures player.session == Some(session)
      ensures PlayerOf(session) == Some(player.id)
    {}

    /** Handle_C_S_LEAVE_GAME. */
    method HandleLeaveGame(session: SessionId)
      requires Valid() && session in game.net.wire
      modifies this, game, game.room, game.room.zones, game.players.byObject.Values, game.net
      ensures Valid() && game.net.wire.Keys == old(game.net.wire.Keys) && game.creatures == old(game.creatures)
      ensures old(states) <= states
      ensures events == match old(PlayerOf(session))
                        case None => old(events)
                        case Some(p) => old(events) + [Event.Leave(p)]
      ensures old(PlayerOf(session)) == None ==>
                game.net.wire == old(game.net.wire)[session := old(game.net.wire)[session] + [LeaveReply(false)]]
    {
      hide *;
      Parts();
      WhoIs(session);
      var player := game.players.FindBySession(session);
      if player == null {
        RefusalsAreHarmless();
        Refuse(session, LeaveReply(false));
      } else {
        Leave(session, player);
      }
    }

    method Leave(session: SessionId, player: Creature)
      requires Valid() && Found(session, player)
      modifies this, game, game.room, game.room.zones, player, game.net
      ensures Valid() && game.net.wire.Keys == old(game.net.wire.Keys) && game.creatures == old(game.creatures)
      ensures old(states) <= states
      ensures events == old(events) + [Event.Leave(player.id)]
    {
      hide *;
      Registered(session, player);
      Parts();
      game.LeaveAs(player);
      Record(Event.Leave(player.id));
      ValidAgain();
    }

    /** Handle_C_S_MOVE: ignored unless the connection's player is in game. */
    method HandleMove(session: SessionId, client: Pos, now: nat, sqrt: real -> real) returns (ghost order: seq<Id>)
      requires Valid() && Roots(sqrt)
      modifies this, game, game.room, game.room.zones, game.players.byObject.Values, game.net
      ensures Valid() && game.net.wire.Keys == old(game.net.wire.Keys) && game.creatures == old(game.creatures)
      ensures old(states) <= states
      ensures !old(IsPlaying(session)) ==> events == old(events) && game.net.wire == old(game.net.wire)
      ensures old(IsPlaying(session)) ==>
                var p := old(PlayerOf(session)).value;
                events
                == old(events) + [Event.Move(p, client, now, sqrt(DistSq(old(game.bodies)[p].pos, client)), order)]
    {
      hide *;
      Parts();
      WhoIs(session);
      order := [];
      var player := game.players.FindBySession(session);
      if player == null || player.state != InGame {
        return;
      }
      RootOf(sqrt, player.pos, client);
      order := Move(session, player, client, now, sqrt(DistSq(player.pos, client)));
    }

    method Move(session: SessionId, player: Creature, client: Pos, now: nat, root: real) returns (ghost order: seq<Id>)
      requires Valid() && Found(session, player) && player.state == InGame && IsRoot(root, DistSq(player.pos, client))
      modifies this, game, game.room, game.room.zones, player, game.net
      ensures Valid() && game.net.wire.Keys == old(game.net.wire.Keys) && game.creatures == old(game.creatures)
      ensures old(states) <= states
      ensures events == old(events) + [Event.Move(player.id, client, now, root, order)]
    {
      hide *;
      Registered(session, player);
      InRoom(session, player);
      Parts();
      order := game.MoveAs(player, client, now, root);
      Record(Event.Move(player.id, client, now, root, order));
      ValidAgain();
    }

    lemma InRoom(session: SessionId, player: Creature)
      requires Found(session, player) && player.state == InGame
      ensures player.id in game.room.residents
    {}

    /** Handle_C_S_ATTACK: ignored unless the connection's player is in game. */
    method HandleAttack(session: SessionId, now: nat) returns (ghost target: Option<Id>)
      requires Valid()
      modifies this, game, game.room, game.room.zones, game.room.residents.Values, game.players.byObject.Values,
               game.net
      ensures Valid() && game.net.wire.Keys == old(game.net.wire.Keys)
      ensures game.creatures.Values <= old(game.creatures.Values)
      ensures old(states) <= states
      ensures events == if old(IsPlaying(session)) then
                          old(events) + [Event.Attack(old(PlayerOf(session)).value, now, target)]
                        else old(events)
      ensures !old(IsPlaying(session)) ==> game.net.wire == old(game.net.wire)
    {
      hide *;
      Parts();
      WhoIs(session);
      var player := game.players.FindBySession(session);
      if player == null || player.state != InGame {
        return None;
      }
      target := Attack(session, player, now);
    }

    method Attack(session: SessionId, player: Creature, now: nat) returns (ghost target: Option<Id>)
      requires Valid() && Found(session, player) && player.state == InGame
      modifies this, game, game.room, game.room.zones, game.room.residents.Values, player, game.net
      ensures Valid() && game.net.wire.Keys == old(game.net.wire.Keys)
      ensures game.creatures.Values <= old(game.creatures.Values)
      ensures old(states) <= states
      ensures events == old(events) + [Event.Attack(player.id, now, target)]
    {
      hide *;
      Registered(session, player);
      InRoom(session, player);
      Parts();
      target := game.AttackStep(player, now);
      Record(Event.Attack(player.id, now, target));
      ValidAgain();
    }

    /** OnDisconnected: the player, if there is one, leaves and logs out. */
    method OnDisconnected(session: SessionId)
      requires Valid()
      modifies this, game, game.room, game.room.zones, game.players, game.players.byObject.Values, game.net
      ensures Valid() && game.net.wire.Keys == old(game.net.wire.Keys) - {session}
      ensures game.creatures.Values <= old(game.creatures.Values)
      ensures old(states) <= states && old(game.players.accounts.Consistent())
      ensures game.players.accounts == Registry.Serve(old(game.players.accounts), Disconnected(session))
      ensures events == match old(PlayerOf(session))
                        case None => old(events)
                        case Some(p) => old(events) + [Event.Logout(p)]
    {
      hide *;
      Parts();
      WhoIs(session);
      var player := game.players.FindBySession(session);
      if player == null {
        Hangup(session);
      } else {
        Logout(session, player);
      }
    }

    method Hangup(session: SessionId)
      requires Valid() && PlayerOf(session) == None
      modifies game.net
      ensures Valid() && game.net.wire == old(game.net.wire) - {session} && events == old(events)
      ensures game.players.accounts.Consistent()
      ensures game.players.accounts == Registry.Serve(game.players.accounts, Disconnected(session))
    {
      NoPlayer(session);
      hide *;
      Parts();
      LogoutServes(game.players.accounts, session);
      game.Drop(session);
      StillHistory(old(game.Now()));
      ValidAgain();
    }

    lemma NoPlayer(session: SessionId)
      requires PlayerOf(session) == None
      ensures session !in game.players.accounts.bySession
    {}

    method Logout(session: SessionId, player: Creature)
      requires Valid() && Found(session, player)
      modifies this, game, game.room, game.room.zones, game.players, player, game.net
      ensures Valid() && game.net.wire.Keys == old(game.net.wire.Keys) - {session}
      ensures game.creatures.Values <= old(game.creatures.Values)
      ensures old(states) <= states && old(game.players.accounts.Consistent())
      ensures game.players.accounts == Registry.Serve(old(game.players.accounts), Disconnected(session))
      ensures events == old(events) + [Event.Logout(player.id)]
    {
      hide *;
      Registered(session, player);
      Parts();
      LogoutServes(game.players.accounts, session);
      game.LogoutAs(player, session);
      Record(Event.Logout(player.id));
      ValidAgain();
    }

    /** Whatever the room or the registry refers to is in the creature table. */
    lemma TableCovers()
      requires Valid()
      ensures game.room.residents.Values <= game.creatures.Values
      ensures game.players.byObject.Values <= game.creatures.Values
    {
      game.SettledParts();
      game.CoreParts();
      hide Valid, History, GameServer.Core, GameServer.Settled, Room.Indexed, Room.Filed, GameServer.AvatarsMirror,
           GameServer.OwnConnections;
      var table := game.players.byObject + game.room.residents;
      assert game.creatures == table && game.SameObjects();
      forall id | id in game.room.residents ensures game.room.residents[id] in game.creatures.Values {
        assert id in table && table[id] == game.room.residents[id];
      }
      forall id | id in game.players.byObject ensures game.players.byObject[id] in game.creatures.Values {
        assert id in table && table[id] == game.players.byObject[id];
      }
    }

    // ---------- What holds after any number of requests ----------

    /** Every client in the room shows itself and exactly the creatures within the view radius of
        its server position, where the server has them; every other client shows nothing. */
    lemma ClientsShowTheRoom(id: Id)
      requires Valid() && id in game.players.byObject
      ensures var c := game.players.byObject[id];
              && c.session.Some? && c.session.value in game.net.wire
              && (c.state == InGame <==> id in game.room.residents)
              && (c.state == InGame ==>
                    && game.room.residents[id] == c
                    && Replay(game.net.wire[c.session.value])
                       == map q | q in game.room.residents
                                  && Within(c.pos, game.room.residents[q].pos, game.room.layout.viewRadius)
                              :: game.room.residents[q].pos)
              && (c.state != InGame ==> Replay(game.net.wire[c.session.value]) == map[])
    {
      var c := game.players.byObject[id];
      LogOf(id);
      if id in game.room.residents {
        DiscAround(id);
      }
    }

    /** What a player's client has been sent, and what it shows. */
    lemma LogOf(id: Id)
      requires Valid() && id in game.players.byObject
      ensures var c := game.players.byObject[id];
              && c.session.Some? && c.session.value in game.net.wire && id in game.avatars
              && game.net.wire[c.session.value] == game.avatars[id].log
              && (c.state == InGame <==> id in game.room.residents)
              && (id in game.room.residents ==> game.room.residents[id] == c && id in game.bodies)
              && Replay(game.net.wire[c.session.value]) == ShouldShow(game.TheRules(), game.Now(), id)
              && (id !in game.room.residents ==> id !in game.bodies)
    {
      var c := game.players.byObject[id];
      Parts();
      game.SettledParts();
      game.CoreParts();
      game.InGameHere(c);
      RunKeepsInvariant(game.TheRules(), states, events, |states| - 1);
      game.OwnLine(c);
      hide GameServer.Settled, Room.Indexed, Room.Filed, IsRun, Replay;
    }

    /** A player's view in the machine is the disc around it in the room. */
    lemma DiscAround(id: Id)
      requires Valid() && id in game.room.residents && id in game.bodies
      ensures ShouldShow(game.TheRules(), game.Now(), id)
              == map q | q in game.room.residents
                         && Within(game.room.residents[id].pos, game.room.residents[q].pos, game.room.layout.viewRadius)
                     :: game.room.residents[q].pos
    {
      var at := game.room.residents[id].pos;
      game.CoreParts();
      hide GameServer.Settled, Room.Indexed, Room.Filed, Valid, History, GameServer.AvatarsMirror,
           GameServer.OwnConnections;
      assert game.room.residents[id].Body() == game.bodies[id];
      forall q | q in game.bodies
        ensures game.bodies[q].pos == game.room.residents[q].pos
        ensures game.room.near(at, game.bodies[q].pos)
                == Within(at, game.room.residents[q].pos, game.room.layout.viewRadius)
      {
        assert game.room.residents[q].Body() == game.bodies[q];
        assert game.room.layout.Near(at, game.bodies[q].pos)
               == Within(at, game.bodies[q].pos, game.room.layout.viewRadius);
      }
    }

    /** Clients that are not logged in show nothing. */
    lemma StrangersShowNothing(session: SessionId)
      requires Valid() && session in game.net.wire && PlayerOf(session) == None
      ensures Replay(game.net.wire[session]) == map[]
    {
      assert session in game.Outside() && game.Outside()[session] == game.net.wire[session];
      HarmlessShowNothing(game.net.wire[session]);
    }

    /** Each logged-in client has been sent the death of a monster once if the monster was killed
        in its view since it logged in, and not at all otherwise; no client has been sent the death
        of a creature that is in the room or does not exist yet. */
    lemma DeathsAreAnnouncedOnce(id: Id, m: Id)
      requires Valid() && id in game.players.byObject
      ensures var c, rules := game.players.byObject[id], game.TheRules();
              && c.session.Some? && c.session.value in game.net.wire
              && Dies(game.net.wire[c.session.value], m) == Heard(rules, states, events, id, m, |events|) <= 1
              && (m in game.room.residents || m >= game.players.nextId ==> Dies(game.net.wire[c.session.value], m) == 0)
    {
      Parts();
      LogOf(id);
      RunAnnouncesDeaths(game.TheRules(), states, events, id, m, |events|);
      BodiesAreResidents();
    }

    lemma BodiesAreResidents()
      requires Valid()
      ensures game.Now().bodies.Keys == game.room.residents.Keys && game.Now().avatars == game.avatars
      ensures game.Now().nextId == game.players.nextId
    {
      game.CoreParts();
    }

    /** A connection without a player has never been sent a death. */
    lemma StrangersHearNoDeaths(session: SessionId, m: Id)
      requires Valid() && session in game.net.wire && PlayerOf(session) == None
      ensures Dies(game.net.wire[session], m) == 0
    {
      assert session in game.Outside() && game.Outside()[session] == game.net.wire[session];
      NoDies(game.net.wire[session], m);
    }

    /** With monsters loaded alive, whatever the creature table holds is alive or a player; a
        monster that was loaded with no hit points keeps its place and never dies. */
    lemma TableHoldsTheLiving(id: Id)
      requires Valid() && id in game.creatures && !game.creatures[id].isPlayer
      ensures !game.creatures[id].hasDied && id in game.room.residents && game.creatures[id] == game.room.residents[id]
      ensures MonstersAlive(states[0]) ==> game.creatures[id].IsAlive()
    {
      var c := game.creatures[id];
      assert id in game.room.residents && game.room.residents[id] == c;
      RunKeepsMonstersAlive(game.TheRules(), states, events, |states| - 1);
      assert c.Body() == game.bodies[id];
    }

    /** After any number of requests the zones hold exactly the creatures that stand in them. */
    lemma ZonesHoldTheirCreatures(i: int, id: Id)
      requires Valid() && 0 <= i < |game.room.zones|
      ensures game.room.layout.Valid()
      ensures id in game.room.zones[i].creatures <==>
              id in game.room.residents && InRegion(game.room.layout, i, game.room.residents[id].pos)
      ensures id in game.room.zones[i].players <==> id in game.room.zones[i].creatures && id in game.players.byObject
    {
      game.CoreParts();
      game.room.IndexIsExact(i, id);
    }

    /** If the spawn point is free for a creature, every player in the room stands on free tiles. */
    lemma PlayersStandFree(id: Id)
      requires Valid() && id in game.room.residents && game.room.residents[id].isPlayer
      requires game.collision.IsLoaded() && Free(game.collision.View(), game.room.layout.spawn, 0.35)
      ensures Free(game.collision.View(), game.room.residents[id].pos, 0.35)
    {
      RunKeepsInvariant(game.TheRules(), states, events, |states| - 1);
      assert game.room.residents[id].Body() == game.bodies[id];
      WalkableIsFree(game.tiles, game.room.layout.spawn, 0.35);
      WalkableIsFree(game.tiles, game.room.residents[id].pos, 0.35);
      hide Free;
    }

    /** What a monster in the room has left and what it was dealt make up what it was loaded with,
        and no request has killed it. */
    lemma HitPointsAddUp(id: Id)
      requires Valid() && id in game.room.residents && !game.room.residents[id].isPlayer && id in states[0].bodies
      ensures game.room.residents[id].hp + TotalDamage(game.TheRules(), states, events, id, |events|)
              == states[0].bodies[id].hp
      ensures Deaths(game.TheRules(), states, events, id, |events|) == 0
    {
      RunConservesHp(game.TheRules(), states, events, id, |events|);
      assert game.room.residents[id].Body() == game.bodies[id];
    }

    /** A monster that was loaded with some hit points has lost the damage of one attack for each hit on
        it, and is gone exactly if that makes up all of them. */
    lemma WornByHits(m: Id)
      requires Valid() && m in states[0].bodies
      ensures var full, k := states[0].bodies[m].hp, HitCount(game.TheRules(), states, events, m, |events|);
              && (m in game.room.residents <==> !(full > 0 && full <= k * game.stats.attackDamage))
              && (m in game.room.residents ==> game.room.residents[m].hp == full - k * game.stats.attackDamage)
    {
      Parts();
      BodiesAreResidents();
      RunWears(game.TheRules(), states, events, m, |events|);
      if m in game.room.residents {
        assert game.room.residents[m].Body() == game.Now().bodies[m];
      }
      hide Valid, HitCount;
    }

    /** No connection of a player has ever been sent a spawn of what its client shows, or anything about
        what it does not. */
    lemma NothingSentInVain(id: Id)
      requires Valid() && id in game.players.byObject
      ensures var c := game.players.byObject[id];
              c.session.Some? && c.session.value in game.net.wire && AllUseful(game.net.wire[c.session.value])
    {
      Parts();
      LogOf(id);
      RunIsThrifty(game.TheRules(), states, events, |events|);
      BodiesAreResidents();
      hide Valid, AllUseful, IsRun;
    }

    /** A player that has moved in time, without entering again, is no further from where it was than
        its speed allows in the time between its moves, and 0.35 for each. */
    lemma NobodyOutrunsTheClock(p: Id, i: nat)
      requires Valid() && i <= |events| && game.stats.moveSpeed >= 0.0
      requires p in game.room.residents && p in game.players.byObject
      requires |events| < |states| && InTime(states, events, p, i, |events|)
      ensures p in states[i].bodies && p in states[i].avatars
      ensures Within(states[i].bodies[p].pos, game.room.residents[p].pos,
                     PaceLimit(game.stats.moveSpeed, states[i].avatars[p].lastMove,
                               game.players.byObject[p].lastMoveTick, MovesOf(events, p, i, |events|)))
    {
      Parts();
      LogOf(p);
      RunKeepsPace(game.TheRules(), states, events, p, i, |events|);
      BodiesAreResidents();
      assert game.room.residents[p].Body() == game.Now().bodies[p];
      hide Valid, InTime, IsRun;
    }

    /** A player has struck at most T / cooldown + 1 times within any window of T milliseconds, if
        the clock has not run backwards. */
    lemma StrikesAreRare(p: Id, i: nat, j: nat, window: nat)
      requires Valid() && MonotoneClock(events) && game.stats.cooldownMs > 0
      requires i <= j < |StrikeTicks(game.TheRules(), states, events, p, |events|)|
      requires var ticks := StrikeTicks(game.TheRules(), states, events, p, |events|); ticks[j] - ticks[i] <= window
      ensures j - i + 1 <= window / game.stats.cooldownMs + 1
    {
      Parts();
      AttackRate(game.TheRules(), states, events, p, i, j, window);
    }

    /** A player that has been in the room since the `i`-th request is no further from where it was
        then than 0.5 * moveSpeed + 0.35 for each of its moves since. */
    lemma NobodyOutruns(p: Id, i: nat)
      requires Valid() && i <= |events| && game.stats.moveSpeed >= 0.0
      requires p in game.room.residents && forall k :: i <= k <= |events| ==> p in states[k].bodies
      ensures Within(states[i].bodies[p].pos, game.room.residents[p].pos,
                     RunLimit(game.stats.moveSpeed, MovesOf(events, p, i, |events|)))
    {
      Parts();
      RunKeepsToSpeed(game.TheRules(), states, events, p, i, |events|);
      BodiesAreResidents();
      assert game.room.residents[p].Body() == game.Now().bodies[p];
    }

    /** The creature table holds the logged-in players and the creatures of the room, and the three
        tables of the registry lead to the same player. */
    lemma TablesAgree(id: Id)
      requires Valid()
      ensures id in game.creatures <==> id in game.players.byObject || id in game.room.residents
      ensures id in game.players.byObject ==>
                var c := game.players.byObject[id];
                && game.creatures[id] == c && c.id == id
                && c.playerId in game.players.byName && game.players.byName[c.playerId] == c
                && c.session.Some? && c.session.value in game.players.bySession
                && game.players.bySession[c.session.value] == c
    {
      var table := game.players.byObject + game.room.residents;
      assert game.creatures == table && game.SameObjects();
      assert id in table <==> id in game.players.byObject || id in game.room.residents;
      if id in game.players.byObject {
        var registry := game.players.accounts;
        assert Carries(game.players.byObject[id], id, registry.byObject[id]);
        assert registry.Reachable(id);
      }
    }
  }

  /** What the program needs of the C library's square root. */
  ghost predicate Roots(sqrt: real -> real) { forall x :: x >= 0.0 ==> IsRoot(sqrt(x), x) }

  lemma RootOf(sqrt: real -> real, a: Pos, b: Pos)
    requires Roots(sqrt)
    ensures IsRoot(sqrt(DistSq(a, b)), DistSq(a, b))
  {
    SquaresAddUp(a, b);
  }

  lemma SquaresAddUp(a: Pos, b: Pos)
    ensures DistSq(a, b) >= 0.0
  {
    MulMono2(0.0, if a.x < b.x then b.x - a.x else a.x - b.x, 0.0, if a.x < b.x then b.x - a.x else a.x - b.x);
    MulMono2(0.0, if a.y < b.y then b.y - a.y else a.y - b.y, 0.0, if a.y < b.y then b.y - a.y else a.y - b.y);
  }

  lemma LogoutServes(a: Accounts, session: SessionId)
    requires a.Consistent()
    ensures Registry.Serve(a, Disconnected(session)) == a.Logout(session)
    ensures session !in a.bySession ==> a.Logout(session) == a
  {}

  lemma NewestId(rules: Rules, s: State, id: Id, before: seq<Packet>, t: State)
    requires IsStep(rules, s, Event.Login(id, before), t)
    ensures id == s.nextId
  {}

  lemma ExtendRun(rules: Rules, states: seq<State>, events: seq<Event>, e: Event, t: State)
    requires rules.Valid() && IsRun(rules, states, events) && IsStep(rules, states[|states| - 1], e, t)
    ensures IsRun(rules, states + [t], events + [e])
  {
    forall i | 0 <= i < |events + [e]| ensures StepAt(rules, states + [t], events + [e], i) {
      if i < |events| {
        assert StepAt(rules, states, events, i);
      }
    }
  }
}
