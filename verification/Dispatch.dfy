/** The server from start-up: which step of the game each request on each connection is. */
module Dispatch {
  import opened Wrappers
  import opened Zones
  import opened MapCollisions
  import opened Client
  import opened World
  import opened Registry
  import opened Rooms
  import opened Seqs
  import opened Server
  import opened Handlers

  /** What may arrive on a connection. */
  datatype ClientRequest =
    | Connect(session: SessionId)
    | LogIn(session: SessionId, name: string)
    | EnterGame(session: SessionId)
    | LeaveGame(session: SessionId)
    | MoveTo(session: SessionId, client: Pos, now: nat)
    | Swing(session: SessionId, now: nat)
    | Disconnect(session: SessionId)

  /** The connections and the registry. */
  datatype Desk = Desk(open: set<SessionId>, accounts: Accounts) {
    /** The player of a connection. */
    function Who(session: SessionId): Option<Id> {
      if session in accounts.bySession then Some(accounts.bySession[session]) else None
    }

    ghost function After(r: ClientRequest): (next: Desk)
      requires accounts.Consistent()
      ensures next.accounts.Consistent()
    {
      if r.Connect? then Desk(open + {r.session}, accounts)
      else if r.session !in open then this
      else if r.LogIn? then
        ServeKeepsConsistent(accounts, LoginRequest(r.session, r.name));
        Desk(open, Serve(accounts, LoginRequest(r.session, r.name)))
      else if r.Disconnect? then
        ServeKeepsConsistent(accounts, Disconnected(r.session));
        Desk(open - {r.session}, Serve(accounts, Disconnected(r.session)))
      else this
    }

    /** A name that a login would register. */
    predicate IsFree(name: string) { name != "" && name !in accounts.byName }
  }

  ghost function DeskAfter(start: Desk, requests: seq<ClientRequest>): (d: Desk)
    requires start.accounts.Consistent()
    ensures d.accounts.Consistent()
  {
    if requests == [] then start else DeskAfter(start, requests[..|requests| - 1]).After(requests[|requests| - 1])
  }

  /** The steps that a request is, at most one: the player of the connection does what was asked
      for if it can. The order of a listing and the monster that is hit are the server's choice. */
  ghost predicate Answers(r: ClientRequest, d: Desk, rules: Rules, s: State, sqrt: real -> real, es: seq<Event>) {
    if r.session !in d.open then es == []
    else if r.LogIn? && d.IsFree(r.name) then |es| == 1 && es[0].Login? && es[0].p == d.accounts.nextId
    else if d.Who(r.session).None? then es == []
    else
      var p := d.Who(r.session).value;
      match r
      case Connect(_) => es == []
      case LogIn(_, _) => es == [LoginRefused(p)]
      case EnterGame(_) =>
        |es| == 1 && es[0].p == p && if rules.tiles.IsLoaded() then es[0].Enter? else es[0].EnterRefused?
      case LeaveGame(_) => es == [Leave(p)]
      case MoveTo(_, client, now) =>
        if p !in s.bodies then es == []
        else
          && |es| == 1 && es[0].Move?
          && es == [Move(p, client, now, sqrt(DistSq(s.bodies[p].pos, client)), es[0].order)]
      case Swing(_, now) =>
        if p !in s.bodies then es == [] else |es| == 1 && es[0].Attack? && es == [Attack(p, now, es[0].target)]
      case Disconnect(_) => es == [Logout(p)]
  }

  /** What a connection without a player is answered. */
  function StrangersAnswer(r: ClientRequest, d: Desk): seq<Packet> {
    match r
    case LogIn(_, name) => [LoginReply(d.IsFree(name))]
    case EnterGame(_) => [EnterReply(false, 0, [])]
    case LeaveGame(_) => [LeaveReply(false)]
    case _ => []
  }

  // ---------- One request ----------

  ghost function DeskOf(server: PacketHandlers): Desk
    reads server.game.players, server.game.net
  {
    Desk(server.game.net.wire.Keys, server.game.players.accounts)
  }

  /** A login on an open connection that has a player, with a name that the registry accepts. */
  predicate IsSecondLogin(server: PacketHandlers, r: ClientRequest)
    reads server.game.players, server.game.net
  {
    && r.LogIn? && r.session in server.game.net.wire && r.session in server.game.players.bySession
    && r.name != "" && r.name !in server.game.players.byName
  }

  /** Everything that a handler may change. */
  ghost function Reach(server: PacketHandlers): set<object>
    reads server.game, server.game.room, server.game.players
  {
    {server, server.game, server.game.room, server.game.players, server.game.net} +
    (set z | z in server.game.room.zones)
    + server.game.room.residents.Values + server.game.players.byObject.Values
  }

  /** What a request does: the steps it is, the registry and the open connections afterwards, and
      what is sent to a connection without a player. */
  ghost predicate Fits(r: ClientRequest, d: Desk, next: Desk, wire: Wire, wireAfter: Wire, rules: Rules, s: State,
                       sqrt: real -> real, es: seq<Event>)
    requires d.accounts.Consistent()
  {
    && Answers(r, d, rules, s, sqrt, es) && next == d.After(r)
    && (r.session !in wire ==> wireAfter == if r.Connect? then wire[r.session := []] else wire)
    && (r.session in wire && d.Who(r.session).None? && !r.Disconnect? ==>
          wireAfter == wire[r.session := wire[r.session] + StrangersAnswer(r, d)])
  }

  type Wire = map<SessionId, seq<Packet>>

  /** ServeOne for some request on an open connection. */
  ghost predicate Served(server: PacketHandlers, r: ClientRequest, d: Desk, wire: Wire, s: State, sqrt: real -> real,
                         es: seq<Event>)
    reads server.game, server.game.players, server.game.net
  {
    d.accounts.Consistent() &&
    Fits(r, d, DeskOf(server), wire, server.game.net.wire, server.game.TheRules(), s, sqrt, es)
  }

  /** Nothing arrives on a connection that is not open, and an open one is not opened again. */
  method ServeOne(server: PacketHandlers, r: ClientRequest, sqrt: real -> real) returns (ghost es: seq<Event>)
    requires server.Valid() && Roots(sqrt) && !IsSecondLogin(server, r)
    modifies Reach(server)
    ensures server.Valid() && server.events == old(server.events) + es && old(server.states) <= server.states
    ensures Served(server, r, old(DeskOf(server)), old(server.game.net.wire), old(server.game.Now()), sqrt, es)
    ensures fresh(server.game.creatures.Values - old(server.game.creatures.Values))
  {
    hide *;
    server.Parts();
    DeskHere(server);
    Reaches(server);
    if r.session !in server.game.net.wire {
      es := [];
      if r.Connect? {
        server.OnConnected(r.session);
      }
      DeskHere(server);
      NothingThere(r, old(DeskOf(server)), old(server.game.net.wire), server.game.net.wire, server.game.TheRules(),
                   old(server.game.Now()), sqrt);
      ServedHere(server, r, old(DeskOf(server)), old(server.game.net.wire), old(server.game.Now()), sqrt, es);
      assert server.events == old(server.events) + [];
    } else {
      match r {
        case Connect(session) =>
          es := [];
          AlreadyOpen(session, DeskOf(server), server.game.net.wire, server.game.TheRules(), server.game.Now(), sqrt);
          ServedHere(server, r, DeskOf(server), server.game.net.wire, server.game.Now(), sqrt, es);
          assert server.events == old(server.events) + [];
        case LogIn(session, name) =>
          es := ServeLogin(server, session, name, sqrt);
        case EnterGame(session) =>
          es := ServeEnter(server, session, sqrt);
        case LeaveGame(session) =>
          es := ServeLeave(server, session, sqrt);
        case MoveTo(session, client, now) =>
          es := ServeMove(server, session, client, now, sqrt);
        case Swing(session, now) =>
          es := ServeSwing(server, session, now, sqrt);
        case Disconnect(session) =>
          es := ServeDisconnect(server, session, sqrt);
      }
    }
  }

  lemma DeskHere(server: PacketHandlers)
    ensures DeskOf(server) == Desk(server.game.net.wire.Keys, server.game.players.accounts)
  {}

  lemma ServedHere(server: PacketHandlers, r: ClientRequest, d: Desk, wire: Wire, s: State, sqrt: real -> real,
                   es: seq<Event>)
    requires d.accounts.Consistent()
    requires Fits(r, d, DeskOf(server), wire, server.game.net.wire, server.game.TheRules(), s, sqrt, es)
    ensures Served(server, r, d, wire, s, sqrt, es)
  {}

  lemma Reaches(server: PacketHandlers)
    ensures {server, server.game, server.game.room, server.game.players, server.game.net} <= Reach(server)
    ensures forall z :: z in server.game.room.zones ==> z in Reach(server)
    ensures server.game.room.residents.Values <= Reach(server)
    ensures server.game.players.byObject.Values <= Reach(server)
  {}

  lemma NothingThere(r: ClientRequest, d: Desk, wire: Wire, wireAfter: Wire, rules: Rules, s: State, sqrt: real -> real)
    requires d.accounts.Consistent() && d.open == wire.Keys && r.session !in wire
    requires wireAfter == if r.Connect? then wire[r.session := []] else wire
    ensures Fits(r, d, Desk(wireAfter.Keys, d.accounts), wire, wireAfter, rules, s, sqrt, [])
  {
    assert r.Connect? ==> wireAfter.Keys == wire.Keys + {r.session};
  }

  lemma AlreadyOpen(session: SessionId, d: Desk, wire: Wire, rules: Rules, s: State, sqrt: real -> real)
    requires d.accounts.Consistent() && d.open == wire.Keys && session in wire
    ensures Fits(Connect(session), d, d, wire, wire, rules, s, sqrt, [])
  {
    assert wire[session] + [] == wire[session];
    assert d.open + {session} == d.open;
  }

  method ServeEnter(server: PacketHandlers, session: SessionId, sqrt: real -> real) returns (ghost es: seq<Event>)
    requires server.Valid() && session in server.game.net.wire
    modifies Reach(server)
    ensures server.Valid() && server.events == old(server.events) + es && old(server.states) <= server.states
    ensures Served(server, EnterGame(session), old(DeskOf(server)), old(server.game.net.wire), old(server.game.Now()),
                   sqrt, es)
    ensures server.game.creatures == old(server.game.creatures)
  {
    hide *;
    server.Parts();
    DeskHere(server);
    Reaches(server);
    server.PlayerOfSays(session);
    ghost var order := server.HandleEnterGame(session);
    DeskHere(server);
    es := EnterFits(session, old(DeskOf(server)), old(server.game.net.wire), server.game.net.wire, server.game,
                    old(server.game.Now()), sqrt, order);
    ServedHere(server, EnterGame(session), old(DeskOf(server)), old(server.game.net.wire), old(server.game.Now()), sqrt,
               es);
    assert old(server.events) + [] == old(server.events);
  }

  lemma EnterFits(session: SessionId, d: Desk, wire: Wire, wireAfter: Wire, game: GameServer, s: State,
                  sqrt: real -> real, order: seq<Id>)
    returns (es: seq<Event>)
    requires d.accounts.Consistent() && d.open == wire.Keys == wireAfter.Keys && session in wire
    requires session !in d.accounts.bySession ==>
              wireAfter == wire[session := wire[session] + [EnterReply(false, 0, [])]]
    ensures es == if session in d.accounts.bySession then [game.EntryEvent(d.accounts.bySession[session], order)]
                  else []
    ensures Fits(EnterGame(session), d, Desk(wireAfter.Keys, d.accounts), wire, wireAfter, game.TheRules(), s, sqrt, es)
  {
    es := if session in d.accounts.bySession then [game.EntryEvent(d.accounts.bySession[session], order)] else [];
  }

  method ServeLeave(server: PacketHandlers, session: SessionId, sqrt: real -> real) returns (ghost es: seq<Event>)
    requires server.Valid() && session in server.game.net.wire
    modifies Reach(server)
    ensures server.Valid() && server.events == old(server.events) + es && old(server.states) <= server.states
    ensures Served(server, LeaveGame(session), old(DeskOf(server)), old(server.game.net.wire), old(server.game.Now()),
                   sqrt, es)
    ensures server.game.creatures == old(server.game.creatures)
  {
    hide *;
    server.Parts();
    DeskHere(server);
    Reaches(server);
    server.PlayerOfSays(session);
    server.HandleLeaveGame(session);
    DeskHere(server);
    es := LeaveFits(session, old(DeskOf(server)), old(server.game.net.wire), server.game.net.wire,
                    server.game.TheRules(), old(server.game.Now()), sqrt);
    ServedHere(server, LeaveGame(session), old(DeskOf(server)), old(server.game.net.wire), old(server.game.Now()), sqrt,
               es);
    assert old(server.events) + [] == old(server.events);
  }

  lemma LeaveFits(session: SessionId, d: Desk, wire: Wire, wireAfter: Wire, rules: Rules, s: State, sqrt: real -> real)
    returns (es: seq<Event>)
    requires d.accounts.Consistent() && d.open == wire.Keys == wireAfter.Keys && session in wire
    requires session !in d.accounts.bySession ==> wireAfter == wire[session := wire[session] + [LeaveReply(false)]]
    ensures es == if session in d.accounts.bySession then [Leave(d.accounts.bySession[session])] else []
    ensures Fits(LeaveGame(session), d, Desk(wireAfter.Keys, d.accounts), wire, wireAfter, rules, s, sqrt, es)
  {
    es := if session in d.accounts.bySession then [Leave(d.accounts.bySession[session])] else [];
  }

  method ServeMove(server: PacketHandlers, session: SessionId, client: Pos, now: nat, sqrt: real -> real)
    returns (ghost es: seq<Event>)
    requires server.Valid() && session in server.game.net.wire && Roots(sqrt)
    modifies Reach(server)
    ensures server.Valid() && server.events == old(server.events) + es && old(server.states) <= server.states
    ensures Served(server, MoveTo(session, client, now), old(DeskOf(server)), old(server.game.net.wire),
                   old(server.game.Now()), sqrt, es)
    ensures server.game.creatures == old(server.game.creatures)
  {
    hide *;
    server.Parts();
    DeskHere(server);
    Reaches(server);
    server.PlayerOfSays(session);
    server.PlayingSays(session);
    ghost var order := server.HandleMove(session, client, now, sqrt);
    DeskHere(server);
    es := MoveFits(session, client, now, old(DeskOf(server)), old(server.game.net.wire), server.game.net.wire,
                   server.game.TheRules(), old(server.game.Now()), sqrt, order);
    ServedHere(server, MoveTo(session, client, now), old(DeskOf(server)), old(server.game.net.wire),
               old(server.game.Now()), sqrt, es);
    assert old(server.events) + [] == old(server.events);
  }

  lemma MoveFits(session: SessionId, client: Pos, now: nat, d: Desk, wire: Wire, wireAfter: Wire, rules: Rules,
                 s: State, sqrt: real -> real, order: seq<Id>)
    returns (es: seq<Event>)
    requires d.accounts.Consistent() && d.open == wire.Keys == wireAfter.Keys && session in wire
    requires !(session in d.accounts.bySession && d.accounts.bySession[session] in s.bodies) ==> wireAfter == wire
    ensures es == if session in d.accounts.bySession && d.accounts.bySession[session] in s.bodies then
                    var p := d.accounts.bySession[session];
                    [Event.Move(p, client, now, sqrt(DistSq(s.bodies[p].pos, client)), order)]
                  else []
    ensures Fits(MoveTo(session, client, now), d, Desk(wireAfter.Keys, d.accounts), wire, wireAfter, rules, s, sqrt, es)
  {
    hide DistSq;
    es := [];
    if session in d.accounts.bySession && d.accounts.bySession[session] in s.bodies {
      var p := d.accounts.bySession[session];
      es := [Event.Move(p, client, now, sqrt(DistSq(s.bodies[p].pos, client)), order)];
    }
    assert wire[session] + [] == wire[session];
  }

  method ServeSwing(server: PacketHandlers, session: SessionId, now: nat, sqrt: real -> real)
    returns (ghost es: seq<Event>)
    requires server.Valid() && session in server.game.net.wire
    modifies Reach(server)
    ensures server.Valid() && server.events == old(server.events) + es && old(server.states) <= server.states
    ensures Served(server, Swing(session, now), old(DeskOf(server)), old(server.game.net.wire), old(server.game.Now()),
                   sqrt, es)
    ensures server.game.creatures.Values <= old(server.game.creatures.Values)
  {
    hide *;
    server.Parts();
    DeskHere(server);
    Reaches(server);
    server.PlayerOfSays(session);
    server.PlayingSays(session);
    ghost var target := server.HandleAttack(session, now);
    DeskHere(server);
    es := SwingFits(session, now, old(DeskOf(server)), old(server.game.net.wire), server.game.net.wire,
                    server.game.TheRules(), old(server.game.Now()), sqrt, target);
    ServedHere(server, Swing(session, now), old(DeskOf(server)), old(server.game.net.wire), old(server.game.Now()),
               sqrt, es);
    assert old(server.events) + [] == old(server.events);
  }

  lemma SwingFits(session: SessionId, now: nat, d: Desk, wire: Wire, wireAfter: Wire, rules: Rules, s: State,
                  sqrt: real -> real, target: Option<Id>)
    returns (es: seq<Event>)
    requires d.accounts.Consistent() && d.open == wire.Keys == wireAfter.Keys && session in wire
    requires !(session in d.accounts.bySession && d.accounts.bySession[session] in s.bodies) ==> wireAfter == wire
    ensures es == if session in d.accounts.bySession && d.accounts.bySession[session] in s.bodies
                  then [Event.Attack(d.accounts.bySession[session], now, target)] else []
    ensures Fits(Swing(session, now), d, Desk(wireAfter.Keys, d.accounts), wire, wireAfter, rules, s, sqrt, es)
  {
    es := if session in d.accounts.bySession && d.accounts.bySession[session] in s.bodies
          then [Event.Attack(d.accounts.bySession[session], now, target)] else [];
    assert wire[session] + [] == wire[session];
  }

  method ServeDisconnect(server: PacketHandlers, session: SessionId, sqrt: real -> real) returns (ghost es: seq<Event>)
    requires server.Valid() && session in server.game.net.wire
    modifies Reach(server)
    ensures server.Valid() && server.events == old(server.events) + es && old(server.states) <= server.states
    ensures Served(server, Disconnect(session), old(DeskOf(server)), old(server.game.net.wire), old(server.game.Now()),
                   sqrt, es)
    ensures server.game.creatures.Values <= old(server.game.creatures.Values)
  {
    hide *;
    server.Parts();
    DeskHere(server);
    Reaches(server);
    server.PlayerOfSays(session);
    server.OnDisconnected(session);
    DeskHere(server);
    es := DisconnectFits(session, old(DeskOf(server)), DeskOf(server), old(server.game.net.wire), server.game.net.wire,
                         server.game.TheRules(), old(server.game.Now()), sqrt);
    ServedHere(server, Disconnect(session), old(DeskOf(server)), old(server.game.net.wire), old(server.game.Now()),
               sqrt, es);
    assert old(server.events) + [] == old(server.events);
  }

  lemma DisconnectFits(session: SessionId, d: Desk, next: Desk, wire: Wire, wireAfter: Wire, rules: Rules, s: State,
                       sqrt: real -> real)
    returns (es: seq<Event>)
    requires d.accounts.Consistent() && d.open == wire.Keys && session in wire
    requires next == Desk(wire.Keys - {session}, Serve(d.accounts, Disconnected(session)))
    ensures es == if session in d.accounts.bySession then [Event.Logout(d.accounts.bySession[session])] else []
    ensures Fits(Disconnect(session), d, next, wire, wireAfter, rules, s, sqrt, es)
  {
    es := if session in d.accounts.bySession then [Event.Logout(d.accounts.bySession[session])] else [];
  }

  method ServeLogin(server: PacketHandlers, session: SessionId, name: string, sqrt: real -> real)
    returns (ghost es: seq<Event>)
    requires server.Valid() && session in server.game.net.wire && !IsSecondLogin(server, LogIn(session, name))
    modifies Reach(server)
    ensures server.Valid() && server.events == old(server.events) + es && old(server.states) <= server.states
    ensures Served(server, LogIn(session, name), old(DeskOf(server)), old(server.game.net.wire), old(server.game.Now()),
                   sqrt, es)
    ensures fresh(server.game.creatures.Values - old(server.game.creatures.Values))
  {
    hide *;
    server.Parts();
    DeskHere(server);
    Reaches(server);
    NoSecondLogin(server, session, name);
    server.LoginEventsAre(session, name);
    server.HandleLogin(session, name);
    DeskHere(server);
    es := LoginFits(session, name, old(DeskOf(server)), old(server.game.net.wire), server.game.net.wire,
                    server.game.TheRules(), old(server.game.Now()), sqrt);
    ServedHere(server, LogIn(session, name), old(DeskOf(server)), old(server.game.net.wire), old(server.game.Now()),
               sqrt, es);
    assert old(server.events) + [] == old(server.events);
  }

  lemma NoSecondLogin(server: PacketHandlers, session: SessionId, name: string)
    requires server.Valid() && session in server.game.net.wire && !IsSecondLogin(server, LogIn(session, name))
    ensures !LogsInAgain(server.game.players.accounts, LoginRequest(session, name))
    ensures server.game.players.byName.Keys == server.game.players.accounts.byName.Keys
    ensures server.game.players.nextId == server.game.players.accounts.nextId
  {
    server.Parts();
    hide PacketHandlers.Valid;
    assert server.game.players.Valid();
  }

  lemma LoginFits(session: SessionId, name: string, d: Desk, wire: Wire, wireAfter: Wire, rules: Rules, s: State,
                  sqrt: real -> real)
    returns (es: seq<Event>)
    requires d.accounts.Consistent() && d.open == wire.Keys && session in wire
    requires wireAfter == wire[session := wire[session] + [LoginReply(name != "" && name !in d.accounts.byName)]]
    ensures es == if name != "" && name !in d.accounts.byName then [Event.Login(d.accounts.nextId, wire[session])]
                  else if session in d.accounts.bySession then [LoginRefused(d.accounts.bySession[session])]
                  else []
    ensures Fits(LogIn(session, name), d, Desk(wireAfter.Keys, d.accounts.Login(session, name)), wire, wireAfter, rules,
                 s, sqrt, es)
  {
    es := if name != "" && name !in d.accounts.byName then [Event.Login(d.accounts.nextId, wire[session])]
          else if session in d.accounts.bySession then [LoginRefused(d.accounts.bySession[session])]
          else [];
    assert wireAfter.Keys == wire.Keys;
  }

  // ---------- From start-up ----------

  /** Nobody is connected or logged in; the ids behind the monsters' are free. */
  function Opening(s: State): (d: Desk)
    ensures d.accounts.Consistent()
  {
    Desk({}, NOBODY.(nextId := s.nextId))
  }

  /** The `i`-th request has been what the connections, the registry and the game made it when its
      turn came. */
  ghost predicate InTurn(rules: Rules, states: seq<State>, requests: seq<ClientRequest>, happened: seq<seq<Event>>,
                         sqrt: real -> real, i: nat)
    requires i < |requests| && i < |happened|
  {
    var n := |Concat(happened[..i])|;
    n < |states| &&
    Answers(requests[i], DeskAfter(Opening(states[0]), requests[..i]), rules, states[n], sqrt, happened[i])
  }

  /** The server runs: it starts with the given room, map and monsters (with none if there is no
      map); whatever arrives, in whatever order, on whatever connections, it is served, each request
      being the steps that it should be, and everything stays in order, unless a connection that has
      a player logs in again. */
  method RunServer(data: RoomData, collision: MapCollision, stats: PlayerStats, spawns: seq<MonsterSpawn>,
                   requests: seq<ClientRequest>, sqrt: real -> real)
    returns (server: PacketHandlers, served: nat, ghost happened: seq<seq<Event>>)
    requires collision.Valid() && Roots(sqrt)
    ensures server.Valid() && served <= |requests|
    ensures served < |requests| ==> IsSecondLogin(server, requests[served])
    ensures server.game.room.layout == FromRoomData(data) && server.game.collision == collision
    ensures server.game.stats == stats
    ensures server.states != [] && server.states[0].avatars == map[]
    ensures server.states[0].bodies == if collision.IsLoaded() then SpawnedBodies(spawns) else map[]
    ensures |happened| == served && Concat(happened) == server.events
    ensures forall i :: 0 <= i < served ==> InTurn(server.game.TheRules(), server.states, requests, happened, sqrt, i)
    ensures DeskOf(server) == DeskAfter(Opening(server.states[0]), requests[..served])
  {
    hide *;
    server := new PacketHandlers(data, collision, stats, spawns);
    ghost var first := server.states[0];
    Begins(server);
    served, happened := 0, [];
    while served < |requests| && !IsSecondLogin(server, requests[served])
      invariant served <= |requests| && server.Valid()
      invariant fresh(server) && fresh(server.game) && fresh(server.game.room) && fresh(server.game.room.zones)
      invariant fresh(server.game.players) && fresh(server.game.net) && fresh(server.game.creatures.Values)
      invariant server.states != [] && server.states[0] == first
      invariant |happened| == served && Concat(happened) == server.events
      invariant forall i ::
                0 <= i < served ==> InTurn(server.game.TheRules(), server.states, requests, happened, sqrt, i)
      invariant DeskOf(server) == DeskAfter(Opening(first), requests[..served])
    {
      Latest(server);
      server.TableCovers();
      ReachIsFresh(server);
      ghost var states, d, wire, now := server.states, DeskOf(server), server.game.net.wire, server.game.Now();
      ghost var es := ServeOne(server, requests[served], sqrt);
      OneMoreTurn(server, states, d, wire, now, requests, happened, es, sqrt);
      served, happened := served + 1, happened + [es];
    }
  }

  lemma Begins(server: PacketHandlers)
    requires server.Valid() && server.states == [server.game.Now()] && server.events == []
    requires server.game.net.wire == map[]
    requires server.game.players.accounts == NOBODY.(nextId := server.states[0].nextId)
    ensures DeskOf(server) == DeskAfter(Opening(server.states[0]), []) && Concat<Event>([]) == []
    ensures server.states[0].avatars == map[] && server.game.Now().bodies == server.game.bodies
  {
    server.Parts();
    hide PacketHandlers.Valid;
  }

  lemma Latest(server: PacketHandlers)
    requires server.Valid()
    ensures |server.states| == |server.events| + 1 && server.states[|server.events|] == server.game.Now()
  {
    server.Parts();
  }

  lemma ReachIsFresh(server: PacketHandlers)
    requires server.game.room.residents.Values <= server.game.creatures.Values
    requires server.game.players.byObject.Values <= server.game.creatures.Values
    ensures forall x :: x in Reach(server) ==>
              x in {server, server.game, server.game.room, server.game.players, server.game.net}
              || x in server.game.creatures.Values || x in server.game.room.zones
  {}

  /** One more request has been served. */
  lemma OneMoreTurn(server: PacketHandlers, states: seq<State>, d: Desk, wire: Wire, now: State,
                    requests: seq<ClientRequest>, happened: seq<seq<Event>>, es: seq<Event>, sqrt: real -> real)
    requires |happened| < |requests| && states != [] && states <= server.states && states[|states| - 1] == now
    requires |Concat(happened)| == |states| - 1 && server.events == Concat(happened) + es
    requires d == DeskAfter(Opening(states[0]), requests[..|happened|])
    requires Served(server, requests[|happened|], d, wire, now, sqrt, es)
    requires forall i :: 0 <= i < |happened| ==> InTurn(server.game.TheRules(), states, requests, happened, sqrt, i)
    ensures Concat(happened + [es]) == server.events
    ensures forall i ::
              0 <= i <= |happened| ==> InTurn(server.game.TheRules(), server.states, requests, happened + [es], sqrt, i)
    ensures DeskOf(server) == DeskAfter(Opening(states[0]), requests[..|happened| + 1])
  {
    var n, all, rules := |happened|, happened + [es], server.game.TheRules();
    ConcatSnoc(happened, es);
    assert requests[..n + 1][..n] == requests[..n] && requests[..n + 1][n] == requests[n];
    assert DeskAfter(Opening(states[0]), requests[..n + 1]) == d.After(requests[n]);
    hide Answers, Desk.After, DeskAfter, Opening, Concat, DeskOf;
    forall i | 0 <= i <= n ensures InTurn(rules, server.states, requests, all, sqrt, i) {
      if i < n {
        assert all[..i] == happened[..i] && all[i] == happened[i];
        assert InTurn(rules, states, requests, happened, sqrt, i);
      } else {
        assert all[..i] == happened && all[i] == es;
      }
    }
  }
}
