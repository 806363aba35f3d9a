/** What a second login on one connection does to the game: the first player can no longer act or
    leave, and the connection is told about both. */
module SharedConnection {
  import opened Wrappers
  import opened Zones
  import opened Client
  import opened World
  import opened Runs
  import opened Registry
  import opened Rooms

  // ---------- The stranded player ----------

  /** The registry next to the game. An avatar's log is what the packets for that player add up
      to; it is what its connection is sent as long as the player has it to itself. */
  datatype Joint = Joint(accounts: Accounts, game: State)

  /** Some connection leads to the player. */
  ghost predicate Named(a: Accounts, p: Id) {
    exists session :: session in a.bySession && a.bySession[session] == p
  }

  ghost predicate LoggedIn(a: Accounts, p: Id, b: Accounts) {
    exists session, name :: name != "" && name !in a.byName && p == a.nextId && b == a.Login(session, name)
  }

  ghost predicate LoggedOut(a: Accounts, p: Id, b: Accounts)
    requires a.Consistent()
  {
    exists session :: session in a.bySession && a.bySession[session] == p && b == a.Logout(session)
  }

  /** One request: whoever acts or leaves is the player that the session table names, and any
      connection may log in, whether or not it has a player. */
  ghost predicate JointStep(rules: Rules, j: Joint, e: Event, k: Joint)
    requires rules.Valid() && j.accounts.Consistent()
  {
    && IsStep(rules, j.game, e, k.game)
    && match e
       case Login(p, _) => LoggedIn(j.accounts, p, k.accounts)
       case Logout(p) => LoggedOut(j.accounts, p, k.accounts)
       case _ => Named(j.accounts, e.p) && k.accounts == j.accounts
  }

  ghost predicate JointRun(rules: Rules, js: seq<Joint>, es: seq<Event>)
    requires rules.Valid()
  {
    && |js| == |es| + 1
    && Initial(js[0].game) && js[0].accounts == NOBODY.(nextId := js[0].game.nextId)
    && forall i :: 0 <= i < |es| ==> js[i].accounts.Consistent() && JointStep(rules, js[i], es[i], js[i + 1])
  }

  ghost predicate SamePlayers(j: Joint) {
    j.accounts.Consistent() && j.accounts.byObject.Keys == j.game.avatars.Keys && j.accounts.nextId == j.game.nextId
  }

  lemma StepKeepsSamePlayers(rules: Rules, j: Joint, e: Event, k: Joint)
    requires rules.Valid() && SamePlayers(j) && JointStep(rules, j, e, k)
    ensures SamePlayers(k)
  {
    hide Broadcast, SpawnList, MovePackets, Replay;
    match e
    case Login(p, _) =>
      var session, name :|
        name != "" && name !in j.accounts.byName && p == j.accounts.nextId &&
        k.accounts == j.accounts.Login(session, name);
      ServeKeepsConsistent(j.accounts, LoginRequest(session, name));
    case Logout(p) =>
      var session :|
        session in j.accounts.bySession && j.accounts.bySession[session] == p &&
        k.accounts == j.accounts.Logout(session);
      ServeKeepsConsistent(j.accounts, Disconnected(session));
    case _ =>
  }

  lemma {:induction false} RunKeepsSamePlayers(rules: Rules, js: seq<Joint>, es: seq<Event>, n: nat)
    requires rules.Valid() && JointRun(rules, js, es) && n < |js|
    ensures SamePlayers(js[n])
  {
    if n > 0 {
      RunKeepsSamePlayers(rules, js, es, n - 1);
      StepKeepsSamePlayers(rules, js[n - 1], es[n - 1], js[n]);
    }
  }

  /** A second login on a connection makes its first player unreachable. */
  lemma SecondLoginStrands(a: Accounts, session: SessionId, name: string)
    requires a.Consistent() && LogsInAgain(a, LoginRequest(session, name))
    ensures var p, b := a.bySession[session], a.Login(session, name); p in b.byObject && !b.Reachable(p)
  {}

  /** Nobody moves, kills or removes a player that no connection leads to. */
  lemma StrandedCreatureStep(rules: Rules, j: Joint, e: Event, k: Joint, p: Id)
    requires rules.Valid() && SamePlayers(j) && WellFormed(j.game) && JointStep(rules, j, e, k)
    requires p in j.accounts.byObject && !j.accounts.Reachable(p) && p in j.game.bodies
    ensures p in k.game.bodies && k.game.bodies[p] == j.game.bodies[p]
    ensures p in k.accounts.byObject && !k.accounts.Reachable(p)
  {
    hide Broadcast, SpawnList, MovePackets, Replay;
    match e
    case Login(q, _) =>
      var session, name :|
        name != "" && name !in j.accounts.byName && q == j.accounts.nextId &&
        k.accounts == j.accounts.Login(session, name);
      StrandedStep(j.accounts, p, LoginRequest(session, name));
    case Logout(q) =>
      var session :|
        session in j.accounts.bySession && j.accounts.bySession[session] == q &&
        k.accounts == j.accounts.Logout(session);
      StrandedStep(j.accounts, p, Disconnected(session));
    case _ =>
  }

  ghost function Games(js: seq<Joint>): seq<State> { seq(|js|, i requires 0 <= i < |js| => js[i].game) }

  lemma GamesAreRun(rules: Rules, js: seq<Joint>, es: seq<Event>)
    requires rules.Valid() && JointRun(rules, js, es)
    ensures IsRun(rules, Games(js), es)
  {
    forall i | 0 <= i < |es| ensures StepAt(rules, Games(js), es, i) {
      assert JointStep(rules, js[i], es[i], js[i + 1]);
    }
  }

  /** In every continuation: a player in the room that no connection leads to stays there, where it
      was, for ever; nothing logs it out, and every other client in the room shows it exactly when
      it is within the view radius, also clients that log in long after its connection has gone. */
  lemma {:induction false} StrandedCreatureStays(rules: Rules, js: seq<Joint>, es: seq<Event>, p: Id, i: nat, n: nat)
    requires rules.Valid() && JointRun(rules, js, es) && i <= n < |js|
    requires p in js[i].accounts.byObject && !js[i].accounts.Reachable(p) && p in js[i].game.bodies
    ensures p in js[n].accounts.byObject && !js[n].accounts.Reachable(p)
    ensures p in js[n].game.bodies && js[n].game.bodies[p] == js[i].game.bodies[p]
    ensures forall q :: q in js[n].game.bodies && q in js[n].game.avatars ==>
              var shown, at := js[n].game.avatars[q].Shown(), js[i].game.bodies[p].pos;
              && (p in shown <==> rules.near(js[n].game.bodies[q].pos, at))
              && (p in shown ==> shown[p] == at)
  {
    hide *;
    if i < n {
      StrandedCreatureStays(rules, js, es, p, i, n - 1);
      RunIsInOrder(rules, js, es, n - 1);
      StepOf(rules, js, es, n - 1);
      StrandedCreatureStep(rules, js[n - 1], es[n - 1], js[n], p);
    }
    RunIsInOrder(rules, js, es, n);
    SeenByAll(rules, js[n].game, p);
  }

  lemma StepOf(rules: Rules, js: seq<Joint>, es: seq<Event>, i: nat)
    requires rules.Valid() && JointRun(rules, js, es) && i < |es|
    ensures |js| == |es| + 1 && js[i].accounts.Consistent() && JointStep(rules, js[i], es[i], js[i + 1])
  {}

  lemma RunIsInOrder(rules: Rules, js: seq<Joint>, es: seq<Event>, n: nat)
    requires rules.Valid() && JointRun(rules, js, es) && n < |js|
    ensures |js| == |es| + 1 && SamePlayers(js[n]) && WellFormed(js[n].game) && Synced(rules, js[n].game)
  {
    GamesAreRun(rules, js, es);
    RunKeepsSamePlayers(rules, js, es, n);
    RunKeepsInvariant(rules, Games(js), es, n);
    hide JointRun, IsRun, WellFormed, Synced, SamePlayers;
  }

  lemma SeenByAll(rules: Rules, s: State, p: Id)
    requires Synced(rules, s) && p in s.bodies
    ensures forall q :: q in s.bodies && q in s.avatars ==>
              var shown := s.avatars[q].Shown();
              && (p in shown <==> rules.near(s.bodies[q].pos, s.bodies[p].pos))
              && (p in shown ==> shown[p] == s.bodies[p].pos)
  {
    hide Avatar.Shown;
  }

  // ---------- The shared connection ----------

  /** What a connection is sent when one of its players, `p`, moves: what it gets on behalf of the
      players that watch, and what it gets on behalf of `p` itself. */
  function AllTold(near: Interest, bodies: map<Id, Body>, watch: seq<Packet>, p: Id, from: Pos, to: Pos, order: seq<Id>)
    : seq<Packet>
    requires forall x :: x in order ==> x in bodies
  {
    watch + OwnPackets(near, bodies, p, from, to, order) + [MoveNotice(p, to)]
  }

  /** Each packet takes `p` on the screen or off it. */
  ghost predicate OnlyAbout(watch: seq<Packet>, p: Id, to: Pos) {
    forall x :: x in watch ==> x == Spawn(SpawnEntry(p, to)) || x == Despawn(p)
  }

  /** Whether `p` is on the screen afterwards; `on` says whether it was before. */
  predicate StaysOn(watch: seq<Packet>, p: Id, on: bool) {
    if watch == [] then on else watch[|watch| - 1] != Despawn(p)
  }

  lemma {:induction false} WatchOnly(log: seq<Packet>, watch: seq<Packet>, p: Id, to: Pos)
    requires OnlyAbout(watch, p, to)
    ensures var had, got := Replay(log), Replay(log + watch);
            && (p in got <==> StaysOn(watch, p, p in had))
            && forall x :: x != p ==> (x in got <==> x in had) && (x in got ==> got[x] == had[x])
  {
    if watch == [] {
      assert log + watch == log;
    } else {
      var front, last := watch[..|watch| - 1], watch[|watch| - 1];
      assert last in watch && forall x :: x in front ==> x in watch;
      WatchOnly(log, front, p, to);
      ReplayAppend(log + front, last);
      assert log + watch == log + front + [last];
    }
  }

  lemma AllToldShows(near: Interest, bodies: map<Id, Body>, log: seq<Packet>, watch: seq<Packet>, p: Id, from: Pos,
                     to: Pos, order: seq<Id>)
    requires forall x :: x in order ==> x in bodies
    ensures Replay(log + AllTold(near, bodies, watch, p, from, to, order))
            == Receive(OwnSoFar(near, bodies, Replay(log + watch), p, from, to, SetOf(order)), MoveNotice(p, to))
  {
    hide Replay, Receive, OwnPackets, OwnSoFar, SetOf;
    var own := OwnPackets(near, bodies, p, from, to, order);
    assert log + (watch + own + [MoveNotice(p, to)]) == log + watch + own + [MoveNotice(p, to)];
    OwnPacketsShow(near, bodies, log + watch, p, from, to, order);
    ReplayAppend(log + watch + own, MoveNotice(p, to));
  }

  /** What the mover's packets do to any picture, object by object. */
  lemma SyncedAt(near: Interest, bodies: map<Id, Body>, pic: Picture, p: Id, from: Pos, to: Pos, order: seq<Id>)
    requires ListsAround(near, bodies, order, p, from) && ListsAround(near, bodies, order, p, to)
    ensures var r := Receive(OwnSoFar(near, bodies, pic, p, from, to, SetOf(order)), MoveNotice(p, to));
            && (p in r <==> p in pic) && (p in r ==> r[p] == to)
            && forall x :: x != p ==>
                 if x in bodies && Gained(near, bodies[x].pos, from, to) then
                   x in r && r[x] == if x in pic then pic[x] else bodies[x].pos
                 else if x in bodies && Lost(near, bodies[x].pos, from, to) then x !in r
                 else (x in r <==> x in pic) && (x in r ==> r[x] == pic[x])
  {
    forall x | x in bodies && x != p && (Gained(near, bodies[x].pos, from, to) || Lost(near, bodies[x].pos, from, to))
      ensures x in SetOf(order)
    {
      assert x in order;
    }
    hide SetOf, ListsAround;
  }

  /** Whatever the connection showed before: `p` is on the screen afterwards, where it is, as the
      watchers' packets leave it; whatever it has come to see is shown, where it is unless it was
      shown before; nothing that it has lost is shown, and the rest stays as it was. */
  lemma ConnectionShows(near: Interest, bodies: map<Id, Body>, log: seq<Packet>, watch: seq<Packet>, p: Id, from: Pos,
                        to: Pos, order: seq<Id>)
    requires Listing(bodies, order) && OnlyAbout(watch, p, to)
    requires ListsAround(near, bodies, order, p, from) && ListsAround(near, bodies, order, p, to)
    ensures forall x :: x in order ==> x in bodies
    ensures var had, r := Replay(log), Replay(log + AllTold(near, bodies, watch, p, from, to, order));
            && (p in r <==> StaysOn(watch, p, p in had)) && (p in r ==> r[p] == to)
            && forall x :: x != p ==>
                 if x in bodies && Gained(near, bodies[x].pos, from, to) then
                   x in r && r[x] == if x in had then had[x] else bodies[x].pos
                 else if x in bodies && Lost(near, bodies[x].pos, from, to) then x !in r
                 else (x in r <==> x in had) && (x in r ==> r[x] == had[x])
  {
    AllToldShows(near, bodies, log, watch, p, from, to, order);
    WatchOnly(log, watch, p, to);
    SyncedAt(near, bodies, Replay(log + watch), p, from, to, order);
    hide Replay, AllTold, Receive, OwnSoFar, StaysOn, Gained, Lost;
  }

  lemma SamePictures(r: Picture, want: Picture)
    requires forall x :: x in r && x in want ==> r[x] == want[x]
    ensures r == want <==> forall x :: x in r <==> x in want
  {
    if forall x :: x in r <==> x in want {
      assert r.Keys == want.Keys;
      assert forall x :: x in r ==> x in want && r[x] == want[x];
    }
  }

  lemma WantedAt(near: Interest, bodies: map<Id, Body>, q: Id)
    requires q in bodies
    ensures forall x :: x in Visible(near, bodies, q) <==> x in bodies && near(bodies[q].pos, bodies[x].pos)
    ensures forall x :: x in Visible(near, bodies, q) ==> Visible(near, bodies, q)[x] == bodies[x].pos
  {}

  /** Where the connection showed what the mover should see, it still does exactly when the
      watchers' packets leave the mover on the screen. */
  lemma MoverShownExactly(near: Interest, bodies: map<Id, Body>, log: seq<Packet>, watch: seq<Packet>, p: Id, to: Pos,
                          order: seq<Id>)
    requires (forall a :: near(a, a)) && p in bodies && Listing(bodies, order) && OnlyAbout(watch, p, to)
    requires ListsAround(near, bodies, order, p, bodies[p].pos) && ListsAround(near, bodies, order, p, to)
    requires Replay(log) == Visible(near, bodies, p)
    ensures Replay(log + AllTold(near, bodies, watch, p, bodies[p].pos, to, order))
            == Visible(near, bodies[p := Body.Player(to)], p)
            <==> StaysOn(watch, p, true)
  {
    var from, after := bodies[p].pos, bodies[p := Body.Player(to)];
    var r, want := Replay(log + AllTold(near, bodies, watch, p, from, to, order)), Visible(near, after, p);
    ConnectionShows(near, bodies, log, watch, p, from, to, order);
    WantedAt(near, bodies, p);
    WantedAt(near, after, p);
    hide Replay, AllTold, Visible, StaysOn;
    SamePictures(r, want);
  }

  /** `q` sees whatever comes into the mover's view, and nothing that goes out of it. */
  ghost predicate SeesTheSame(near: Interest, bodies: map<Id, Body>, p: Id, q: Id, from: Pos, to: Pos)
    requires q in bodies
  {
    forall r :: r in bodies && r != p ==>
      && (Gained(near, bodies[r].pos, from, to) ==> near(bodies[q].pos, bodies[r].pos))
      && (Lost(near, bodies[r].pos, from, to) ==> !near(bodies[q].pos, bodies[r].pos))
  }

  /** Where the connection showed what another player should see, it still does exactly when that
      player sees whatever comes into the mover's view and nothing that goes out of it, and the
      watchers' packets leave the mover on the screen exactly if the player sees it. */
  lemma OtherShownExactly(near: Interest, bodies: map<Id, Body>, log: seq<Packet>, watch: seq<Packet>, p: Id, q: Id,
                          to: Pos, order: seq<Id>)
    requires p in bodies && q in bodies && p != q && Listing(bodies, order) && OnlyAbout(watch, p, to)
    requires ListsAround(near, bodies, order, p, bodies[p].pos) && ListsAround(near, bodies, order, p, to)
    requires Replay(log) == Visible(near, bodies, q)
    ensures Replay(log + AllTold(near, bodies, watch, p, bodies[p].pos, to, order))
            == Visible(near, bodies[p := Body.Player(to)], q)
            <==> SeesTheSame(near, bodies, p, q, bodies[p].pos, to)
                 && (StaysOn(watch, p, near(bodies[q].pos, bodies[p].pos)) <==> near(bodies[q].pos, to))
  {
    var from, viewer, after := bodies[p].pos, bodies[q].pos, bodies[p := Body.Player(to)];
    var r, want := Replay(log + AllTold(near, bodies, watch, p, from, to, order)), Visible(near, after, q);
    ConnectionShows(near, bodies, log, watch, p, from, to, order);
    WantedAt(near, bodies, q);
    WantedAt(near, after, q);
    hide Replay, AllTold, Visible, StaysOn, OnlyAbout, Listing, ListsAround;
    SamePictures(r, want);
    if x :| x in bodies && x != p && Gained(near, bodies[x].pos, from, to) && !near(viewer, bodies[x].pos) {
      assert x in r && x !in want;
    }
    if x :| x in bodies && x != p && Lost(near, bodies[x].pos, from, to) && near(viewer, bodies[x].pos) {
      assert x !in r && x in want;
    }
  }

  // ---------- The watchers on the connection ----------

  ghost predicate Companion(room: Room, mover: Creature, id: Id)
    reads room, room.players.Values, mover
  {
    id in room.players && id != mover.id && room.players[id].session == mover.session
  }

  /** The companion loses the mover from its view. */
  ghost predicate Loses(room: Room, mover: Creature, id: Id, from: Pos, to: Pos)
    reads room, room.players.Values, mover
  {
    Companion(room, mover, id) && room.near(room.players[id].pos, from) && !room.near(room.players[id].pos, to)
  }

  ghost predicate Gains(room: Room, mover: Creature, id: Id, from: Pos, to: Pos)
    reads room, room.players.Values, mover
  {
    Companion(room, mover, id) && !room.near(room.players[id].pos, from) && room.near(room.players[id].pos, to)
  }

  lemma {:induction false} WatchedIsAbout(room: Room, turns: seq<Id>, mover: Creature, from: Pos, to: Pos)
    requires room.Turns(turns) && mover.session.Some?
    ensures var watch := room.Watched(turns, mover.session.value, mover.id, from, to);
            && OnlyAbout(watch, mover.id, to)
            && (Despawn(mover.id) in watch <==> exists id :: id in turns && Loses(room, mover, id, from, to))
            && (Spawn(SpawnEntry(mover.id, to)) in watch <==>
                  exists id :: id in turns && Gains(room, mover, id, from, to))
  {
    if turns != [] {
      var front, last, s := turns[..|turns| - 1], turns[|turns| - 1], mover.session.value;
      WatchedIsAbout(room, front, mover, from, to);
      var before, sent := room.Watched(front, s, mover.id, from, to), room.WatchedBy(last, s, mover.id, from, to);
      assert room.Watched(turns, s, mover.id, from, to) == before + sent;
      OneWatch(room, last, mover, from, to);
      hide Room.Watched, Room.WatchedBy, Loses, Gains;
      assert turns == front + [last];
      assert forall id :: id in turns <==> id in front || id == last;
    }
  }

  lemma OneWatch(room: Room, id: Id, mover: Creature, from: Pos, to: Pos)
    requires id in room.players && mover.session.Some?
    ensures var sent := room.WatchedBy(id, mover.session.value, mover.id, from, to);
            && OnlyAbout(sent, mover.id, to)
            && (Despawn(mover.id) in sent <==> Loses(room, mover, id, from, to))
            && (Spawn(SpawnEntry(mover.id, to)) in sent <==> Gains(room, mover, id, from, to))
  {}

  /** The mover stays on the connection's screen if no companion loses it, and is off it if one
      does and none gains it; otherwise the companion that comes last in the table decides. */
  lemma WatchersDecide(room: Room, turns: seq<Id>, mover: Creature, from: Pos, to: Pos)
    requires room.Turns(turns) && SetOf(turns) == room.players.Keys && mover.session.Some?
    ensures var watch := room.Watched(turns, mover.session.value, mover.id, from, to);
            && OnlyAbout(watch, mover.id, to)
            && ((forall id :: !Loses(room, mover, id, from, to)) ==> StaysOn(watch, mover.id, true))
            && ((exists id :: Loses(room, mover, id, from, to)) && (forall id :: !Gains(room, mover, id, from, to)) ==>
                  !StaysOn(watch, mover.id, true) && !StaysOn(watch, mover.id, false))
  {
    WatchedIsAbout(room, turns, mover, from, to);
    assert forall id :: id in room.players ==> id in SetOf(turns);
    var watch := room.Watched(turns, mover.session.value, mover.id, from, to);
    hide Room.Watched;
    if watch != [] {
      assert watch[|watch| - 1] in watch;
    }
  }

  /** With one companion, where it stands decides: the mover stays on the screen exactly if the
      companion does not lose it, and is then shown exactly as the companion should see it. */
  lemma OneCompanionDecides(room: Room, turns: seq<Id>, mover: Creature, id: Id, from: Pos, to: Pos)
    requires room.Turns(turns) && SetOf(turns) == room.players.Keys && mover.session.Some?
    requires forall other :: Companion(room, mover, other) <==> other == id
    ensures id in room.players
    ensures var watch, at := room.Watched(turns, mover.session.value, mover.id, from, to), room.players[id].pos;
            && (StaysOn(watch, mover.id, true) <==> !Loses(room, mover, id, from, to))
            && (StaysOn(watch, mover.id, room.near(at, from)) <==> room.near(at, to))
  {
    assert Companion(room, mover, id);
    assert id in SetOf(turns);
    forall other | other in room.players && other != mover.id && other != id
      ensures room.players[other].session != mover.session
    {
      assert !Companion(room, mover, other);
    }
    room.OneWatcher(turns, id, mover.id, from, to);
    hide Room.Watched;
  }

  /** Handle_C_S_MOVE from the synchronisation on, when `mover` shares its connection with any number
      of other players: exactly when the connection shows afterwards what the mover should see, or
      what another should see, given that it did so before. What the mover loses from its view is
      not shown, whatever the connection showed before; nor is the mover if a companion loses it and
      none gains it. */
  method MoveShared(room: Room, mover: Creature, from: Pos, to: Pos, ghost bodies: map<Id, Body>)
    returns (ghost turns: seq<Id>)
    requires room.Indexed() && room.Connected() && bodies == room.Bodies() && mover.pos == to
    requires mover.id in room.players && room.players[mover.id] == mover && mover.session.Some?
    modifies room.net
    ensures mover.session.value in old(room.net.wire) && mover.session.value in room.net.wire
    ensures mover.id in bodies && room.players.Keys <= bodies.Keys
    ensures room.Turns(turns) && SetOf(turns) == room.players.Keys
    ensures var s, before := mover.session.value, bodies[mover.id := Body.Player(from)];
            var had, shown := Replay(old(room.net.wire)[s]), Replay(room.net.wire[s]);
            var watch := room.Watched(turns, s, mover.id, from, to);
            && (had == Visible(room.near, before, mover.id) ==>
                  (shown == Visible(room.near, bodies, mover.id) <==> StaysOn(watch, mover.id, true)))
            && (forall id :: Companion(room, mover, id) && had == Visible(room.near, before, id) ==>
                  (shown == Visible(room.near, bodies, id) <==>
                   SeesTheSame(room.near, bodies, mover.id, id, from, to)
                   && (StaysOn(watch, mover.id, room.near(bodies[id].pos, from)) <==> room.near(bodies[id].pos, to))))
            && (forall id :: id in bodies && id != mover.id && Lost(room.near, bodies[id].pos, from, to) ==>
                  id !in shown)
    ensures (forall id :: !Loses(room, mover, id, from, to)) ==>
              StaysOn(room.Watched(turns, mover.session.value, mover.id, from, to), mover.id, true)
    ensures (exists id :: Loses(room, mover, id, from, to)) && (forall id :: !Gains(room, mover, id, from, to)) ==>
              && !StaysOn(room.Watched(turns, mover.session.value, mover.id, from, to), mover.id, true)
              && mover.id !in Replay(room.net.wire[mover.session.value])
  {
    hide *;
    SharedFacts(room, mover, to, bodies);
    ghost var s, log := mover.session.value, room.net.wire[mover.session.value];
    ghost var order;
    turns, order := room.SyncPlayerVisibility(mover, from, to, bodies);
    StillConnected(room);
    NoticeShared(room, mover, to);
    WatchersDecide(room, turns, mover, from, to);
    ghost var watch := room.Watched(turns, s, mover.id, from, to);
    SentShared(room, log, turns, mover, from, to, bodies, order);
    assert room.net.wire[s] == log + AllTold(room.near, bodies, watch, mover.id, from, to, order);
    SharedPictures(room.near, bodies, log, watch, mover.id, from, to, order);
    CompanionsAreBodies(room, mover, bodies);
  }

  /** The notice goes to the connection once: the broadcast leaves it out. */
  method NoticeShared(room: Room, mover: Creature, to: Pos)
    requires room.layout.Valid() && room.Disc() && room.Connected() && mover.session.Some?
    requires mover.session.value in room.net.wire
    modifies room.net
    ensures mover.session.value in room.net.wire
    ensures var s := mover.session.value; room.net.wire[s] == old(room.net.wire)[s] + [MoveNotice(mover.id, to)]
  {
    hide *;
    room.net.Send(mover.session.value, MoveNotice(mover.id, to));
    StillConnected(room);
    ghost var heard, out := room.BroadcastToView(to, MoveNotice(mover.id, to), mover.session);
    NotToTheExcluded(room, heard, out, to, mover.session.value, MoveNotice(mover.id, to));
  }

  lemma SharedFacts(room: Room, mover: Creature, to: Pos, bodies: map<Id, Body>)
    requires room.Indexed() && room.Connected() && bodies == room.Bodies() && mover.pos == to
    requires mover.id in room.players && room.players[mover.id] == mover && mover.session.Some?
    ensures room.layout.Valid() && room.Disc() && mover.session.value in room.net.wire
    ensures forall a :: room.near(a, a)
    ensures mover.isPlayer && mover.id in room.residents && room.residents[mover.id] == mover
    ensures mover.id in bodies && bodies[mover.id] == Body.Player(to) && room.players.Keys <= bodies.Keys
  {
    assert room.residents[mover.id] == mover;
    forall id | id in room.players ensures id in bodies {
      room.SamePlayers(id);
    }
    forall a ensures room.near(a, a) {
      room.NearItself(a);
    }
  }

  lemma SentShared(room: Room, log: seq<Packet>, turns: seq<Id>, mover: Creature, from: Pos, to: Pos,
                   bodies: map<Id, Body>, order: seq<Id>)
    requires room.Turns(turns) && Listing(bodies, order) && mover.session.Some?
    ensures forall q :: q in order ==> q in bodies
    ensures var s := mover.session.value;
            log + room.SentTo(turns, s, mover, from, to, bodies, order) + [MoveNotice(mover.id, to)]
            == log + AllTold(room.near, bodies, room.Watched(turns, s, mover.id, from, to), mover.id, from, to, order)
  {
    hide OwnPackets, Room.Watched;
    var watch := room.Watched(turns, mover.session.value, mover.id, from, to);
    var own := OwnPackets(room.near, bodies, mover.id, from, to, order);
    assert room.SentTo(turns, mover.session.value, mover, from, to, bodies, order) == watch + own;
    assert log + (watch + own) + [MoveNotice(mover.id, to)] == log + (watch + own + [MoveNotice(mover.id, to)]);
  }

  lemma CompanionsAreBodies(room: Room, mover: Creature, bodies: map<Id, Body>)
    requires room.players.Keys <= bodies.Keys
    ensures forall id :: Companion(room, mover, id) ==> id in bodies && id != mover.id
  {}

  /** The exact conditions, with the room as it is after the move. */
  lemma SharedPictures(near: Interest, bodies: map<Id, Body>, log: seq<Packet>, watch: seq<Packet>, p: Id, from: Pos,
                       to: Pos, order: seq<Id>)
    requires p in bodies && bodies[p] == Body.Player(to) && (forall a :: near(a, a)) && Listing(bodies, order)
    requires ListsAround(near, bodies, order, p, from) && ListsAround(near, bodies, order, p, to)
    requires OnlyAbout(watch, p, to)
    ensures forall x :: x in order ==> x in bodies
    ensures var before := bodies[p := Body.Player(from)];
            var shown := Replay(log + AllTold(near, bodies, watch, p, from, to, order));
            && (p in shown <==> StaysOn(watch, p, p in Replay(log)))
            && (forall q :: q in bodies && q != p && Lost(near, bodies[q].pos, from, to) ==> q !in shown)
            && (Replay(log) == Visible(near, before, p) ==>
                  (shown == Visible(near, bodies, p) <==> StaysOn(watch, p, true)))
            && (forall q :: q in bodies && q != p && Replay(log) == Visible(near, before, q) ==>
                  (shown == Visible(near, bodies, q) <==>
                   SeesTheSame(near, bodies, p, q, from, to)
                   && (StaysOn(watch, p, near(bodies[q].pos, from)) <==> near(bodies[q].pos, to))))
  {
    hide Replay, OwnPackets, Visible, StaysOn;
    var before := bodies[p := Body.Player(from)];
    assert before[p := Body.Player(to)] == bodies;
    ConnectionShows(near, bodies, log, watch, p, from, to, order);
    OwnPacketsIgnoreMover(near, before, p, from, to, order);
    assert AllTold(near, before, watch, p, from, to, order) == AllTold(near, bodies, watch, p, from, to, order);
    assert Listing(before, order);
    assert ListsAround(near, before, order, p, from) && ListsAround(near, before, order, p, to);
    if Replay(log) == Visible(near, before, p) {
      MoverShownExactly(near, before, log, watch, p, to, order);
    }
    forall q | q in bodies && q != p && Replay(log) == Visible(near, before, q)
      ensures Replay(log + AllTold(near, bodies, watch, p, from, to, order)) == Visible(near, bodies, q) <==>
                SeesTheSame(near, bodies, p, q, from, to)
                && (StaysOn(watch, p, near(bodies[q].pos, from)) <==> near(bodies[q].pos, to))
    {
      OtherShownExactly(near, before, log, watch, p, q, to, order);
      assert SeesTheSame(near, before, p, q, from, to) == SeesTheSame(near, bodies, p, q, from, to);
    }
  }

  twostate lemma StillConnected(room: Room)
    requires old(room.Connected()) && unchanged(room) && room.net.wire.Keys == old(room.net.wire.Keys)
    requires forall id :: id in room.players ==> room.players[id].session == old(room.players[id].session)
    ensures room.Connected()
  {}

  lemma NotToTheExcluded(room: Room, heard: seq<Id>, out: seq<SessionId>, at: Pos, s: SessionId, packet: Packet)
    requires room.Belong(heard, out)
    requires forall id :: id in heard ==> id in room.players && room.Told(id, at, Some(s))
    ensures Copies(out, s, packet) == []
  {
    forall k | 0 <= k < |out| ensures out[k] != s {
      var id := heard[k];
      assert id in heard && room.players[id].session == Some(out[k]);
      assert room.Told(id, at, Some(s));
    }
    NoCopies(out, s, packet);
  }
}
