/** The game as a state machine, stated by brute force over all creatures and without any
    zone index: who is in the room, what every client shows, and what each request does.
    The server classes refine this machine; its theorems are about all runs. */
module World {
  import opened Wrappers
  import opened Zones
  import opened MapCollisions
  import opened Movement
  import opened Client

  datatype Body = Player(pos: Pos) | Monster(pos: Pos, hp: int)

  /** The numbers every player is initialised with. */
  datatype PlayerStats = PlayerStats(moveSpeed: real, attackDamage: int, attackRange: real, cooldownMs: nat)

  /** Who is shown to whom: the viewer's position first. For a room it is the viewing disc. */
  type Interest = (Pos, Pos) -> bool

  datatype Rules = Rules(near: Interest, spawn: Pos, tiles: Tiles, stats: PlayerStats) {
    /** Everybody sees what stands where it stands itself. */
    ghost predicate Valid() { tiles.Valid() && forall a :: near(a, a) }
  }

  /** A logged-in player: everything sent to its client, and the ticks of its last requests. */
  datatype Avatar = Avatar(log: seq<Packet>, lastMove: nat, lastAttack: nat) {
    function Shown(): Picture { Replay(log) }

    function Told(packet: Packet): Avatar { this.(log := log + [packet]) }
  }

  lemma TellShows(a: Avatar, packet: Packet)
    ensures a.Told(packet).Shown() == Receive(a.Shown(), packet)
  {
    ReplayAppend(a.log, packet);
  }

  datatype State = State(bodies: map<Id, Body>, avatars: map<Id, Avatar>, nextId: Id)

  /** What happens. A login finds what the connection was sent before; an entering and a moving
      player are told about other creatures in the order in which the tables list them. */
  datatype Event =
    | Login(p: Id, before: seq<Packet>)
    | LoginRefused(p: Id)
    | EnterRefused(p: Id)
    | Logout(p: Id)
    | Enter(p: Id, order: seq<Id>)
    | Leave(p: Id)
    | Move(p: Id, client: Pos, now: nat, root: real, order: seq<Id>)
    | Attack(p: Id, now: nat, target: Option<Id>)

  /** Exactly the creatures within the view radius (the player itself among them). */
  function Visible(near: Interest, bodies: map<Id, Body>, p: Id): Picture
    requires p in bodies
  {
    map q | q in bodies && near(bodies[p].pos, bodies[q].pos) :: bodies[q].pos
  }

  predicate Hears(near: Interest, bodies: map<Id, Body>, q: Id, at: Pos) {
    q in bodies && bodies[q].Player? && near(bodies[q].pos, at)
  }

  /** One packet, once, to every player in the room that can see a position. */
  function Broadcast(near: Interest, bodies: map<Id, Body>, avatars: map<Id, Avatar>, at: Pos, except: Option<Id>,
                     packet: Packet)
    : (heard: map<Id, Avatar>)
    ensures heard.Keys == avatars.Keys
  {
    map q | q in avatars ::
      if Hears(near, bodies, q, at) && except != Some(q) then avatars[q].Told(packet) else avatars[q]
  }

  /** One packet to one client. */
  function Tell(s: State, p: Id, packet: Packet): State
    requires p in s.avatars
  {
    s.(avatars := s.avatars[p := s.avatars[p].Told(packet)])
  }

  /** A listing of some of the room's creatures, each once. */
  ghost predicate Listing(bodies: map<Id, Body>, order: seq<Id>) {
    && (forall i :: 0 <= i < |order| ==> order[i] in bodies)
    && (forall i, j :: 0 <= i < j < |order| ==> order[i] != order[j])
  }

  function SetOf(order: seq<Id>): set<Id> { set q | q in order }

  /** ... among them everybody that stands near a point. */
  ghost predicate ListsAround(near: Interest, bodies: map<Id, Body>, order: seq<Id>, p: Id, at: Pos) {
    forall q :: q in bodies && q != p && near(at, bodies[q].pos) ==> q in order
  }

  /** The spawn list of an entering player: itself first, then whatever it sees. */
  function SpawnList(near: Interest, bodies: map<Id, Body>, p: Id, order: seq<Id>): seq<SpawnEntry>
    requires p in bodies && forall q :: q in order ==> q in bodies
  {
    if order == [] then [SpawnEntry(p, bodies[p].pos)]
    else
      var q := order[|order| - 1];
      SpawnList(near, bodies, p, order[..|order| - 1]) +
      if q != p && near(bodies[p].pos, bodies[q].pos) then [SpawnEntry(q, bodies[q].pos)] else []
  }

  lemma {:induction false} SpawnListMembers(near: Interest, bodies: map<Id, Body>, p: Id, order: seq<Id>)
    requires p in bodies && forall q :: q in order ==> q in bodies
    ensures forall e :: e in SpawnList(near, bodies, p, order) <==>
              e == SpawnEntry(p, bodies[p].pos)
              || (e.id in order && e.id != p && near(bodies[p].pos, bodies[e.id].pos) && e.pos == bodies[e.id].pos)
  {
    if order != [] {
      SpawnListMembers(near, bodies, p, order[..|order| - 1]);
      assert order == order[..|order| - 1] + [order[|order| - 1]];
    }
  }

  /** It shows exactly what the player should see ... */
  lemma SpawnListShows(near: Interest, bodies: map<Id, Body>, p: Id, order: seq<Id>)
    requires p in bodies && Listing(bodies, order) && ListsAround(near, bodies, order, p, bodies[p].pos)
    requires near(bodies[p].pos, bodies[p].pos)
    ensures Lists(SpawnList(near, bodies, p, order), Visible(near, bodies, p))
  {
    SpawnListMembers(near, bodies, p, order);
    var spawns := SpawnList(near, bodies, p, order);
    forall i | 0 <= i < |spawns|
      ensures spawns[i].id in Visible(near, bodies, p) && Visible(near, bodies, p)[spawns[i].id] == spawns[i].pos
    {
      assert spawns[i] in spawns;
    }
  }

  /** ... and names nobody twice. */
  lemma {:induction false} SpawnListOnce(near: Interest, bodies: map<Id, Body>, p: Id, order: seq<Id>)
    requires p in bodies && Listing(bodies, order)
    ensures EachOnce(SpawnList(near, bodies, p, order))
  {
    if order != [] {
      var front, q := order[..|order| - 1], order[|order| - 1];
      SpawnListOnce(near, bodies, p, front);
      SpawnListMembers(near, bodies, p, front);
      var before, spawns := SpawnList(near, bodies, p, front), SpawnList(near, bodies, p, order);
      assert q !in front;
      forall i | 0 <= i < |before| ensures before[i].id == p || before[i].id in front {
        assert before[i] in SpawnList(near, bodies, p, front);
      }
      assert spawns == before || (q != p && spawns == before + [SpawnEntry(q, bodies[q].pos)]);
      hide SpawnList;
      forall i, j | 0 <= i < j < |spawns| ensures spawns[i].id != spawns[j].id {
        assert spawns[i] == before[i];
      }
    }
  }

  /** The room after `p` has entered. */
  function WithPlayer(rules: Rules, bodies: map<Id, Body>, p: Id): map<Id, Body> {
    if p in bodies then bodies else bodies[p := Player(rules.spawn)]
  }

  function DoEnter(rules: Rules, s: State, p: Id, order: seq<Id>): State
    requires p in s.avatars && forall q :: q in order ==> q in WithPlayer(rules, s.bodies, p)
  {
    var bodies := WithPlayer(rules, s.bodies, p);
    var heard := if p in s.bodies then s.avatars
                 else Broadcast(rules.near, bodies, s.avatars, rules.spawn, Some(p), Spawn(SpawnEntry(p, rules.spawn)));
    var me := heard[p].Told(EnterReply(true, p, SpawnList(rules.near, bodies, p, order)));
    State(bodies, heard[p := me.(lastMove := 0)], s.nextId)
  }

  /** Going out of the room; nothing if `p` is not in it. */
  function Quit(rules: Rules, s: State, p: Id): State
    requires p in s.avatars
  {
    if p !in s.bodies then s
    else
      var heard := Broadcast(rules.near, s.bodies, s.avatars, s.bodies[p].pos, None, Despawn(p));
      State(s.bodies - {p}, heard[p := heard[p].(lastMove := 0)], s.nextId)
  }

  function DoLeave(rules: Rules, s: State, p: Id): State
    requires p in s.avatars
  {
    Tell(Quit(rules, s, p), p, LeaveReply(true))
  }

  /** What another player's client is told when `p` moves: a spawn when it comes into view, a
      despawn when it goes out of view, and then the move itself to all who see the new position. */
  function WatchPackets(near: Interest, viewer: Pos, p: Id, from: Pos, to: Pos): seq<Packet> {
    if near(viewer, to) && !near(viewer, from) then [Spawn(SpawnEntry(p, to))]
    else if !near(viewer, to) && near(viewer, from) then [Despawn(p)]
    else []
  }

  function WatchMove(near: Interest, viewer: Pos, p: Id, from: Pos, to: Pos): seq<Packet> {
    WatchPackets(near, viewer, p, from, to) + if near(viewer, to) then [MoveNotice(p, to)] else []
  }

  predicate Gained(near: Interest, at: Pos, from: Pos, to: Pos) { near(to, at) && !near(from, at) }
  predicate Lost(near: Interest, at: Pos, from: Pos, to: Pos) { near(from, at) && !near(to, at) }

  /** What the mover's own client is told about one creature. */
  function OwnPacket(near: Interest, bodies: map<Id, Body>, p: Id, from: Pos, to: Pos, q: Id): seq<Packet>
    requires q in bodies
  {
    if q == p then []
    else if Gained(near, bodies[q].pos, from, to) then [Spawn(SpawnEntry(q, bodies[q].pos))]
    else if Lost(near, bodies[q].pos, from, to) then [Despawn(q)]
    else []
  }

  /** One spawn for each creature that comes into view, one despawn for each that goes out of
      view, in the order of the visits. */
  function OwnPackets(near: Interest, bodies: map<Id, Body>, p: Id, from: Pos, to: Pos, order: seq<Id>): seq<Packet>
    requires forall q :: q in order ==> q in bodies
  {
    if order == [] then []
    else OwnPackets(near, bodies, p, from, to, order[..|order| - 1]) +
         OwnPacket(near, bodies, p, from, to, order[|order| - 1])
  }

  function GainedOf(near: Interest, bodies: map<Id, Body>, p: Id, from: Pos, to: Pos, seen: set<Id>): Picture {
    map q | q in bodies && q in seen && q != p && Gained(near, bodies[q].pos, from, to) :: bodies[q].pos
  }

  function LostOf(near: Interest, bodies: map<Id, Body>, p: Id, from: Pos, to: Pos, seen: set<Id>): set<Id> {
    set q | q in bodies && q in seen && q != p && Lost(near, bodies[q].pos, from, to)
  }

  /** The mover's own picture after the creatures in `seen` have been looked at. */
  function OwnSoFar(near: Interest, bodies: map<Id, Body>, pic: Picture, p: Id, from: Pos, to: Pos, seen: set<Id>)
    : Picture
  {
    GainedOf(near, bodies, p, from, to, seen) + (pic - LostOf(near, bodies, p, from, to, seen))
  }

  lemma OwnSoFarNext(near: Interest, bodies: map<Id, Body>, pic: Picture, p: Id, from: Pos, to: Pos, seen: set<Id>,
                     q: Id)
    requires q in bodies
    ensures OwnSoFar(near, bodies, pic, p, from, to, seen + {q})
            == OwnTold(near, bodies, OwnSoFar(near, bodies, pic, p, from, to, seen), p, from, to, q)
  {
    var gained, lost := GainedOf(near, bodies, p, from, to, seen), LostOf(near, bodies, p, from, to, seen);
    var pos := bodies[q].pos;
    assert GainedOf(near, bodies, p, from, to, seen + {q})
        == if q != p && Gained(near, pos, from, to) then gained[q := pos] else gained;
    assert LostOf(near, bodies, p, from, to, seen + {q})
        == if q != p && Lost(near, pos, from, to) then lost + {q} else lost;
    assert q in gained ==> q != p && Gained(near, pos, from, to) && gained[q] == pos;
    hide GainedOf, LostOf;
    MergeSpawn(gained, pic - lost, q, pos);
    MergeDespawn(gained, pic, lost, q);
  }

  lemma MergeSpawn(gained: Picture, rest: Picture, q: Id, pos: Pos)
    ensures (q in gained ==> gained[q] == pos) ==>
              gained[q := pos] + rest == SpawnOne(gained + rest, SpawnEntry(q, pos))
  {}

  lemma MergeDespawn(gained: Picture, pic: Picture, lost: set<Id>, q: Id)
    ensures q !in gained ==> gained + (pic - (lost + {q})) == (gained + (pic - lost)) - {q}
  {}

  /** The effect of looking at one more creature. */
  function OwnTold(near: Interest, bodies: map<Id, Body>, now: Picture, p: Id, from: Pos, to: Pos, q: Id): Picture
    requires q in bodies
  {
    if q == p then now
    else if Gained(near, bodies[q].pos, from, to) then Receive(now, Spawn(SpawnEntry(q, bodies[q].pos)))
    else if Lost(near, bodies[q].pos, from, to) then Receive(now, Despawn(q))
    else now
  }

  lemma OwnPacketShows(near: Interest, bodies: map<Id, Body>, log: seq<Packet>, p: Id, from: Pos, to: Pos, q: Id)
    requires q in bodies
    ensures Replay(log + OwnPacket(near, bodies, p, from, to, q)) == OwnTold(near, bodies, Replay(log), p, from, to, q)
  {
    hide Replay, Receive;
    var packet := OwnPacket(near, bodies, p, from, to, q);
    if packet != [] {
      ReplayAppend(log, packet[0]);
      assert packet == [packet[0]];
    } else {
      assert log + packet == log;
    }
  }

  lemma {:induction false} OwnPacketsShow(near: Interest, bodies: map<Id, Body>, log: seq<Packet>, p: Id, from: Pos,
                                          to: Pos, order: seq<Id>)
    requires forall q :: q in order ==> q in bodies
    ensures Replay(log + OwnPackets(near, bodies, p, from, to, order))
            == OwnSoFar(near, bodies, Replay(log), p, from, to, SetOf(order))
  {
    if order == [] {
      assert log + [] == log;
    } else {
      var front, q := order[..|order| - 1], order[|order| - 1];
      var before, packet := OwnPackets(near, bodies, p, from, to, front), OwnPacket(near, bodies, p, from, to, q);
      assert OwnPackets(near, bodies, p, from, to, order) == before + packet;
      SeenNext(order);
      Regrouped(log, before, packet);
      hide *;
      OwnPacketsShow(near, bodies, log, p, from, to, front);
      OwnPacketShows(near, bodies, log + before, p, from, to, q);
      OwnSoFarNext(near, bodies, Replay(log), p, from, to, SetOf(front), q);
    }
  }

  lemma SeenNext(order: seq<Id>)
    requires order != []
    ensures SetOf(order) == SetOf(order[..|order| - 1]) + {order[|order| - 1]}
  {
    assert order == order[..|order| - 1] + [order[|order| - 1]];
  }

  lemma Regrouped(a: seq<Packet>, b: seq<Packet>, c: seq<Packet>)
    ensures a + (b + c) == a + b + c
  {}

  /** Spawns and despawns when `p` moves, its own and those of the other players in the room. */
  function SyncMove(near: Interest, bodies: map<Id, Body>, avatars: map<Id, Avatar>, p: Id, from: Pos, to: Pos,
                    order: seq<Id>)
    : map<Id, Avatar>
    requires forall q :: q in order ==> q in bodies
  {
    map q | q in avatars :: avatars[q].(log := avatars[q].log + SyncPackets(near, bodies, q, p, from, to, order))
  }

  function SyncPackets(near: Interest, bodies: map<Id, Body>, q: Id, p: Id, from: Pos, to: Pos, order: seq<Id>)
    : seq<Packet>
    requires forall x :: x in order ==> x in bodies
  {
    if q == p then OwnPackets(near, bodies, p, from, to, order)
    else if q in bodies && bodies[q].Player? then WatchPackets(near, bodies[q].pos, p, from, to)
    else []
  }

  /** What each client is told in all: the mover is told its position whatever it sees. */
  function MovePackets(near: Interest, bodies: map<Id, Body>, q: Id, p: Id, from: Pos, to: Pos, order: seq<Id>)
    : seq<Packet>
    requires forall x :: x in order ==> x in bodies
  {
    if q == p then OwnPackets(near, bodies, p, from, to, order) + [MoveNotice(p, to)]
    else if q in bodies && bodies[q].Player? then WatchMove(near, bodies[q].pos, p, from, to)
    else []
  }

  ghost function MoveTarget(rules: Rules, s: State, e: Event): Pos
    requires rules.Valid() && e.Move? && e.p in s.bodies && e.p in s.avatars
    requires IsRoot(e.root, DistSq(s.bodies[e.p].pos, e.client))
  {
    ValidateClientPosition(rules.tiles, s.bodies[e.p].pos, e.client, rules.stats.moveSpeed,
                           EffectiveDelta(s.avatars[e.p].lastMove, e.now), e.root)
  }

  function Moved(rules: Rules, s: State, p: Id, now: nat, from: Pos, to: Pos, order: seq<Id>): State
    requires p in s.avatars && forall q :: q in order ==> q in s.bodies
  {
    var told := map q | q in s.avatars ::
        s.avatars[q].(log := s.avatars[q].log + MovePackets(rules.near, s.bodies, q, p, from, to, order));
    State(s.bodies[p := Player(to)], told[p := told[p].(lastMove := now)], s.nextId)
  }

  lemma {:induction false} OwnPacketsIgnoreMover(near: Interest, bodies: map<Id, Body>, p: Id, from: Pos, to: Pos,
                                                 order: seq<Id>)
    requires p in bodies && forall q :: q in order ==> q in bodies
    ensures OwnPackets(near, bodies[p := Player(to)], p, from, to, order)
            == OwnPackets(near, bodies, p, from, to, order)
  {
    if order != [] {
      OwnPacketsIgnoreMover(near, bodies, p, from, to, order[..|order| - 1]);
    }
  }

  /** 64-bit unsigned subtraction of ticks. */
  function TickDiff(now: nat, last: nat): nat { (now - last) % 0x1_0000_0000_0000_0000 }

  predicate OnCooldown(rules: Rules, a: Avatar, now: nat) { TickDiff(now, a.lastAttack) < rules.stats.cooldownMs }

  predicate CanHit(rules: Rules, bodies: map<Id, Body>, at: Pos, m: Id) {
    && m in bodies && bodies[m].Monster? && bodies[m].hp > 0
    && rules.near(at, bodies[m].pos)
    && DistSq(at, bodies[m].pos) <= rules.stats.attackRange * rules.stats.attackRange
    && rules.stats.attackDamage > 0
  }

  function Dealt(rules: Rules, hp: int): int {
    if hp <= rules.stats.attackDamage then hp else rules.stats.attackDamage
  }

  /** The monster hit, as the announcement names it. */
  function HitId(target: Option<Id>): Id { if target.Some? then target.value else 0 }

  function HpShown(bodies: map<Id, Body>, target: Option<Id>): int {
    if target.Some? && target.value in bodies && bodies[target.value].Monster? then bodies[target.value].hp else 0
  }

  /** The room after the damage. */
  function Struck(rules: Rules, bodies: map<Id, Body>, target: Option<Id>): map<Id, Body>
    requires target.Some? ==> target.value in bodies && bodies[target.value].Monster?
  {
    if target.None? then bodies
    else
      var body := bodies[target.value];
      bodies[target.value := body.(hp := body.hp - Dealt(rules, body.hp))]
  }

  /** The tick, the damage, the announcement of the attack to all who see the attacker, and the
      announcement of a death to all who see the dead monster, which then leaves the room. */
  function DoAttack(rules: Rules, s: State, p: Id, now: nat, target: Option<Id>): State
    requires p in s.bodies && p in s.avatars
    requires target.Some? ==> target.value in s.bodies && s.bodies[target.value].Monster?
  {
    if OnCooldown(rules, s.avatars[p], now) then s else
      var swung := s.avatars[p := s.avatars[p].(lastAttack := now)];
      var struck := Struck(rules, s.bodies, target);
      var notice := AttackNotice(p, HitId(target), HpShown(struck, target));
      var noticed := Broadcast(rules.near, struck, swung, s.bodies[p].pos, None, notice);
      if target.Some? && struck[target.value].hp <= 0 then
        var m := target.value;
        State(struck - {m}, Broadcast(rules.near, struck, noticed, struck[m].pos, None, Die(m)), s.nextId)
      else State(struck, noticed, s.nextId)
  }

  /** Which requests the server acts on, and which choices it may make. An attack hits some
      monster that is alive, in view and in range, whichever the table lists first, and misses
      only when there is none. */
  ghost predicate Enabled(rules: Rules, s: State, e: Event)
    requires rules.Valid()
  {
    match e
    case Login(p, before) => p == s.nextId && AllHarmless(before)
    case LoginRefused(p) => p in s.avatars
    case EnterRefused(p) => p in s.avatars && !rules.tiles.IsLoaded()
    case Logout(p) => p in s.avatars
    case Enter(p, order) =>
      var bodies := WithPlayer(rules, s.bodies, p);
      && p in s.avatars && rules.tiles.IsLoaded()
      && Listing(bodies, order) && ListsAround(rules.near, bodies, order, p, bodies[p].pos)
    case Leave(p) => p in s.avatars
    case Move(p, client, _, root, order) =>
      && p in s.avatars && p in s.bodies && IsRoot(root, DistSq(s.bodies[p].pos, client))
      && Listing(s.bodies, order)
      && ListsAround(rules.near, s.bodies, order, p, s.bodies[p].pos)
      && ListsAround(rules.near, s.bodies, order, p, MoveTarget(rules, s, e))
    case Attack(p, now, target) =>
      && p in s.avatars && p in s.bodies
      && (target.Some? ==> CanHit(rules, s.bodies, s.bodies[p].pos, target.value))
      && (target.None? && !OnCooldown(rules, s.avatars[p], now) ==>
            forall m :: m in s.bodies ==> !CanHit(rules, s.bodies, s.bodies[p].pos, m))
  }

  ghost function Step(rules: Rules, s: State, e: Event): State
    requires rules.Valid() && Enabled(rules, s, e)
  {
    match e
    case Login(p, before) => State(s.bodies, s.avatars[p := Avatar(before + [LoginReply(true)], 0, 0)], s.nextId + 1)
    case LoginRefused(p) => Tell(s, p, LoginReply(false))
    case EnterRefused(p) => Tell(s, p, EnterReply(false, 0, []))
    case Logout(p) => var left := Quit(rules, s, p); left.(avatars := left.avatars - {p})
    case Enter(p, order) => DoEnter(rules, s, p, order)
    case Leave(p) => DoLeave(rules, s, p)
    case Move(p, _, now, _, order) => Moved(rules, s, p, now, s.bodies[p].pos, MoveTarget(rules, s, e), order)
    case Attack(p, now, target) => DoAttack(rules, s, p, now, target)
  }

  ghost predicate IsStep(rules: Rules, s: State, e: Event, t: State) {
    rules.Valid() && Enabled(rules, s, e) && t == Step(rules, s, e)
  }

  // ---------- Handlers do several things one after the other ----------

  /** One client's part of MovedInSteps. */
  lemma MoveTold(near: Interest, bodies: map<Id, Body>, a: Avatar, q: Id, p: Id, from: Pos, to: Pos, order: seq<Id>)
    requires p in bodies && bodies[p].Player? && forall x :: x in order ==> x in bodies
    ensures var after := bodies[p := Player(to)];
            var log := a.log + SyncPackets(near, after, q, p, from, to, order) +
              (if q == p || Hears(near, after, q, to) then [MoveNotice(p, to)] else []);
            log == a.log + MovePackets(near, bodies, q, p, from, to, order)
  {
    OwnPacketsIgnoreMover(near, bodies, p, from, to, order);
  }

  /** The order of the handler: the tick, the spawns and despawns, the mover's own notice, and
      the notice to everybody else in view. */
  lemma MovedInSteps(rules: Rules, s: State, p: Id, now: nat, from: Pos, to: Pos, order: seq<Id>)
    requires p in s.avatars && p in s.bodies && s.bodies[p].Player? && forall q :: q in order ==> q in s.bodies
    ensures var bodies := s.bodies[p := Player(to)];
            var ticked := s.avatars[p := s.avatars[p].(lastMove := now)];
            var synced := SyncMove(rules.near, bodies, ticked, p, from, to, order);
            var noticed := synced[p := synced[p].Told(MoveNotice(p, to))];
            State(bodies, Broadcast(rules.near, bodies, noticed, to, Some(p), MoveNotice(p, to)), s.nextId)
            == Moved(rules, s, p, now, from, to, order)
  {
    var bodies := s.bodies[p := Player(to)];
    var ticked := s.avatars[p := s.avatars[p].(lastMove := now)];
    var synced := SyncMove(rules.near, bodies, ticked, p, from, to, order);
    var noticed := synced[p := synced[p].Told(MoveNotice(p, to))];
    var heard := Broadcast(rules.near, bodies, noticed, to, Some(p), MoveNotice(p, to));
    var want := Moved(rules, s, p, now, from, to, order).avatars;
    forall q | q in s.avatars ensures heard[q] == want[q] {
      MoveTold(rules.near, s.bodies, s.avatars[q], q, p, from, to, order);
      hide SyncPackets, MovePackets, Hears;
      assert synced[q] == ticked[q].(log := ticked[q].log + SyncPackets(rules.near, bodies, q, p, from, to, order));
    }
  }

  // ---------- What every step keeps ----------

  /** Ids are fresh, player bodies belong to logged-in players, and monster ids do not. */
  ghost predicate WellFormed(s: State) {
    && (forall q :: q in s.bodies ==> (s.bodies[q].Player? <==> q in s.avatars))
    && (forall q :: q in s.bodies ==> q < s.nextId)
    && (forall q :: q in s.avatars ==> q < s.nextId)
  }

  /** The property interest management is for: each in-room player's client shows itself and
      every creature within the view radius, where the server has them, and nothing else; a
      client outside the room shows nothing. */
  ghost predicate Synced(rules: Rules, s: State) {
    forall p :: p in s.avatars ==> s.avatars[p].Shown() == ShouldShow(rules, s, p)
  }

  function ShouldShow(rules: Rules, s: State, p: Id): Picture {
    if p in s.bodies then Visible(rules.near, s.bodies, p) else map[]
  }

  ghost predicate MonstersAlive(s: State) {
    forall m :: m in s.bodies && s.bodies[m].Monster? ==> s.bodies[m].hp > 0
  }

  ghost predicate PlayersOnFreeTiles(rules: Rules, s: State)
    requires rules.Valid()
  {
    forall p :: p in s.bodies && s.bodies[p].Player? ==>
        rules.tiles.IsWalkableWithRadius(s.bodies[p].pos, CREATURE_COLLISION_RADIUS)
  }

  /** What a client shows after a broadcast. */
  function HeardBy(near: Interest, bodies: map<Id, Body>, q: Id, at: Pos, except: Option<Id>, pic: Picture,
                   packet: Packet): Picture {
    if Hears(near, bodies, q, at) && except != Some(q) then Receive(pic, packet) else pic
  }

  /** A broadcast changes what is shown exactly where it is heard. */
  lemma BroadcastShows(near: Interest, bodies: map<Id, Body>, avatars: map<Id, Avatar>, at: Pos, except: Option<Id>,
                       packet: Packet)
    ensures var heard := Broadcast(near, bodies, avatars, at, except, packet);
            && heard.Keys == avatars.Keys
            && forall q :: q in avatars ==>
                 heard[q].Shown() == HeardBy(near, bodies, q, at, except, avatars[q].Shown(), packet)
  {
    hide Replay, Receive;
    forall q | q in avatars
      ensures avatars[q].Told(packet).Shown() == Receive(avatars[q].Shown(), packet)
    {
      TellShows(avatars[q], packet);
    }
  }

  /** Another player's view of an entrant ... */
  lemma ViewWithEntrant(near: Interest, bodies: map<Id, Body>, q: Id, p: Id, at: Pos)
    requires q in bodies && bodies[q].Player? && p !in bodies && p != q
    ensures var after := bodies[p := Player(at)];
            Visible(near, after, q)
            == HeardBy(near, after, q, at, Some(p), Visible(near, bodies, q), Spawn(SpawnEntry(p, at)))
  {}

  /** ... of a creature that is no longer there ... */
  lemma ViewWithout(near: Interest, bodies: map<Id, Body>, q: Id, p: Id, packet: Packet)
    requires q in bodies && bodies[q].Player? && p in bodies && p != q && (packet == Despawn(p) || packet == Die(p))
    ensures Visible(near, bodies - {p}, q)
            == HeardBy(near, bodies, q, bodies[p].pos, None, Visible(near, bodies, q), packet)
  {}

  /** ... and of one that has lost hit points. */
  lemma ViewOfStruck(rules: Rules, bodies: map<Id, Body>, q: Id, target: Option<Id>)
    requires q in bodies && (target.Some? ==> target.value in bodies && bodies[target.value].Monster?)
    ensures Visible(rules.near, Struck(rules, bodies, target), q) == Visible(rules.near, bodies, q)
  {}

  lemma EntrantSynced(rules: Rules, s: State, p: Id, order: seq<Id>, a: Avatar)
    requires rules.Valid() && Enabled(rules, s, Enter(p, order))
    requires a.Shown() == map[] || a.Shown() == Visible(rules.near, WithPlayer(rules, s.bodies, p), p)
    ensures var bodies := WithPlayer(rules, s.bodies, p);
            a.Told(EnterReply(true, p, SpawnList(rules.near, bodies, p, order))).Shown()
            == Visible(rules.near, bodies, p)
  {
    hide Replay, SpawnAll;
    var bodies := WithPlayer(rules, s.bodies, p);
    var spawns, shown := SpawnList(rules.near, bodies, p, order), Visible(rules.near, bodies, p);
    SpawnListShows(rules.near, bodies, p, order);
    hide Visible, SpawnList;
    SpawnAllMerges(a.Shown(), spawns, shown);
    TellShows(a, EnterReply(true, p, spawns));
    assert shown + a.Shown() == shown;
  }

  lemma EnterKeepsSynced(rules: Rules, s: State, p: Id, order: seq<Id>)
    requires rules.Valid() && WellFormed(s) && Synced(rules, s) && Enabled(rules, s, Enter(p, order))
    ensures Synced(rules, DoEnter(rules, s, p, order))
  {
    hide Replay, SpawnList;
    var bodies, packet := WithPlayer(rules, s.bodies, p), Spawn(SpawnEntry(p, rules.spawn));
    var t := DoEnter(rules, s, p, order);
    EntrantSynced(rules, s, p, order, s.avatars[p]);
    if p !in s.bodies {
      BroadcastShows(rules.near, bodies, s.avatars, rules.spawn, Some(p), packet);
      forall q | q in t.avatars && q != p
        ensures t.avatars[q].Shown() == ShouldShow(rules, t, q)
      {
        if q in s.bodies {
          ViewWithEntrant(rules.near, s.bodies, q, p, rules.spawn);
        }
      }
    }
  }

  lemma QuitKeepsOthersSynced(rules: Rules, s: State, p: Id)
    requires rules.Valid() && WellFormed(s) && Synced(rules, s) && p in s.avatars
    ensures var t := Quit(rules, s, p);
            forall q :: q in t.avatars && q != p ==> t.avatars[q].Shown() == ShouldShow(rules, t, q)
  {
    if p in s.bodies {
      var t := Quit(rules, s, p);
      var heard := Broadcast(rules.near, s.bodies, s.avatars, s.bodies[p].pos, None, Despawn(p));
      assert t == State(s.bodies - {p}, heard[p := heard[p].(lastMove := 0)], s.nextId);
      BroadcastShows(rules.near, s.bodies, s.avatars, s.bodies[p].pos, None, Despawn(p));
      forall q | q in t.avatars && q != p ensures t.avatars[q].Shown() == ShouldShow(rules, t, q) {
        hide Replay, Broadcast, Visible, Quit;
        assert t.avatars[q] == heard[q];
        if q in s.bodies {
          ViewWithout(rules.near, s.bodies, q, p, Despawn(p));
        }
      }
    }
  }

  lemma LeaveKeepsSynced(rules: Rules, s: State, p: Id)
    requires rules.Valid() && WellFormed(s) && Synced(rules, s) && p in s.avatars
    ensures Synced(rules, DoLeave(rules, s, p))
  {
    hide Replay;
    QuitKeepsOthersSynced(rules, s, p);
    TellShows(Quit(rules, s, p).avatars[p], LeaveReply(true));
  }

  lemma MoveKeepsSynced(rules: Rules, s: State, e: Event)
    requires rules.Valid() && WellFormed(s) && Synced(rules, s) && e.Move? && Enabled(rules, s, e)
    ensures Synced(rules, Step(rules, s, e))
  {
    var p, from, to, t := e.p, s.bodies[e.p].pos, MoveTarget(rules, s, e), Step(rules, s, e);
    forall q | q in t.avatars
      ensures t.avatars[q].Shown() == ShouldShow(rules, t, q)
    {
      hide Replay, MovePackets;
      assert t.avatars[q].log == s.avatars[q].log + MovePackets(rules.near, s.bodies, q, p, from, to, e.order);
      if q == p {
        OwnKeepsSynced(rules.near, s.bodies, s.avatars[p].log, p, to, e.order);
      } else if q in s.bodies {
        OtherKeepsSynced(rules.near, s.bodies, s.avatars[q].log, q, p, to, e.order);
      } else {
        OutsiderUntold(rules.near, s.bodies, s.avatars[q].log, q, p, from, to, e.order);
      }
    }
  }

  lemma OutsiderUntold(near: Interest, bodies: map<Id, Body>, log: seq<Packet>, q: Id, p: Id, from: Pos, to: Pos,
                       order: seq<Id>)
    requires q != p && q !in bodies && forall x :: x in order ==> x in bodies
    ensures log + MovePackets(near, bodies, q, p, from, to, order) == log
  {}

  /** One spawn, despawn or notice turns another player's old view into the new one. */
  lemma OtherKeepsSynced(near: Interest, bodies: map<Id, Body>, log: seq<Packet>, q: Id, p: Id, to: Pos, order: seq<Id>)
    requires p in bodies && bodies[p].Player? && q in bodies && bodies[q].Player? && q != p
    requires forall x :: x in order ==> x in bodies
    requires Replay(log) == Visible(near, bodies, q)
    ensures Replay(log + MovePackets(near, bodies, q, p, bodies[p].pos, to, order))
            == Visible(near, bodies[p := Player(to)], q)
  {
    hide Replay;
    var after, from, viewer := bodies[p := Player(to)], bodies[p].pos, bodies[q].pos;
    var watch := WatchPackets(near, viewer, p, from, to);
    assert forall i :: i in after && i != p ==> after[i] == bodies[i];
    WatchShows(near, log, viewer, p, from, to);
    var told := WatchMove(near, viewer, p, from, to);
    if near(viewer, to) {
      assert log + told == log + watch + [MoveNotice(p, to)];
      ReplayAppend(log + watch, MoveNotice(p, to));
    } else {
      assert told == watch;
    }
  }

  lemma WatchShows(near: Interest, log: seq<Packet>, viewer: Pos, p: Id, from: Pos, to: Pos)
    ensures Replay(log + WatchPackets(near, viewer, p, from, to)) ==
              if near(viewer, to) && !near(viewer, from) then Receive(Replay(log), Spawn(SpawnEntry(p, to)))
              else if !near(viewer, to) && near(viewer, from) then Receive(Replay(log), Despawn(p))
              else Replay(log)
  {
    hide Replay, Receive;
    var sent := WatchPackets(near, viewer, p, from, to);
    if sent == [] {
      assert log + sent == log;
    } else {
      ReplayAppend(log, sent[0]);
      assert sent == [sent[0]];
    }
  }

  /** The mover's spawns and despawns turn its old view into the new one. */
  lemma OwnKeepsSynced(near: Interest, bodies: map<Id, Body>, log: seq<Packet>, p: Id, to: Pos, order: seq<Id>)
    requires (forall a :: near(a, a)) && p in bodies && bodies[p].Player? && Listing(bodies, order)
    requires ListsAround(near, bodies, order, p, bodies[p].pos) && ListsAround(near, bodies, order, p, to)
    requires Replay(log) == Visible(near, bodies, p)
    ensures Replay(log + MovePackets(near, bodies, p, p, bodies[p].pos, to, order))
            == Visible(near, bodies[p := Player(to)], p)
  {
    hide Replay, OwnPackets;
    var from, own := bodies[p].pos, OwnPackets(near, bodies, p, bodies[p].pos, to, order);
    OwnPacketsShow(near, bodies, log, p, from, to, order);
    assert log + (own + [MoveNotice(p, to)]) == log + own + [MoveNotice(p, to)];
    ReplayAppend(log + own, MoveNotice(p, to));
    OwnViewMoves(near, bodies, p, to, SetOf(order));
  }

  lemma OwnViewMoves(near: Interest, bodies: map<Id, Body>, p: Id, to: Pos, seen: set<Id>)
    requires (forall a :: near(a, a)) && p in bodies && bodies[p].Player?
    requires forall q ::
              q in bodies && q != p && (near(bodies[p].pos, bodies[q].pos) || near(to, bodies[q].pos)) ==> q in seen
    ensures Receive(OwnSoFar(near, bodies, Visible(near, bodies, p), p, bodies[p].pos, to, seen), MoveNotice(p, to))
            == Visible(near, bodies[p := Player(to)], p)
  {
    var from, pic, after := bodies[p].pos, Visible(near, bodies, p), bodies[p := Player(to)];
    var r := Receive(OwnSoFar(near, bodies, pic, p, from, to, seen), MoveNotice(p, to));
    var want := Visible(near, after, p);
    assert p in r && p in want && r[p] == to && want[p] == to;
    forall q | q != p
      ensures q in r <==> q in want
      ensures q in r ==> r[q] == want[q]
    {
      if q in bodies {
        var can, could := near(to, bodies[q].pos), near(from, bodies[q].pos);
        assert q in pic <==> could;
      }
    }
  }

  lemma AttackKeepsSynced(rules: Rules, s: State, e: Event)
    requires rules.Valid() && WellFormed(s) && Synced(rules, s) && e.Attack? && Enabled(rules, s, e)
    ensures Synced(rules, Step(rules, s, e))
  {
    hide Replay, Broadcast, Visible;
    var p, t := e.p, Step(rules, s, e);
    var swung := s.avatars[p := s.avatars[p].(lastAttack := e.now)];
    var struck := Struck(rules, s.bodies, e.target);
    var notice := AttackNotice(p, HitId(e.target), HpShown(struck, e.target));
    var noticed := Broadcast(rules.near, struck, swung, s.bodies[p].pos, None, notice);
    BroadcastShows(rules.near, struck, swung, s.bodies[p].pos, None, notice);
    if e.target.Some? {
      BroadcastShows(rules.near, struck, noticed, struck[e.target.value].pos, None, Die(e.target.value));
    }
    forall q | q in t.avatars
      ensures t.avatars[q].Shown() == ShouldShow(rules, t, q)
    {
      assert swung[q].Shown() == s.avatars[q].Shown();
      if q in s.bodies {
        ViewOfStruck(rules, s.bodies, q, e.target);
        if e.target.Some? {
          ViewWithout(rules.near, struck, q, e.target.value, Die(e.target.value));
        }
      }
    }
  }

  lemma {:induction false} HarmlessShowNothing(log: seq<Packet>)
    requires AllHarmless(log)
    ensures Replay(log) == map[]
  {
    if log != [] {
      var front, last := log[..|log| - 1], log[|log| - 1];
      assert last in log && forall x :: x in front ==> x in log;
      HarmlessShowNothing(front);
    }
  }

  lemma AnswerKeepsSynced(rules: Rules, s: State, e: Event)
    requires rules.Valid() && WellFormed(s) && Synced(rules, s) && Enabled(rules, s, e)
    requires e.Login? || e.LoginRefused? || e.EnterRefused?
    ensures Synced(rules, Step(rules, s, e))
  {
    hide Replay;
    if e.Login? {
      HarmlessShowNothing(e.before);
      ReplayAppend(e.before, LoginReply(true));
    } else {
      TellShows(s.avatars[e.p], if e.LoginRefused? then LoginReply(false) else EnterReply(false, 0, []));
    }
  }

  lemma StepKeepsSynced(rules: Rules, s: State, e: Event)
    requires rules.Valid() && WellFormed(s) && Synced(rules, s) && Enabled(rules, s, e)
    ensures Synced(rules, Step(rules, s, e))
  {
    match e
    case Login(_, _) => AnswerKeepsSynced(rules, s, e);
    case LoginRefused(_) => AnswerKeepsSynced(rules, s, e);
    case EnterRefused(_) => AnswerKeepsSynced(rules, s, e);
    case Logout(p) => QuitKeepsOthersSynced(rules, s, p);
    case Enter(p, order) => EnterKeepsSynced(rules, s, p, order);
    case Leave(p) => LeaveKeepsSynced(rules, s, p);
    case Move(_, _, _, _, _) => MoveKeepsSynced(rules, s, e);
    case Attack(_, _, _) => AttackKeepsSynced(rules, s, e);
  }

  lemma StepKeepsWellFormed(rules: Rules, s: State, e: Event)
    requires rules.Valid() && WellFormed(s) && Enabled(rules, s, e)
    ensures WellFormed(Step(rules, s, e))
  {}

  ghost predicate NoNegativeHp(s: State) {
    forall m :: m in s.bodies && s.bodies[m].Monster? ==> s.bodies[m].hp >= 0
  }

  lemma StepKeepsHp(rules: Rules, s: State, e: Event)
    requires rules.Valid() && NoNegativeHp(s) && Enabled(rules, s, e)
    ensures NoNegativeHp(Step(rules, s, e))
  {}

  /** A step neither leaves a monster without hit points in the room nor heals or removes one
      that already has none. */
  lemma StepKeepsMonstersAlive(rules: Rules, s: State, e: Event)
    requires rules.Valid() && WellFormed(s) && NoNegativeHp(s) && Enabled(rules, s, e)
    ensures MonstersAlive(Step(rules, s, e)) <==> MonstersAlive(s)
  {
    var t := Step(rules, s, e);
    if !MonstersAlive(s) {
      var m :| m in s.bodies && s.bodies[m].Monster? && s.bodies[m].hp <= 0;
      assert m in t.bodies && t.bodies[m] == s.bodies[m];
    }
  }

  lemma StepKeepsFreeTiles(rules: Rules, s: State, e: Event)
    requires rules.Valid() && WellFormed(s) && PlayersOnFreeTiles(rules, s) && Enabled(rules, s, e)
    requires rules.tiles.IsWalkableWithRadius(rules.spawn, CREATURE_COLLISION_RADIUS)
    ensures PlayersOnFreeTiles(rules, Step(rules, s, e))
  {
    hide Replay, Broadcast, SpawnList, MovePackets;
    if e.Move? {
      var from := s.bodies[e.p].pos;
      var delta := EffectiveDelta(s.avatars[e.p].lastMove, e.now);
      var clamped := ClampToServer(from, e.client, CalcMaxDistance(rules.stats.moveSpeed, delta), e.root);
      ResolveMoveKeepsWalkable(rules.tiles, from, clamped, CREATURE_COLLISION_RADIUS);
    }
  }
}
