/** The room as the server keeps it: creature objects shared by the room's player table and by
    the zones of a spatial index, and the loops that turn movement into packets. */
module Rooms {
  import opened Wrappers
  import opened Grid
  import opened Zones
  import opened Client
  import opened World

  type SessionId = int

  /** The next entry of a hash table, in no particular order. */
  method Pick<T(==)>(s: set<T>) returns (x: T)
    requires s != {}
    ensures x in s
  {
    x :| x in s;
  }

  /** The entries of two lists gathered in one ordered set, each once. */
  method UnionOf<T(==)>(a: seq<T>, b: seq<T>) returns (q: seq<T>)
    ensures forall x :: x in q <==> x in a || x in b
    ensures forall i, j :: 0 <= i < j < |q| ==> q[i] != q[j]
  {
    q := [];
    var all := a + b;
    for n := 0 to |all|
      invariant forall x :: x in q <==> x in all[..n]
      invariant forall i, j :: 0 <= i < j < |q| ==> q[i] != q[j]
    {
      if all[n] !in q {
        q := q + [all[n]];
      }
    }
    assert all[..|all|] == all;
  }

  /** Everything sent so far on each open connection, in order. */
  class Network {
    var wire: map<SessionId, seq<Packet>>

    constructor ()
      ensures wire == map[]
    {
      wire := map[];
    }

    method Open(session: SessionId)
      requires session !in wire
      modifies this
      ensures wire == old(wire)[session := []]
    {
      wire := wire[session := []];
    }

    method Close(session: SessionId)
      modifies this
      ensures wire == old(wire) - {session}
    {
      wire := wire - {session};
    }

    method Send(session: SessionId, packet: Packet)
      requires session in wire
      modifies this
      ensures wire == old(wire)[session := old(wire)[session] + [packet]]
    {
      wire := wire[session := wire[session] + [packet]];
    }

    ghost function Picture(session: SessionId): Picture
      requires session in wire
      reads this
    {
      Replay(wire[session])
    }
  }

  /** The hit points of a monster whose data give this maximum. */
  function LoadedHp(maxHp: int): int { if maxHp < 0 then 1 else maxHp }

  datatype PlayerState = Offline | Lobby | InGame

  /** Creature with the fields of its two kinds, Player and Monster. */
  class Creature {
    const id: Id
    const isPlayer: bool
    const playerId: string
    var pos: Pos
    var hp: int
    var hasDied: bool
    var roomId: int
    var zoneIndex: int
    var session: Option<SessionId>
    var state: PlayerState
    var lastMoveTick: nat
    var lastAttackTick: nat

    constructor Player(id: Id, playerId: string, session: SessionId)
      ensures this.id == id && isPlayer && this.playerId == playerId && this.session == Some(session) && state == Lobby
      ensures roomId == 0 && zoneIndex == -1 && lastMoveTick == 0 && lastAttackTick == 0 && !hasDied
    {
      this.id, this.playerId, isPlayer := id, playerId, true;
      pos, hp, hasDied := Pos(0.0, 0.0), 100, false;
      roomId, zoneIndex := 0, -1;
      this.session, state := Some(session), Lobby;
      lastMoveTick, lastAttackTick := 0, 0;
    }

    /** Monster::Init. SetMaxHp raises the maximum to at least 1 and cuts the 100 hit points a
        creature starts with; SetHp then stores the loaded value unless it is negative. So a
        loaded maximum of 0 gives a monster with no hit points that never died. */
    constructor Monster(id: Id, maxHp: int, at: Pos)
      ensures this.id == id && !isPlayer && pos == at && !hasDied && session == None
      ensures hp == if maxHp >= 0 then maxHp else 1
    {
      this.id, playerId, isPlayer := id, "", false;
      var limit, points := if maxHp < 1 then 1 else maxHp, 100;
      if points > limit {
        points := limit;
      }
      if maxHp >= 0 {
        points := if maxHp > limit then limit else maxHp;
      }
      pos, hp, hasDied := at, points, false;
      roomId, zoneIndex := 0, -1;
      session, state := None, Offline;
      lastMoveTick, lastAttackTick := 0, 0;
    }

    predicate IsAlive()
      reads `hp, `hasDied
    {
      !hasDied && hp > 0
    }

    ghost function Body(): Body
      reads `pos, `hp
    {
      if isPlayer then World.Player(pos) else World.Monster(pos, hp)
    }

    /** Creature::TakeDamage over CreatureStat::TakeDamage: the answer is the damage dealt. */
    method TakeDamage(damage: int) returns (dealt: int)
      modifies `hp, `hasDied
      ensures old(IsAlive()) && damage > 0 ==> dealt == if old(hp) <= damage then old(hp) else damage
      ensures !old(IsAlive()) || damage <= 0 ==> dealt == 0 && hasDied == old(hasDied)
      ensures hp == old(hp) - dealt
      ensures old(IsAlive()) ==> hp >= 0 && (hasDied <==> hp == 0)
    {
      if hasDied || hp <= 0 || damage <= 0 {
        return 0;
      }
      var before := hp;
      if hp <= damage {
        hp := 0;
        hasDied := true;
      } else {
        hp := hp - damage;
      }
      return before - hp;
    }
  }

  class Zone {
    const index: int
    var players: map<Id, Creature>
    var creatures: map<Id, Creature>

    constructor (index: int)
      ensures this.index == index && players == map[] && creatures == map[]
    {
      this.index := index;
      players, creatures := map[], map[];
    }

    method AddPlayer(c: Creature)
      modifies this
      ensures players == old(players)[c.id := c] && creatures == old(creatures)[c.id := c]
    {
      players := players[c.id := c];
      creatures := creatures[c.id := c];
    }

    method RemovePlayer(id: Id)
      modifies this
      ensures players == old(players) - {id} && creatures == old(creatures) - {id}
    {
      players := players - {id};
      creatures := creatures - {id};
    }

    method AddCreature(c: Creature)
      modifies this
      ensures creatures == old(creatures)[c.id := c]
      ensures players == if c.isPlayer then old(players)[c.id := c] else old(players)
    {
      creatures := creatures[c.id := c];
      if c.isPlayer {
        players := players[c.id := c];
      }
    }

    method RemoveCreature(id: Id)
      modifies this
      ensures players == old(players) - {id} && creatures == old(creatures) - {id}
    {
      creatures := creatures - {id};
      players := players - {id};
    }
  }

  /** The tables of zone `i`: exactly the creatures that have recorded it, as the room's own
      objects, and among them exactly the players. */
  ghost predicate ZoneExact(i: int, creatures: map<Id, Creature>, players: map<Id, Creature>,
                            homes: map<Id, int>, residents: map<Id, Creature>) {
    && (forall id :: id in creatures <==> id in residents && id in homes && homes[id] == i)
    && (forall id :: id in creatures ==> creatures[id] == residents[id])
    && PlayersAmong(creatures, players)
  }

  ghost predicate PlayersAmong(creatures: map<Id, Creature>, players: map<Id, Creature>) {
    && (forall id :: id in players <==> id in creatures && creatures[id].isPlayer)
    && (forall id :: id in players ==> players[id] == creatures[id])
  }

  /** How creatures are filed, as values: the creature and player tables of the zones, the zone
      each creature has recorded, and the room's own two tables. */
  datatype Files = Files(creatures: seq<map<Id, Creature>>, zonePlayers: seq<map<Id, Creature>>, homes: map<Id, int>,
                         players: map<Id, Creature>, residents: map<Id, Creature>)
  {
    /** Each creature is in precisely one zone, its recorded one; the room's table has all players. */
    ghost predicate Exact() {
      && |creatures| == |zonePlayers|
      && homes.Keys == residents.Keys
      && (forall id :: id in residents ==> residents[id].id == id && 0 <= homes[id] < |creatures|)
      && (forall i :: 0 <= i < |creatures| ==> ZoneExact(i, creatures[i], zonePlayers[i], homes, residents))
      && PlayersAmong(residents, players)
    }

    ghost function Add(i: int, c: Creature): Files
      requires 0 <= i < |creatures| == |zonePlayers|
    {
      Files(creatures[i := creatures[i][c.id := c]],
            if c.isPlayer then zonePlayers[i := zonePlayers[i][c.id := c]] else zonePlayers, homes[c.id := i],
            if c.isPlayer then players[c.id := c] else players, residents[c.id := c])
    }

    ghost function Remove(i: int, id: Id): Files
      requires 0 <= i < |creatures| == |zonePlayers|
    {
      Files(creatures[i := creatures[i] - {id}], zonePlayers[i := zonePlayers[i] - {id}], homes - {id}, players - {id},
            residents - {id})
    }
  }

  lemma AddKeepsExact(f: Files, i: int, c: Creature)
    requires f.Exact() && 0 <= i < |f.creatures| && c.id !in f.residents
    ensures f.Add(i, c).Exact()
  {
    var g := f.Add(i, c);
    forall k | 0 <= k < |g.creatures|
      ensures ZoneExact(k, g.creatures[k], g.zonePlayers[k], g.homes, g.residents)
    {
      assert ZoneExact(k, f.creatures[k], f.zonePlayers[k], f.homes, f.residents);
      ZoneAfterAdd(k, f.creatures[k], f.zonePlayers[k], f.homes, f.residents, i, c);
    }
  }

  lemma ZoneAfterAdd(k: int, cs: map<Id, Creature>, ps: map<Id, Creature>, homes: map<Id, int>,
                     residents: map<Id, Creature>, i: int, c: Creature)
    requires ZoneExact(k, cs, ps, homes, residents) && c.id !in residents
    ensures ZoneExact(k, if k == i then cs[c.id := c] else cs, if k == i && c.isPlayer then ps[c.id := c] else ps,
                      homes[c.id := i], residents[c.id := c])
  {}

  lemma RemoveKeepsExact(f: Files, id: Id)
    requires f.Exact() && id in f.residents
    ensures f.Remove(f.homes[id], id).Exact()
  {
    var i, g := f.homes[id], f.Remove(f.homes[id], id);
    forall k | 0 <= k < |g.creatures|
      ensures ZoneExact(k, g.creatures[k], g.zonePlayers[k], g.homes, g.residents)
    {
      assert ZoneExact(k, f.creatures[k], f.zonePlayers[k], f.homes, f.residents);
      ZoneAfterRemove(k, f.creatures[k], f.zonePlayers[k], f.homes, f.residents, id);
    }
  }

  lemma ZoneAfterRemove(k: int, cs: map<Id, Creature>, ps: map<Id, Creature>, homes: map<Id, int>,
                        residents: map<Id, Creature>, id: Id)
    requires ZoneExact(k, cs, ps, homes, residents) && id in homes
    ensures ZoneExact(k, if k == homes[id] then cs - {id} else cs, if k == homes[id] then ps - {id} else ps,
                      homes - {id}, residents - {id})
  {}

  lemma RemovingNobody(f: Files, i: int, id: Id)
    requires f.Exact() && 0 <= i < |f.creatures| && id !in f.residents
    ensures f.Remove(i, id) == f
  {
    assert ZoneExact(i, f.creatures[i], f.zonePlayers[i], f.homes, f.residents);
    assert f.creatures[i] - {id} == f.creatures[i] && f.zonePlayers[i] - {id} == f.zonePlayers[i];
    assert f.homes - {id} == f.homes && f.players - {id} == f.players && f.residents - {id} == f.residents;
  }

  /** Taking a player out of one zone and putting it into another. */
  ghost function Refiled(f: Files, from: int, to: int, c: Creature): Files
    requires 0 <= from < |f.creatures| && 0 <= to < |f.creatures| == |f.zonePlayers|
  {
    var added := f.Remove(from, c.id).Add(to, c);
    f.(creatures := added.creatures, zonePlayers := added.zonePlayers, homes := f.homes[c.id := to])
  }

  lemma RefileKeepsExact(f: Files, to: int, c: Creature)
    requires f.Exact() && c.id in f.residents && f.residents[c.id] == c && c.isPlayer && 0 <= to < |f.creatures|
    ensures Refiled(f, f.homes[c.id], to, c).Exact()
  {
    var removed := f.Remove(f.homes[c.id], c.id);
    RemoveKeepsExact(f, c.id);
    AddKeepsExact(removed, to, c);
    assert removed.residents[c.id := c] == f.residents && removed.players[c.id := c] == f.players;
    assert removed.homes[c.id := to] == f.homes[c.id := to];
  }

  /** As many copies of a packet as a list has entries for the connection. */
  function Copies(sessions: seq<SessionId>, s: SessionId, packet: Packet): seq<Packet> {
    if sessions == [] then []
    else Copies(sessions[..|sessions| - 1], s, packet) + if sessions[|sessions| - 1] == s then [packet] else []
  }

  lemma {:induction false} NoCopies(sessions: seq<SessionId>, s: SessionId, packet: Packet)
    requires s !in sessions
    ensures Copies(sessions, s, packet) == []
  {
    if sessions != [] {
      NoCopies(sessions[..|sessions| - 1], s, packet);
    }
  }

  lemma {:induction false} SingleCopy(sessions: seq<SessionId>, s: SessionId, packet: Packet, k: nat)
    requires k < |sessions| && sessions[k] == s && forall i :: 0 <= i < |sessions| && i != k ==> sessions[i] != s
    ensures Copies(sessions, s, packet) == [packet]
  {
    var front := sessions[..|sessions| - 1];
    if k == |sessions| - 1 {
      NoCopies(front, s, packet);
    } else {
      SingleCopy(front, s, packet, k);
    }
  }

  lemma LogGrows(wire: map<SessionId, seq<Packet>>, s: SessionId, log: seq<Packet>, sent: seq<Packet>,
                 more: seq<Packet>)
    ensures wire[s := log + sent][s := log + sent + more] == wire[s := log + (sent + more)]
  {
    assert log + sent + more == log + (sent + more);
  }

  class Room {
    const roomId: int
    const layout: Layout
    const zones: seq<Zone>
    /** The interest relation of the room: the viewing disc. */
    const near: Interest
    /** The zone a position belongs to. */
    const zoneOf: Pos -> int
    const net: Network
    var players: map<Id, Creature>
    /** All creatures in the room, players and monsters: the union of the zones. */
    ghost var residents: map<Id, Creature>
    ghost var files: Files

    ghost predicate Shape()
    {
      && roomId > 0
      && layout.Valid()
      && |zones| == layout.ZoneCount()
      && (forall i :: 0 <= i < |zones| ==> zones[i].index == i)
      && Disc()
      && Grid()
    }

    ghost predicate Disc()
    {
      forall a, b {:trigger layout.Near(a, b)} :: near(a, b) == layout.Near(a, b)
    }

    ghost predicate Grid()
      requires layout.Valid()
    {
      forall a {:trigger layout.WorldToZoneIndex(a)} :: zoneOf(a) == layout.WorldToZoneIndex(a)
    }

    /** The tables of the zones are as `files` says. */
    ghost predicate ZonesMirror()
      reads `files, zones
    {
      ZonesHold(files.creatures, files.zonePlayers)
    }

    ghost predicate ZonesHold(creatures: seq<map<Id, Creature>>, zonePlayers: seq<map<Id, Creature>>)
      reads zones
    {
      && |creatures| == |zonePlayers| == |zones|
      && (forall i :: 0 <= i < |zones| ==> zones[i].creatures == creatures[i] && zones[i].players == zonePlayers[i])
    }

    /** And so are the recorded zones and the room's own tables. */
    ghost predicate Mirrors()
      reads `players, `residents, `files, zones, residents.Values`zoneIndex
    {
      && ZonesMirror()
      && files.players == players && files.residents == residents && files.homes.Keys == residents.Keys
      && (forall id :: id in residents ==> residents[id].zoneIndex == files.homes[id])
    }

    ghost predicate Filed()
      reads `players, `residents, `files, zones, residents.Values`zoneIndex
    {
      Shape() && Mirrors() && files.Exact()
    }

    /** The part of Filed that concerns the room's own player table. */
    ghost predicate Tabled()
      reads `players, `residents
    {
      layout.Valid() && Disc() && PlayersAmong(residents, players)
    }

    /** The recorded zone is the zone of the position. */
    ghost predicate InPlace(id: Id)
      requires layout.Valid() && id in residents
      reads `residents, residents.Values`zoneIndex, residents.Values`pos
    {
      residents[id].zoneIndex == zoneOf(residents[id].pos)
    }

    ghost predicate Indexed()
      reads `players, `residents, `files, zones, residents.Values`zoneIndex, residents.Values`pos
    {
      Filed() && forall id :: id in residents ==> InPlace(id)
    }

    /** The connections of the players in the room are open. */
    ghost predicate Connected()
      reads `players, players.Values`session, net
    {
      forall id :: id in players && players[id].session.Some? ==> players[id].session.value in net.wire
    }

    /** Players in the room have open connections of their own. */
    ghost predicate Online()
      reads `players, players.Values`session, net
    {
      (forall id :: id in players ==> players[id].session.Some? && players[id].session.value in net.wire) && Apart()
    }

    ghost predicate Apart()
      reads `players, players.Values`session
    {
      forall a, b :: a in players && b in players && a != b ==> players[a].session != players[b].session
    }

    ghost function Bodies(): map<Id, Body>
      reads `residents, residents.Values`pos, residents.Values`hp
    {
      map id | id in residents :: residents[id].Body()
    }

    constructor (roomId: int, data: RoomData, net: Network)
      requires roomId > 0
      ensures Indexed() && fresh(zones) && players == map[] && residents == map[]
      ensures this.roomId == roomId && layout == FromRoomData(data) && this.net == net
    {
      this.roomId := roomId;
      var l := FromRoomData(data);
      IntMulMono(0, l.countX, l.countY);
      var zs: seq<Zone> := [];
      while |zs| < l.ZoneCount()
        invariant |zs| <= l.ZoneCount()
        invariant fresh(zs)
        invariant forall i :: 0 <= i < |zs| ==> zs[i].index == i && zs[i].players == map[] && zs[i].creatures == map[]
      {
        var z := new Zone(|zs|);
        zs := zs + [z];
      }
      layout, zones := l, zs;
      near := (a, b) => l.Near(a, b);
      zoneOf := a requires l.Valid() => l.WorldToZoneIndex(a);
      this.net := net;
      players, residents := map[], map[];
      files := Files(seq(|zs|, _ => map[]), seq(|zs|, _ => map[]), map[], map[], map[]);
    }

    method CanSee(viewer: Pos, target: Pos) returns (r: bool)
      requires layout.Valid() && Disc()
      ensures r == layout.CanSee(viewer, target) && r == near(viewer, target)
    {
      CanSeeIsDisc(layout, viewer, target);
      if !layout.Near(viewer, target) {
        return false;
      }
      var visible := CollectVisibleZoneIndices(layout, viewer);
      VisibleZonesExact(layout, viewer);
      return layout.WorldToZoneIndex(target) in visible;
    }

    /** Player `id` is among those a packet about `target` goes to. */
    ghost predicate Told(id: Id, target: Pos, exclude: Option<SessionId>)
      requires id in players
      reads `players, players.Values`session, players.Values`pos
    {
      players[id].session != exclude && near(players[id].pos, target)
    }

    /** The connections of the players that can see a position, one entry for each such player;
        `heard` names the players. */
    method CollectSessionsWhoCanSee(target: Pos, exclude: Option<SessionId>)
      returns (out: seq<SessionId>, ghost heard: seq<Id>)
      requires layout.Valid() && Disc()
      ensures Belong(heard, out)
      ensures forall id :: id in heard <==> id in players && players[id].session.Some? && Told(id, target, exclude)
    {
      out, heard := [], [];
      var todo := players.Keys;
      while todo != {}
        invariant todo <= players.Keys
        invariant Belong(heard, out)
        invariant forall id :: id in heard <==>
                  id in players && id !in todo && players[id].session.Some? && Told(id, target, exclude)
      {
        var id := Pick(todo);
        var c := players[id];
        if c.session.Some? && c.session != exclude {
          var sees := CanSee(c.pos, target);
          if sees {
            out := out + [c.session.value];
            heard := heard + [id];
          }
        }
        todo := todo - {id};
      }
    }

    /** Different players of the room and their connections. */
    ghost predicate Belong(heard: seq<Id>, out: seq<SessionId>)
      reads `players, players.Values`session
    {
      && |heard| == |out|
      && (forall i :: 0 <= i < |heard| ==> heard[i] in players && players[heard[i]].session == Some(out[i]))
      && (forall i, j :: 0 <= i < j < |heard| ==> heard[i] != heard[j])
    }

    /** One packet for each entry of a list of connections. */
    method SendToSessions(sessions: seq<SessionId>, packet: Packet)
      requires forall s :: s in sessions ==> s in net.wire
      modifies net
      ensures net.wire.Keys == old(net.wire.Keys)
      ensures forall s :: s in net.wire ==> net.wire[s] == old(net.wire)[s] + Copies(sessions, s, packet)
    {
      for i := 0 to |sessions|
        invariant net.wire.Keys == old(net.wire.Keys)
        invariant forall s :: s in net.wire ==> net.wire[s] == old(net.wire)[s] + Copies(sessions[..i], s, packet)
      {
        assert sessions[..i + 1][..i] == sessions[..i];
        net.Send(sessions[i], packet);
      }
      assert sessions[..|sessions|] == sessions;
    }

    /** Every player that can see a position gets the packet once, on its connection. */
    method BroadcastToView(at: Pos, packet: Packet, exclude: Option<SessionId>)
      returns (ghost heard: seq<Id>, ghost out: seq<SessionId>)
      requires layout.Valid() && Disc() && Connected()
      modifies net
      ensures Belong(heard, out) && net.wire.Keys == old(net.wire.Keys)
      ensures forall id :: id in heard <==> id in players && players[id].session.Some? && Told(id, at, exclude)
      ensures forall s :: s in net.wire ==> net.wire[s] == old(net.wire)[s] + Copies(out, s, packet)
      ensures old(Online()) ==> forall id :: id in players ==> var s := players[id].session.value;
                net.wire[s] == old(net.wire)[s] + (if Told(id, at, exclude) then [packet] else [])
      ensures forall s :: s in net.wire && (forall id :: id in players ==> players[id].session != Some(s)) ==>
                net.wire[s] == old(net.wire)[s]
    {
      hide *;
      ApartOnline();
      var sessions;
      sessions, heard := CollectSessionsWhoCanSee(at, exclude);
      out := sessions;
      Belonging(heard, out);
      SendToSessions(sessions, packet);
      forall s | s !in out ensures Copies(out, s, packet) == [] {
        NoCopies(out, s, packet);
      }
      if old(Online()) {
        forall id | id in players
          ensures Copies(out, players[id].session.value, packet) == if id in heard then [packet] else []
        {
          OneCopy(heard, out, id, packet);
        }
      }
    }

    lemma Belonging(heard: seq<Id>, out: seq<SessionId>)
      requires Belong(heard, out)
      ensures Connected() ==> forall s :: s in out ==> s in net.wire
      ensures forall s :: s in out ==> exists id :: id in players && players[id].session == Some(s)
    {
      forall s | s in out ensures exists id :: id in heard && players[id].session == Some(s) {
        var k :| 0 <= k < |out| && out[k] == s;
        assert players[heard[k]].session == Some(s);
      }
    }

    lemma ApartOnline()
      ensures Online() ==> Apart() && forall id ::
                id in players ==> players[id].session.Some? && players[id].session.value in net.wire
      ensures Connected() ==> forall id ::
                id in players && players[id].session.Some? ==> players[id].session.value in net.wire
    {}

    /** Where every player has a connection of its own, a listed player's connection is listed once. */
    lemma OneCopy(heard: seq<Id>, out: seq<SessionId>, id: Id, packet: Packet)
      requires Belong(heard, out) && Apart() && id in players && players[id].session.Some?
      ensures Copies(out, players[id].session.value, packet) == if id in heard then [packet] else []
    {
      var s := players[id].session.value;
      if id in heard {
        var k :| 0 <= k < |heard| && heard[k] == id;
        SingleCopy(out, s, packet, k);
      } else {
        assert forall k :: 0 <= k < |out| ==> players[heard[k]].session == Some(out[k]) && heard[k] != id;
        NoCopies(out, s, packet);
      }
    }

    method SyncOtherPlayersViewOfMover(player: Creature, from: Pos, to: Pos)
      returns (ghost order: seq<Id>)
      requires layout.Valid() && Disc() && Connected() && player.pos == to
      requires forall id :: id in players ==> players[id].id == id
      requires player.id in players ==> players[player.id] == player
      modifies net
      ensures net.wire.Keys == old(net.wire.Keys)
      ensures Turns(order) && SetOf(order) == players.Keys
      ensures forall s :: s in net.wire ==> net.wire[s] == old(net.wire)[s] + Watched(order, s, player.id, from, to)
      ensures old(Online()) ==> forall id :: id in players && id != player.id ==> var s := players[id].session.value;
                net.wire[s] == old(net.wire)[s] + WatchPackets(near, players[id].pos, player.id, from, to)
      ensures forall s ::
                s in net.wire && (forall id :: id in players && id != player.id ==> players[id].session != Some(s)) ==>
                net.wire[s] == old(net.wire)[s]
    {
      hide *;
      ApartOnline();
      order := [];
      var todo := players.Keys;
      NoTurns(player.id, from, to);
      while todo != {}
        invariant todo <= players.Keys && Turns(order) && SetOf(order) == players.Keys - todo
        invariant net.wire.Keys == old(net.wire.Keys)
        invariant forall s :: s in net.wire ==> net.wire[s] == old(net.wire)[s] + Watched(order, s, player.id, from, to)
      {
        var id := Pick(todo);
        ghost var before := net.wire;
        TurnNext(order, id);
        SyncVisit(id, player, from, to);
        TurnTaken(old(net.wire), before, order, id, player.id, from, to);
        order := order + [id];
        todo := todo - {id};
      }
      WatchedMeaning(order, player.id, from, to);
    }

    /** One turn of the loop: nothing for the mover itself and for a player without connection. */
    method SyncVisit(id: Id, player: Creature, from: Pos, to: Pos)
      requires layout.Valid() && Disc() && player.pos == to
      requires id in players && players[id].id == id
      requires players[id].session.Some? ==> players[id].session.value in net.wire
      requires player.id in players ==> players[player.id] == player
      modifies net
      ensures net.wire.Keys == old(net.wire.Keys)
      ensures forall s :: s in net.wire ==> net.wire[s] == old(net.wire)[s] + WatchedBy(id, s, player.id, from, to)
    {
      hide Disc, WatchPackets, Layout.Valid;
      var other := players[id];
      if other != player && other.session.Some? {
        SyncOther(other, player, from, to);
      }
    }

    /** What each connection is sent in all by the turns of all players. */
    lemma WatchedMeaning(order: seq<Id>, p: Id, from: Pos, to: Pos)
      requires Turns(order) && SetOf(order) == players.Keys
      ensures forall s :: (forall id :: id in players && id != p ==> players[id].session != Some(s)) ==>
                Watched(order, s, p, from, to) == []
      ensures Apart() && (forall id :: id in players ==> players[id].session.Some?) ==>
                forall id :: id in players && id != p ==>
                  Watched(order, players[id].session.value, p, from, to)
                  == WatchPackets(near, players[id].pos, p, from, to)
    {
      forall s | forall id :: id in players && id != p ==> players[id].session != Some(s)
        ensures Watched(order, s, p, from, to) == []
      {
        NothingWatched(order, s, p, from, to);
      }
      if Apart() && forall id :: id in players ==> players[id].session.Some? {
        forall id | id in players && id != p
          ensures Watched(order, players[id].session.value, p, from, to)
                  == WatchPackets(near, players[id].pos, p, from, to)
        {
          assert id in SetOf(order);
          OneWatcher(order, id, p, from, to);
        }
      }
    }

    /** Players of the room, each once. */
    ghost predicate Turns(order: seq<Id>)
      reads `players
    {
      && (forall i :: 0 <= i < |order| ==> order[i] in players)
      && (forall i, j :: 0 <= i < j < |order| ==> order[i] != order[j])
    }

    /** What one connection is sent when the players of a list watch `p` move. */
    ghost function Watched(order: seq<Id>, s: SessionId, p: Id, from: Pos, to: Pos): seq<Packet>
      requires Turns(order)
      reads `players, players.Values`session, players.Values`pos
    {
      if order == [] then []
      else
        Watched(order[..|order| - 1], s, p, from, to) + WatchedBy(order[|order| - 1], s, p, from, to)
    }

    ghost function WatchedBy(id: Id, s: SessionId, p: Id, from: Pos, to: Pos): seq<Packet>
      requires id in players
      reads `players, players.Values`session, players.Values`pos
    {
      if id != p && players[id].session == Some(s) then WatchPackets(near, players[id].pos, p, from, to) else []
    }

    lemma NoTurns(p: Id, from: Pos, to: Pos)
      ensures Turns([]) && SetOf([]) == {} && forall s :: Watched([], s, p, from, to) == []
    {}

    lemma TurnTaken(before: map<SessionId, seq<Packet>>, mid: map<SessionId, seq<Packet>>, order: seq<Id>, id: Id,
                    p: Id, from: Pos, to: Pos)
      requires Turns(order) && id in players && Turns(order + [id]) && mid.Keys == before.Keys == net.wire.Keys
      requires forall s :: s in mid ==> mid[s] == before[s] + Watched(order, s, p, from, to)
      requires forall s :: s in mid ==> net.wire[s] == mid[s] + WatchedBy(id, s, p, from, to)
      ensures forall s :: s in mid ==> net.wire[s] == before[s] + Watched(order + [id], s, p, from, to)
    {
      forall s | s in mid ensures net.wire[s] == before[s] + Watched(order + [id], s, p, from, to) {
        assert (order + [id])[..|order|] == order;
        hide WatchedBy;
        assert before[s] + Watched(order, s, p, from, to) + WatchedBy(id, s, p, from, to)
            == before[s] + (Watched(order, s, p, from, to) + WatchedBy(id, s, p, from, to));
      }
    }

    lemma TurnNext(order: seq<Id>, id: Id)
      requires Turns(order) && id in players && id !in SetOf(order)
      ensures Turns(order + [id]) && SetOf(order + [id]) == SetOf(order) + {id}
    {
      assert forall i :: 0 <= i < |order| ==> order[i] in SetOf(order);
    }

    lemma {:induction false} NothingWatched(order: seq<Id>, s: SessionId, p: Id, from: Pos, to: Pos)
      requires Turns(order) && forall id :: id in players && id != p ==> players[id].session != Some(s)
      ensures Watched(order, s, p, from, to) == []
    {
      if order != [] {
        NothingWatched(order[..|order| - 1], s, p, from, to);
      }
    }

    lemma {:induction false} OneWatcher(order: seq<Id>, id: Id, p: Id, from: Pos, to: Pos)
      requires Turns(order) && id in players && id != p && players[id].session.Some?
      requires forall other ::
                other in players && other != p && other != id ==> players[other].session != players[id].session
      ensures Watched(order, players[id].session.value, p, from, to)
              == if id in order then WatchPackets(near, players[id].pos, p, from, to) else []
    {
      if order != [] {
        var front, last, s := order[..|order| - 1], order[|order| - 1], players[id].session.value;
        OneWatcher(front, id, p, from, to);
        assert order == front + [last];
        assert Watched(order, s, p, from, to) == Watched(front, s, p, from, to) + WatchedBy(last, s, p, from, to);
        hide Watched, WatchPackets;
        assert last == id ==> id !in front;
      }
    }

    method SyncOther(other: Creature, player: Creature, from: Pos, to: Pos)
      requires layout.Valid() && Disc() && player.pos == to
      requires other.session.Some? && other.session.value in net.wire
      modifies net
      ensures var s := other.session.value;
              net.wire == old(net.wire)[s := old(net.wire)[s] + WatchPackets(near, other.pos, player.id, from, to)]
    {
      var couldSee := CanSee(other.pos, from);
      var canSeeNow := CanSee(other.pos, to);
      if canSeeNow && !couldSee {
        net.Send(other.session.value, Spawn(SpawnEntry(player.id, player.pos)));
      }
      if !canSeeNow && couldSee {
        net.Send(other.session.value, Despawn(player.id));
      }
      assert old(net.wire)[other.session.value] + [] == old(net.wire)[other.session.value];
    }

    /** Every creature that a disc around `at` contains is filed in a visible zone. */
    lemma NearIsInVisibleZone(at: Pos, id: Id)
      requires Shape() && id in residents && InPlace(id) && near(at, residents[id].pos)
      ensures residents[id].zoneIndex in VisibleZones(layout, at)
    {
      assert layout.Near(at, residents[id].pos);
      DiscInsideRect(layout, at, residents[id].pos);
      VisibleZonesExact(layout, at);
    }

    /** ForEachCreature over some zones: their creatures, in the order a visitor meets them. */
    method CreaturesIn(indices: seq<int>) returns (cs: seq<Creature>)
      requires Filed()
      requires forall k :: 0 <= k < |indices| ==> 0 <= indices[k] < |zones|
      requires forall j, k :: 0 <= j < k < |indices| ==> indices[j] != indices[k]
      ensures forall k :: 0 <= k < |cs| ==> cs[k].id in residents && residents[cs[k].id] == cs[k]
      ensures forall j, k :: 0 <= j < k < |cs| ==> cs[j] != cs[k]
      ensures forall id :: id in residents && residents[id].zoneIndex in indices ==> residents[id] in cs
    {
      cs := [];
      for n := 0 to |indices|
        invariant forall k :: 0 <= k < |cs| ==>
                  cs[k].id in residents && residents[cs[k].id] == cs[k] && cs[k].zoneIndex in indices[..n]
        invariant forall j, k :: 0 <= j < k < |cs| ==> cs[j] != cs[k]
        invariant forall id :: id in residents && residents[id].zoneIndex in indices[..n] ==> residents[id] in cs
      {
        var listed := CreaturesOf(zones[indices[n]]);
        ghost var before := cs;
        cs := cs + listed;
        assert indices[..n + 1] == indices[..n] + [indices[n]];
        assert forall k :: 0 <= k < |before| ==> before[k].zoneIndex != indices[n];
      }
      assert indices[..|indices|] == indices;
    }

    /** What a zone lists are the room's own creatures that are filed there. */
    lemma ZoneEntries(i: int)
      requires Filed() && 0 <= i < |zones|
      ensures forall id :: id in zones[i].creatures ==>
                id in residents && residents[id] == zones[i].creatures[id] && residents[id].id == id &&
                residents[id].zoneIndex == i
      ensures forall id :: id in residents && residents[id].zoneIndex == i ==> id in zones[i].creatures
    {
    }

    /** The index is exact: zone `i` holds the creatures of the room that stand in it, no others,
        and its player table the players among them. */
    lemma IndexIsExact(i: int, id: Id)
      requires Indexed() && 0 <= i < |zones|
      ensures layout.Valid()
      ensures id in zones[i].creatures <==> id in residents && InRegion(layout, i, residents[id].pos)
      ensures id in zones[i].creatures ==> zones[i].creatures[id] == residents[id]
      ensures id in zones[i].players <==> id in zones[i].creatures && zones[i].creatures[id].isPlayer
      ensures id in zones[i].players ==> zones[i].players[id] == residents[id]
    {
      ZoneEntries(i);
      assert ZoneExact(i, files.creatures[i], files.zonePlayers[i], files.homes, files.residents);
      if id in residents {
        assert InPlace(id) && zoneOf(residents[id].pos) == layout.WorldToZoneIndex(residents[id].pos);
        ZoneOfPosition(layout, residents[id].pos, i);
        hide InRegion, Layout.WorldToZoneIndex;
      }
    }

    method CreaturesOf(zone: Zone) returns (cs: seq<Creature>)
      requires Filed() && 0 <= zone.index < |zones| && zones[zone.index] == zone
      ensures forall k ::
                0 <= k < |cs| ==> cs[k].id in residents && residents[cs[k].id] == cs[k] && cs[k].zoneIndex == zone.index
      ensures forall j, k :: 0 <= j < k < |cs| ==> cs[j] != cs[k]
      ensures forall id :: id in residents && residents[id].zoneIndex == zone.index ==> residents[id] in cs
    {
      ZoneEntries(zone.index);
      cs := [];
      var todo := zone.creatures.Keys;
      while todo != {}
        invariant todo <= zone.creatures.Keys
        invariant forall id :: id in zone.creatures ==>
                  id in residents && residents[id] == zone.creatures[id] && residents[id].id == id
        invariant forall k ::
                  0 <= k < |cs| ==> cs[k].id in zone.creatures && cs[k].id !in todo && zone.creatures[cs[k].id] == cs[k]
        invariant forall j, k :: 0 <= j < k < |cs| ==> cs[j] != cs[k]
        invariant forall id :: id in zone.creatures && id !in todo ==> zone.creatures[id] in cs
      {
        var id := Pick(todo);
        cs := cs + [zone.creatures[id]];
        todo := todo - {id};
      }
    }

    method ZonesAround(from: Pos, to: Pos) returns (indices: seq<int>)
      requires layout.Valid()
      ensures forall i :: i in indices <==> i in VisibleZones(layout, from) || i in VisibleZones(layout, to)
      ensures forall j, k :: 0 <= j < k < |indices| ==> indices[j] != indices[k]
    {
      var oldVisible := CollectVisibleZoneIndices(layout, from);
      var newVisible := CollectVisibleZoneIndices(layout, to);
      indices := UnionOf(oldVisible, newVisible);
    }

    /** Visiting the zones visible from the old and the new position meets every creature that
        the mover could or can see. */
    method CreaturesAround(p: Id, from: Pos, to: Pos) returns (cs: seq<Creature>)
      requires Filed()
      requires forall id :: id in residents && id != p ==> InPlace(id)
      ensures forall k :: 0 <= k < |cs| ==> cs[k].id in residents && residents[cs[k].id] == cs[k]
      ensures forall j, k :: 0 <= j < k < |cs| ==> cs[j] != cs[k]
      ensures forall id ::
                id in residents && id != p && (near(from, residents[id].pos) || near(to, residents[id].pos)) ==>
                residents[id] in cs
    {
      forall id | id in residents && id != p && (near(from, residents[id].pos) || near(to, residents[id].pos))
        ensures residents[id].zoneIndex in VisibleZones(layout, from) ||
                residents[id].zoneIndex in VisibleZones(layout, to)
      {
        if near(from, residents[id].pos) { NearIsInVisibleZone(from, id); } else { NearIsInVisibleZone(to, id); }
      }
      VisibleZonesValid(layout, from);
      VisibleZonesValid(layout, to);
      var zonesToCheck := ZonesAround(from, to);
      forall k | 0 <= k < |zonesToCheck| ensures 0 <= zonesToCheck[k] < |zones| {
        assert zonesToCheck[k] in zonesToCheck;
      }
      cs := CreaturesIn(zonesToCheck);
    }

    /** The ids of some creatures of the room, in their order. */
    ghost function IdsOf(cs: seq<Creature>): (order: seq<Id>)
      ensures |order| == |cs| && forall k :: 0 <= k < |cs| ==> order[k] == cs[k].id
    {
      seq(|cs|, k requires 0 <= k < |cs| => cs[k].id)
    }

    lemma IdsAreListing(cs: seq<Creature>, bodies: map<Id, Body>)
      requires bodies.Keys == residents.Keys
      requires forall k :: 0 <= k < |cs| ==> cs[k].id in residents && residents[cs[k].id] == cs[k]
      requires forall j, k :: 0 <= j < k < |cs| ==> cs[j] != cs[k]
      ensures Listing(bodies, IdsOf(cs))
      ensures forall id :: id in residents && residents[id] in cs && residents[id].id == id ==> id in IdsOf(cs)
    {
      var order := IdsOf(cs);
      forall id | id in residents && residents[id] in cs && residents[id].id == id ensures id in order {
        var k :| 0 <= k < |cs| && cs[k] == residents[id];
        assert order[k] == id;
      }
    }

    /** The mover's connection is sent one spawn for each creature that comes into view and one
        despawn for each that goes out of view, in the order of the visits. */
    method SyncMoverViewOfEntities(player: Creature, from: Pos, to: Pos, ghost bodies: map<Id, Body>)
      returns (ghost order: seq<Id>)
      requires bodies == Bodies()
      requires Filed() && player.id in residents && residents[player.id] == player
      requires forall id :: id in residents && id != player.id ==> InPlace(id)
      requires player.session.Some? ==> player.session.value in net.wire
      modifies net
      ensures Listing(bodies, order)
      ensures ListsAround(near, bodies, order, player.id, from) && ListsAround(near, bodies, order, player.id, to)
      ensures net.wire == if player.session.None? then old(net.wire)
                          else var s := player.session.value;
                               old(net.wire)[s := old(net.wire)[s]
                                                  + OwnPackets(near, bodies, player.id, from, to, order)]
    {
      var cs := CreaturesAround(player.id, from, to);
      order := IdsOf(cs);
      IdsAreListing(cs, bodies);
      if player.session.None? {
        return;
      }
      SyncWith(player, cs, from, to, bodies);
    }

    /** The visits of SyncMoverViewOfEntities, one after the other. */
    method SyncWith(player: Creature, cs: seq<Creature>, from: Pos, to: Pos, ghost bodies: map<Id, Body>)
      requires layout.Valid() && Disc()
      requires forall k :: 0 <= k < |cs| ==> cs[k].id in bodies && bodies[cs[k].id].pos == cs[k].pos
      requires player.session.Some? && player.session.value in net.wire
      modifies net
      ensures var s := player.session.value;
              net.wire
              == old(net.wire)[s := old(net.wire)[s] + OwnPackets(near, bodies, player.id, from, to, IdsOf(cs))]
    {
      var s := player.session.value;
      ghost var log, order := net.wire[s], IdsOf(cs);
      assert log + [] == log;
      for n := 0 to |cs|
        invariant net.wire == old(net.wire)[s := log + OwnPackets(near, bodies, player.id, from, to, order[..n])]
      {
        ghost var sent := OwnPackets(near, bodies, player.id, from, to, order[..n]);
        ghost var more := OwnPacket(near, bodies, player.id, from, to, cs[n].id);
        assert order[..n + 1][..n] == order[..n] && order[..n + 1][n] == cs[n].id;
        assert OwnPackets(near, bodies, player.id, from, to, order[..n + 1]) == sent + more;
        SyncOne(player, cs[n], from, to, bodies);
        LogGrows(old(net.wire), s, log, sent, more);
      }
      assert order[..|cs|] == order;
    }

    /** The body of the visitor in SyncMoverViewOfEntities. */
    method SyncOne(player: Creature, c: Creature, from: Pos, to: Pos, ghost bodies: map<Id, Body>)
      requires layout.Valid() && Disc()
      requires c.id in bodies && bodies[c.id].pos == c.pos
      requires player.session.Some? && player.session.value in net.wire
      modifies net
      ensures var s := player.session.value;
              net.wire == old(net.wire)[s := old(net.wire)[s] + OwnPacket(near, bodies, player.id, from, to, c.id)]
    {
      var s := player.session.value;
      assert net.wire[s] + [] == net.wire[s];
      if c.id == player.id {
        return;
      }
      var couldSee := CanSee(from, c.pos);
      var canSeeNow := CanSee(to, c.pos);
      if canSeeNow && !couldSee {
        net.Send(s, Spawn(SpawnEntry(c.id, c.pos)));
      }
      if !canSeeNow && couldSee {
        net.Send(s, Despawn(c.id));
      }
    }

    /** ForEachMonsterInView: each registered monster within the view radius exactly once, and
        no other. */
    method MonstersInView(at: Pos) returns (ms: seq<Creature>)
      requires Indexed()
      ensures forall k :: 0 <= k < |ms| ==> ms[k].id in residents && residents[ms[k].id] == ms[k]
                                            && !ms[k].isPlayer && near(at, ms[k].pos)
      ensures forall j, k :: 0 <= j < k < |ms| ==> ms[j] != ms[k]
      ensures forall id ::
                id in residents && !residents[id].isPlayer && near(at, residents[id].pos) ==> residents[id] in ms
    {
      hide Filed, Indexed;
      Looks();
      var cs := CreaturesSeenFrom(at);
      ms := [];
      for n := 0 to |cs|
        invariant forall k :: 0 <= k < |ms| ==> ms[k] in cs[..n] && !ms[k].isPlayer && near(at, ms[k].pos)
        invariant forall j, k :: 0 <= j < k < |ms| ==> ms[j] != ms[k]
        invariant forall k :: 0 <= k < n && !cs[k].isPlayer && near(at, cs[k].pos) ==> cs[k] in ms
      {
        if !cs[n].isPlayer {
          var sees := CanSee(at, cs[n].pos);
          if sees {
            ms := ms + [cs[n]];
          }
        }
      }
    }

    lemma Looks()
      requires Indexed()
      ensures layout.Valid() && Disc()
    {}

    /** The creatures of the zones visible from a position. */
    method CreaturesSeenFrom(at: Pos) returns (cs: seq<Creature>)
      requires Indexed()
      ensures forall k :: 0 <= k < |cs| ==> cs[k].id in residents && residents[cs[k].id] == cs[k]
      ensures forall j, k :: 0 <= j < k < |cs| ==> cs[j] != cs[k]
      ensures forall id :: id in residents && near(at, residents[id].pos) ==> residents[id] in cs
    {
      forall id | id in residents && near(at, residents[id].pos)
        ensures residents[id].zoneIndex in VisibleZones(layout, at)
      {
        NearIsInVisibleZone(at, id);
      }
      VisibleZonesValid(layout, at);
      VisibleZonesOnce(layout, at);
      var visible := CollectVisibleZoneIndices(layout, at);
      forall k | 0 <= k < |visible| ensures 0 <= visible[k] < |zones| {
        assert visible[k] in visible;
      }
      cs := CreaturesIn(visible);
    }

    /** The spawn list of an entering player: itself first, then every other creature it sees. */
    method FillEnterGameSpawns(player: Creature, ghost bodies: map<Id, Body>)
      returns (spawns: seq<SpawnEntry>, ghost order: seq<Id>)
      requires Indexed() && player.id in residents && residents[player.id] == player && bodies == Bodies()
      ensures Listing(bodies, order) && ListsAround(near, bodies, order, player.id, player.pos)
      ensures spawns == SpawnList(near, bodies, player.id, order)
    {
      var cs := CreaturesSeenFrom(player.pos);
      order := IdsOf(cs);
      IdsAreListing(cs, bodies);
      spawns := ListSpawns(player, cs, bodies);
    }

    method ListSpawns(player: Creature, cs: seq<Creature>, ghost bodies: map<Id, Body>)
      returns (spawns: seq<SpawnEntry>)
      requires layout.Valid() && Disc()
      requires player.id in bodies && bodies[player.id].pos == player.pos
      requires forall k :: 0 <= k < |cs| ==> cs[k].id in bodies && bodies[cs[k].id].pos == cs[k].pos
      ensures spawns == SpawnList(near, bodies, player.id, IdsOf(cs))
    {
      ghost var order := IdsOf(cs);
      spawns := [SpawnEntry(player.id, player.pos)];
      for n := 0 to |cs|
        invariant spawns == SpawnList(near, bodies, player.id, order[..n])
      {
        assert order[..n + 1][..n] == order[..n] && order[..n + 1][n] == cs[n].id;
        if cs[n].id != player.id {
          var sees := CanSee(player.pos, cs[n].pos);
          if sees {
            spawns := spawns + [SpawnEntry(cs[n].id, cs[n].pos)];
          }
        }
      }
      assert order[..|cs|] == order;
    }

    lemma NearItself(at: Pos)
      requires layout.Valid() && Disc()
      ensures near(at, at)
    {
      MulMono2(0.0, layout.viewRadius, 0.0, layout.viewRadius);
      assert layout.Near(at, at);
    }

    method EnterZone(player: Creature, index: int)
      requires Shape() && ZonesMirror() && 0 <= index < |zones| && player.isPlayer
      modifies zones[index], player`zoneIndex, `files
      ensures ZonesMirror() && player.zoneIndex == index
      ensures files == old(files).Add(index, player)
    {
      zones[index].AddPlayer(player);
      player.zoneIndex := index;
      files := files.Add(index, player);
    }

    method LeaveZone(player: Creature, index: int)
      requires Shape() && ZonesMirror() && 0 <= index < |zones|
      modifies zones[index], `files
      ensures ZonesMirror() && files == old(files).Remove(index, player.id)
    {
      zones[index].RemovePlayer(player.id);
      files := files.Remove(index, player.id);
    }

    /** The zone of a position exists. */
    method WorldToZone(at: Pos) returns (index: int)
      requires Shape()
      ensures index == layout.WorldToZoneIndex(at) == zoneOf(at)
      ensures 0 <= index < |zones| && InRegion(layout, index, at)
    {
      ZoneOfPosition(layout, at, layout.WorldToZoneIndex(at));
      IndexRoundTrip(layout, layout.ColumnAt(at.x), layout.RowAt(at.y));
      return layout.WorldToZoneIndex(at);
    }

    /** What a zone operation needs to know of an exact index. */
    lemma IndexedParts()
      requires Indexed()
      ensures Shape() && ZonesMirror() && Tabled() && files.Exact() && files.residents == residents
      ensures files.players == players
      ensures |files.creatures| == |zones|
      ensures forall id :: id in residents ==>
                residents[id].id == id && residents[id].zoneIndex == files.homes[id] && 0 <= files.homes[id] < |zones|
    {}

    method File(c: Creature, index: int)
      requires Shape() && ZonesMirror() && 0 <= index < |zones|
      modifies zones[index], `files
      ensures ZonesMirror() && files == old(files).Add(index, c)
    {
      zones[index].AddCreature(c);
      files := files.Add(index, c);
    }

    method Unfile(id: Id, index: int)
      requires Shape() && ZonesMirror() && 0 <= index < |zones|
      modifies zones[index], `files
      ensures ZonesMirror() && files == old(files).Remove(index, id)
    {
      zones[index].RemoveCreature(id);
      files := files.Remove(index, id);
    }

    /** Any creature is entered in the zone that it stands in and in no other; a monster that is
        new in the room leaves the index exact. */
    method RegisterCreature(c: Creature)
      requires Shape() && ZonesMirror()
      modifies `residents, `files, zones, c`roomId, c`zoneIndex
      ensures c.roomId == roomId && 0 <= c.zoneIndex < |zones| && InRegion(layout, c.zoneIndex, c.pos)
      ensures ZonesMirror() && files == old(files).Add(c.zoneIndex, c) && residents == old(residents)[c.id := c]
      ensures old(Indexed()) && c.id !in old(residents) && !c.isPlayer ==> Indexed()
    {
      hide *;
      var index := WorldToZone(c.pos);
      ghost var exact := Indexed() && c.id !in residents && !c.isPlayer;
      if exact {
        IndexedParts();
      }
      c.roomId := roomId;
      c.zoneIndex := index;
      File(c, index);
      residents := residents[c.id := c];
      if exact {
        AfterRegister(c);
      }
    }

    /** The creature has just been filed where it stands. */
    twostate lemma AfterRegister(c: Creature)
      requires old(Indexed()) && c.id !in old(residents) && !c.isPlayer
      requires ZonesMirror() && players == old(players) && residents == old(residents)[c.id := c]
      requires c.zoneIndex == zoneOf(c.pos) && 0 <= c.zoneIndex < |zones| && files == old(files).Add(c.zoneIndex, c)
      requires forall id :: id in old(residents) ==>
                 residents[id].zoneIndex == old(residents[id].zoneIndex) && residents[id].pos == old(residents[id].pos)
      requires |old(files).creatures| == |zones|
      ensures Indexed()
    {
      hide ZonesHold, Disc, Grid, Files.Exact;
      AddKeepsExact(old(files), c.zoneIndex, c);
      assert forall id :: id in old(residents) ==> old(InPlace(id));
    }

    /** A creature leaves the zone that it has recorded, if there is one. */
    method UnregisterCreature(c: Creature)
      requires Shape() && ZonesMirror()
      modifies `residents, `files, zones, c`roomId, c`zoneIndex
      ensures c.roomId == 0 && c.zoneIndex == -1 && ZonesMirror()
      ensures var i := old(c.zoneIndex);
              if 0 <= i < |zones| then files == old(files).Remove(i, c.id) && residents == old(residents) - {c.id}
              else files == old(files) && residents == old(residents)
      ensures old(Indexed()) && !c.isPlayer && c.id in old(residents) && old(residents)[c.id] == c ==>
                Indexed() && c.id !in residents
    {
      hide *;
      ghost var exact := Indexed() && !c.isPlayer && c.id in residents && residents[c.id] == c;
      if exact {
        IndexedParts();
        SamePlayers(c.id);
        assert players == players - {c.id};
      }
      if 0 <= c.zoneIndex < |zones| {
        Unfile(c.id, c.zoneIndex);
        residents := residents - {c.id};
      }
      c.roomId := 0;
      c.zoneIndex := -1;
      if exact {
        AfterUnregister(c);
      }
    }

    twostate lemma AfterUnregister(c: Creature)
      requires old(Indexed()) && c.id in old(residents) && old(residents)[c.id] == c
      requires players == old(players) - {c.id} && residents == old(residents) - {c.id}
      requires 0 <= old(c.zoneIndex) < |zones| && files == old(files).Remove(old(c.zoneIndex), c.id)
      requires ZonesMirror()
      requires forall id :: id in old(residents) && id != c.id ==>
                 residents[id].zoneIndex == old(residents[id].zoneIndex) && residents[id].pos == old(residents[id].pos)
      ensures Indexed()
    {
      hide ZonesHold, Disc, Grid, Files.Exact;
      RemoveKeepsExact(old(files), c.id);
      assert forall id :: id in old(residents) ==> old(InPlace(id));
    }

    /** A player without a connection is refused, and so is another object under an id that the
        room has; a player already in the room stays as it is; any other appears at the spawn point. */
    method EnterPlayer(player: Creature) returns (ok: bool)
      requires Indexed() && player.isPlayer
      requires player.id in residents ==> residents[player.id].isPlayer
      modifies `players, `residents, `files, zones, player`pos, player`roomId, player`zoneIndex
      ensures Indexed()
      ensures ok <==> player.session.Some? && (player.id in old(players) ==> old(players)[player.id] == player)
      ensures !ok || player.id in old(residents) ==>
                && players == old(players) && residents == old(residents)
                && player.pos == old(player.pos) && player.roomId == old(player.roomId)
                && player.zoneIndex == old(player.zoneIndex)
      ensures ok && player.id !in old(residents) ==>
                && players == old(players)[player.id := player] && residents == old(residents)[player.id := player]
                && player.pos == layout.spawn && player.roomId == roomId
    {
      hide *;
      if player.session == None {
        return false;
      }
      SamePlayers(player.id);
      if player.id in players {
        return players[player.id] == player;
      }
      Appear(player);
      return true;
    }

    lemma SamePlayers(id: Id)
      requires Indexed()
      ensures id in players <==> id in residents && residents[id].isPlayer
    {}

    method Appear(player: Creature)
      requires Indexed() && player.isPlayer && player.id !in residents
      modifies `players, `residents, `files, zones, player`pos, player`roomId, player`zoneIndex
      ensures Indexed()
      ensures players == old(players)[player.id := player] && residents == old(residents)[player.id := player]
      ensures player.pos == layout.spawn && player.roomId == roomId
    {
      hide *;
      IndexedParts();
      var index := WorldToZone(layout.spawn);
      player.pos := layout.spawn;
      player.roomId := roomId;
      players := players[player.id := player];
      EnterZone(player, index);
      residents := residents[player.id := player];
      AfterAppear(player);
    }

    /** The player has just been entered at the spawn point. */
    twostate lemma AfterAppear(player: Creature)
      requires old(Indexed()) && player.id !in old(residents) && player.isPlayer
      requires residents == old(residents)[player.id := player]
      requires players == old(players)[player.id := player]
      requires 0 <= player.zoneIndex < |zones| && player.zoneIndex == zoneOf(player.pos)
      requires files == old(files).Add(player.zoneIndex, player)
      requires ZonesMirror()
      requires forall id :: id in old(residents) ==>
                 residents[id].zoneIndex == old(residents[id].zoneIndex) && residents[id].pos == old(residents[id].pos)
      requires |old(files).creatures| == |zones|
      ensures Indexed()
    {
      hide ZonesHold, Disc, Grid, Files.Exact;
      AddKeepsExact(old(files), player.zoneIndex, player);
      assert forall id :: id in old(residents) ==> old(InPlace(id));
    }

    /** The player leaves the room's table and the zone that it has recorded; nothing is erased
        for one that is not in the room. */
    method LeavePlayer(player: Creature)
      requires Indexed() && player.isPlayer && (player.id in residents ==> residents[player.id] == player)
      modifies `players, `residents, `files, zones, player`roomId, player`zoneIndex
      ensures Indexed() && players == old(players) - {player.id} && residents == old(residents) - {player.id}
      ensures player.roomId == 0 && player.zoneIndex == -1
    {
      hide *;
      IndexedParts();
      var index := player.zoneIndex;
      players := players - {player.id};
      if 0 <= index < |zones| {
        LeaveZone(player, index);
      }
      player.roomId := 0;
      player.zoneIndex := -1;
      residents := residents - {player.id};
      if player.id in old(residents) {
        AfterUnregister(player);
      } else {
        AfterNobody(player, index);
      }
    }

    twostate lemma AfterNobody(player: Creature, new index: int)
      requires old(Indexed()) && player.id !in old(residents)
      requires players == old(players) - {player.id} && residents == old(residents) - {player.id}
      requires files == if 0 <= index < |zones| then old(files).Remove(index, player.id) else old(files)
      requires ZonesMirror()
      requires forall id :: id in old(residents) && id != player.id ==>
                 residents[id].zoneIndex == old(residents[id].zoneIndex) && residents[id].pos == old(residents[id].pos)
      requires |old(files).creatures| == |zones|
      ensures Indexed()
    {
      hide ZonesHold, Disc, Grid;
      if 0 <= index < |zones| {
        RemovingNobody(old(files), index, player.id);
      }
      assert players == old(players) && residents == old(residents);
      assert forall id :: id in old(residents) ==> old(InPlace(id));
    }

    method SwitchZones(player: Creature, oldIndex: int, newIndex: int)
      requires Shape() && ZonesMirror() && player.isPlayer && 0 <= oldIndex < |zones| && 0 <= newIndex < |zones|
      modifies `files, zones, player`zoneIndex
      ensures ZonesMirror() && player.zoneIndex == newIndex
      ensures files == Refiled(old(files), oldIndex, newIndex, player)
    {
      LeaveZone(player, oldIndex);
      EnterZone(player, newIndex);
      files := Refiled(old(files), oldIndex, newIndex, player);
    }

    /** The zone part of OnPlayerMoved. */
    method Refile(player: Creature, oldIndex: int, newIndex: int)
      requires Filed() && player.isPlayer && player.id in residents && residents[player.id] == player
      requires player.zoneIndex == oldIndex && 0 <= newIndex < |zones|
      modifies `files, zones, player`zoneIndex
      ensures Filed() && player.zoneIndex == newIndex
    {
      hide *;
      FiledParts();
      if oldIndex != newIndex {
        SwitchZones(player, oldIndex, newIndex);
        AfterRefile(player);
      }
    }

    twostate lemma AfterRefile(player: Creature)
      requires old(Filed()) && player.isPlayer && player.id in residents && residents[player.id] == player
      requires residents == old(residents) && players == old(players) && 0 <= player.zoneIndex < |zones|
      requires ZonesMirror() && 0 <= old(player.zoneIndex) < |zones|
      requires files == Refiled(old(files), old(player.zoneIndex), player.zoneIndex, player)
      requires forall id ::
                id in residents && id != player.id ==> residents[id].zoneIndex == old(residents[id].zoneIndex)
      requires |old(files).creatures| == |zones|
      ensures Filed()
    {
      hide ZonesHold, Disc, Grid, Files.Exact;
      RefileKeepsExact(old(files), player.zoneIndex, player);
    }

    /** What the connections of a room whose players have one each are sent when `p` moves: the
        mover's own about the creatures it visits, every other about `p`, and no other anything. */
    ghost predicate MoveSent(before: map<SessionId, seq<Packet>>, player: Creature, from: Pos, to: Pos,
                             bodies: map<Id, Body>, order: seq<Id>)
      requires forall q :: q in order ==> q in bodies
      reads `players, players.Values`session, players.Values`pos, player`session, net
    {
      && net.wire.Keys == before.Keys
      && (forall id :: id in players && id != player.id ==>
            && players[id].session.Some? && players[id].session.value in net.wire
            && Grown(before, players[id].session.value, WatchPackets(near, players[id].pos, player.id, from, to)))
      && player.session.Some? && player.session.value in net.wire
      && Grown(before, player.session.value, OwnPackets(near, bodies, player.id, from, to, order))
      && (forall s ::
          s in net.wire && (forall id :: id in players ==> players[id].session != Some(s)) ==> net.wire[s] == before[s])
    }

    /** These packets, and no others, have been added to what the connection was sent. */
    ghost predicate Grown(before: map<SessionId, seq<Packet>>, s: SessionId, sent: seq<Packet>)
      requires s in net.wire
      reads net
    {
      s in before && net.wire[s] == before[s] + sent
    }

    /** What one connection is sent when `player` moves: the turns of the players that have it, and
        the mover's own packets if it is the mover's. */
    ghost function SentTo(turns: seq<Id>, s: SessionId, player: Creature, from: Pos, to: Pos, bodies: map<Id, Body>,
                          order: seq<Id>): seq<Packet>
      requires Turns(turns) && forall q :: q in order ==> q in bodies
      reads `players, players.Values`session, players.Values`pos, player`session
    {
      Watched(turns, s, player.id, from, to) +
      if player.session == Some(s) then OwnPackets(near, bodies, player.id, from, to, order) else []
    }

    /** Other players' connections are told what they gain or lose, and so is the mover's own; any
        number of players may share a connection, or have none. */
    method SyncPlayerVisibility(player: Creature, from: Pos, to: Pos, ghost bodies: map<Id, Body>)
      returns (ghost turns: seq<Id>, ghost order: seq<Id>)
      requires bodies == Bodies()
      requires Indexed() && player.isPlayer && player.id in residents && residents[player.id] == player
      requires player.pos == to
      requires Connected()
      modifies net
      ensures Listing(bodies, order)
      ensures ListsAround(near, bodies, order, player.id, from) && ListsAround(near, bodies, order, player.id, to)
      ensures Turns(turns) && SetOf(turns) == players.Keys && net.wire.Keys == old(net.wire.Keys)
      ensures forall s :: s in net.wire ==>
                net.wire[s] == old(net.wire)[s] + SentTo(turns, s, player, from, to, bodies, order)
      ensures old(Online()) ==> MoveSent(old(net.wire), player, from, to, bodies, order)
    {
      hide *;
      ConnectedParts(player);
      turns := SyncOtherPlayersViewOfMover(player, from, to);
      ghost var watched := net.wire;
      order := SyncMoverViewOfEntities(player, from, to, bodies);
      EachSent(old(net.wire), watched, turns, player, from, to, bodies, order);
      if old(Online()) {
        BothSynced(old(net.wire), watched, player, from, to, bodies, order);
      }
    }

    lemma ConnectedParts(player: Creature)
      requires Indexed() && Connected() && player.isPlayer && player.id in residents && residents[player.id] == player
      ensures layout.Valid() && Disc() && Filed() && player.id in players && players[player.id] == player
      ensures forall id :: id in players ==> players[id].id == id
      ensures forall id :: id in residents ==> InPlace(id)
      ensures player.session.Some? ==> player.session.value in net.wire
      ensures Online() ==> Apart() && player.session.Some?
      ensures Online() ==> forall id ::
                id in players ==> players[id].session.Some? && players[id].session.value in net.wire
    {
      assert players[player.id] == player;
    }

    lemma EachSent(before: map<SessionId, seq<Packet>>, watched: map<SessionId, seq<Packet>>, turns: seq<Id>,
                   player: Creature, from: Pos, to: Pos, bodies: map<Id, Body>, order: seq<Id>)
      requires Turns(turns) && Listing(bodies, order) && watched.Keys == before.Keys
      requires player.session.Some? ==> player.session.value in watched
      requires forall s :: s in watched ==> watched[s] == before[s] + Watched(turns, s, player.id, from, to)
      requires net.wire == if player.session.None? then watched
                           else var s := player.session.value;
                                watched[s := watched[s] + OwnPackets(near, bodies, player.id, from, to, order)]
      ensures net.wire.Keys == before.Keys
      ensures forall s :: s in net.wire ==> net.wire[s] == before[s] + SentTo(turns, s, player, from, to, bodies, order)
    {
      hide OwnPackets, Watched;
      forall s | s in net.wire ensures net.wire[s] == before[s] + SentTo(turns, s, player, from, to, bodies, order) {
        var watch := Watched(turns, s, player.id, from, to);
        if player.session == Some(s) {
          var own := OwnPackets(near, bodies, player.id, from, to, order);
          assert before[s] + watch + own == before[s] + (watch + own);
        } else {
          assert watch + [] == watch;
        }
      }
    }

    lemma BothSynced(before: map<SessionId, seq<Packet>>, watched: map<SessionId, seq<Packet>>, player: Creature,
                     from: Pos, to: Pos, bodies: map<Id, Body>, order: seq<Id>)
      requires Apart() && forall id :: id in players ==> players[id].session.Some?
      requires player.id in players && players[player.id] == player && Listing(bodies, order)
      requires watched.Keys == before.Keys && player.session.value in watched
      requires forall id :: id in players && id != player.id ==> var s := players[id].session.value;
                 s in watched && watched[s] == before[s] + WatchPackets(near, players[id].pos, player.id, from, to)
      requires forall s ::
                s in watched && (forall id :: id in players && id != player.id ==> players[id].session != Some(s)) ==>
                 watched[s] == before[s]
      requires var s := player.session.value;
               net.wire == watched[s := watched[s] + OwnPackets(near, bodies, player.id, from, to, order)]
      ensures MoveSent(before, player, from, to, bodies, order)
    {
      hide OwnPackets, WatchPackets;
      assert watched[player.session.value] == before[player.session.value];
    }

    /** The position of `player` has just changed from `from` to `to`: its zone follows. */
    method OnPlayerMoved(player: Creature, from: Pos, to: Pos, ghost bodies: map<Id, Body>)
      returns (ghost turns: seq<Id>, ghost order: seq<Id>)
      requires bodies == Bodies()
      requires Filed() && player.isPlayer && player.id in residents && residents[player.id] == player
      requires forall id :: id in residents && id != player.id ==> InPlace(id)
      requires player.zoneIndex == zoneOf(from) && player.pos == to
      requires Connected()
      modifies `files, zones, player`zoneIndex, net
      ensures Indexed() && Listing(bodies, order)
      ensures ListsAround(near, bodies, order, player.id, from) && ListsAround(near, bodies, order, player.id, to)
      ensures Turns(turns) && SetOf(turns) == players.Keys && net.wire.Keys == old(net.wire.Keys)
      ensures forall s :: s in net.wire ==>
                net.wire[s] == old(net.wire)[s] + SentTo(turns, s, player, from, to, bodies, order)
      ensures old(Online()) ==> MoveSent(old(net.wire), player, from, to, bodies, order)
    {
      hide *;
      Rezone(player, from, to, bodies);
      turns, order := SyncPlayerVisibility(player, from, to, bodies);
    }

    /** OnPlayerMoved where every player has an open connection of its own. */
    method MoveOnline(player: Creature, from: Pos, to: Pos, ghost bodies: map<Id, Body>)
      returns (ghost order: seq<Id>)
      requires bodies == Bodies()
      requires Filed() && player.isPlayer && player.id in residents && residents[player.id] == player
      requires forall id :: id in residents && id != player.id ==> InPlace(id)
      requires player.zoneIndex == zoneOf(from) && player.pos == to
      requires Online()
      modifies `files, zones, player`zoneIndex, net
      ensures Indexed() && Listing(bodies, order)
      ensures ListsAround(near, bodies, order, player.id, from) && ListsAround(near, bodies, order, player.id, to)
      ensures MoveSent(old(net.wire), player, from, to, bodies, order)
    {
      hide *;
      OnlineConnected();
      ghost var turns;
      turns, order := OnPlayerMoved(player, from, to, bodies);
    }

    lemma OnlineConnected()
      ensures Online() ==> Connected()
    {}

    method Rezone(player: Creature, from: Pos, to: Pos, ghost bodies: map<Id, Body>)
      requires bodies == Bodies()
      requires Filed() && player.isPlayer && player.id in residents && residents[player.id] == player
      requires forall id :: id in residents && id != player.id ==> InPlace(id)
      requires player.zoneIndex == zoneOf(from) && player.pos == to
      modifies `files, zones, player`zoneIndex
      ensures Indexed() && Bodies() == bodies
    {
      hide *;
      FiledParts();
      var oldIndex := WorldToZone(from);
      var newIndex := WorldToZone(to);
      Refile(player, oldIndex, newIndex);
      AllInPlace(player);
    }

    lemma FiledParts()
      requires Filed()
      ensures Shape() && ZonesMirror() && |files.creatures| == |files.zonePlayers| == |zones|
      ensures forall id :: id in residents ==> residents[id].id == id && 0 <= residents[id].zoneIndex < |zones|
    {}

    /** Everybody else was in place, and now `player` is. */
    twostate lemma AllInPlace(player: Creature)
      requires layout.Valid() && old(forall id :: id in residents && id != player.id ==> InPlace(id))
      requires Filed() && residents == old(residents) && player.zoneIndex == zoneOf(player.pos)
      requires player.id in residents && residents[player.id] == player
      requires forall id :: id in residents && id != player.id ==>
                 residents[id].pos == old(residents[id].pos) && residents[id].zoneIndex == old(residents[id].zoneIndex)
      ensures Indexed()
    {
      hide Filed, Layout.Valid;
      assert forall id :: id in residents && id != player.id ==> old(InPlace(id));
    }
  }
}
