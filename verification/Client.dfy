/** The client side of interest management: the packets that change which objects a client
    shows, and where it believes they are. */
module Client {
  import opened Zones

  type Id = int

  /** What a client shows: object id to last known server position. */
  type Picture = map<Id, Pos>

  datatype SpawnEntry = SpawnEntry(id: Id, pos: Pos)

  datatype Packet =
    | LoginReply(success: bool)
    | EnterReply(success: bool, myId: Id, spawns: seq<SpawnEntry>)
    | LeaveReply(success: bool)
    | Spawn(entry: SpawnEntry)
    | Despawn(id: Id)
    | MoveNotice(id: Id, pos: Pos)
    | AttackNotice(attacker: Id, target: Id, targetHp: int)
    | Die(id: Id)

  /** Spawning an object that is already shown is ignored. */
  function SpawnOne(pic: Picture, e: SpawnEntry): Picture {
    if e.id in pic then pic else pic[e.id := e.pos]
  }

  function SpawnAll(pic: Picture, spawns: seq<SpawnEntry>): Picture {
    if spawns == [] then pic
    else SpawnOne(SpawnAll(pic, spawns[..|spawns| - 1]), spawns[|spawns| - 1])
  }

  /** The effect of one packet. A dead object is taken off the screen, and the answer to
      leaving clears everything. */
  function Receive(pic: Picture, packet: Packet): Picture {
    match packet
    case LoginReply(_) => pic
    case EnterReply(success, _, spawns) => if success then SpawnAll(pic, spawns) else pic
    case LeaveReply(success) => if success then map[] else pic
    case Spawn(e) => SpawnOne(pic, e)
    case Despawn(id) => pic - {id}
    case MoveNotice(id, pos) => if id in pic then pic[id := pos] else pic
    case AttackNotice(_, _, _) => pic
    case Die(id) => pic - {id}
  }

  /** Answers that change no picture, whoever gets them. */
  predicate Harmless(packet: Packet) {
    packet.LoginReply? || (packet.EnterReply? && !packet.success) || (packet.LeaveReply? && !packet.success)
  }

  ghost predicate AllHarmless(log: seq<Packet>) { forall packet :: packet in log ==> Harmless(packet) }

  /** The picture of a client that has received exactly the packets of a log, in order. */
  function Replay(log: seq<Packet>): Picture {
    if log == [] then map[] else Receive(Replay(log[..|log| - 1]), log[|log| - 1])
  }

  lemma ReplayAppend(log: seq<Packet>, packet: Packet)
    ensures Replay(log + [packet]) == Receive(Replay(log), packet)
  {
    assert (log + [packet])[..|log|] == log;
  }

  /** A list of spawn entries that shows exactly the objects of a picture. */
  ghost predicate Lists(spawns: seq<SpawnEntry>, pic: Picture) {
    && (forall i :: 0 <= i < |spawns| ==> spawns[i].id in pic && pic[spawns[i].id] == spawns[i].pos)
    && (forall id :: id in pic ==> SpawnEntry(id, pic[id]) in spawns)
  }

  /** No object is named twice. */
  ghost predicate EachOnce(spawns: seq<SpawnEntry>) {
    forall i, j :: 0 <= i < j < |spawns| ==> spawns[i].id != spawns[j].id
  }

  /** What is already shown keeps its position; the rest of the list is added. */
  lemma {:induction false} SpawnAllMerges(pic: Picture, spawns: seq<SpawnEntry>, shown: Picture)
    requires Lists(spawns, shown)
    ensures SpawnAll(pic, spawns) == shown + pic
  {
    SpawnAllPointwise(pic, spawns, shown);
    var r := SpawnAll(pic, spawns);
    forall id | id in shown ensures id in r {
      assert SpawnEntry(id, shown[id]) in spawns;
    }
    var merged := shown + pic;
    forall id ensures id in r <==> id in merged {
      if id in r && id !in pic {
        assert id in shown;
      }
    }
    assert forall id :: id in r ==> r[id] == merged[id];
    assert r == merged;
  }

  lemma {:induction false} SpawnAllPointwise(pic: Picture, spawns: seq<SpawnEntry>, shown: Picture)
    requires forall i :: 0 <= i < |spawns| ==> spawns[i].id in shown && shown[spawns[i].id] == spawns[i].pos
    ensures var r := SpawnAll(pic, spawns);
            && (forall id :: id in pic ==> id in r && r[id] == pic[id])
            && (forall id :: id in r && id !in pic ==> id in shown && r[id] == shown[id])
            && (forall e :: e in spawns ==> e.id in r)
  {
    if spawns != [] {
      var n := |spawns| - 1;
      SpawnAllPointwise(pic, spawns[..n], shown);
      assert spawns == spawns[..n] + [spawns[n]];
    }
  }

  /** ObjectManager: the dictionary of shown objects and the handlers that change it. */
  class ObjectManager {
    var objects: map<Id, Pos>

    constructor ()
      ensures objects == map[]
    {
      objects := map[];
    }

    method SpawnInternal(e: SpawnEntry)
      modifies this
      ensures objects == SpawnOne(old(objects), e)
    {
      if e.id in objects {
        return;
      }
      objects := objects[e.id := e.pos];
    }

    method SpawnEntries(spawns: seq<SpawnEntry>)
      modifies this
      ensures objects == SpawnAll(old(objects), spawns)
    {
      assert spawns[..|spawns|] == spawns;
      for i := 0 to |spawns|
        invariant objects == SpawnAll(old(objects), spawns[..i])
      {
        assert spawns[..i + 1][..i] == spawns[..i];
        SpawnInternal(spawns[i]);
      }
    }

    method DespawnObject(id: Id)
      modifies this
      ensures objects == old(objects) - {id}
    {
      objects := objects - {id};
    }

    method Clear()
      modifies this
      ensures objects == map[]
    {
      objects := map[];
    }

    /** The packet handlers of the client. */
    method Handle(packet: Packet)
      modifies this
      ensures objects == Receive(old(objects), packet)
    {
      match packet {
        case LoginReply(_) =>
        case EnterReply(success, _, spawns) =>
          if success {
            SpawnEntries(spawns);
          }
        case LeaveReply(success) =>
          if success {
            Clear();
          }
        case Spawn(e) =>
          SpawnInternal(e);
        case Despawn(id) =>
          DespawnObject(id);
        case MoveNotice(id, pos) =>
          if id in objects {
            objects := objects[id := pos];
          }
        case AttackNotice(_, _, _) =>
        case Die(id) =>
          DespawnObject(id);
      }
    }
  }
}
