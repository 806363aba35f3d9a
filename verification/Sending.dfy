/** What each request sends, packet by packet, and that nothing is sent in vain. */
module Sending {
  import opened Wrappers
  import opened Zones
  import opened Client
  import opened World
  import opened Runs

  // ---------- What a request sends to each client ----------

  /** The player `q` is in the room and sees a point. */
  predicate Sees(rules: Rules, s: State, q: Id, at: Pos) {
    q in s.bodies && s.bodies[q].Player? && rules.near(s.bodies[q].pos, at)
  }

  /** An entrant is answered with its id and a list of itself and whatever it sees, nobody twice. */
  lemma EntrantIsSent(rules: Rules, s: State, e: Event) returns (spawns: seq<SpawnEntry>)
    requires rules.Valid() && WellFormed(s) && e.Enter? && Enabled(rules, s, e)
    ensures Step(rules, s, e).avatars[e.p].log == s.avatars[e.p].log + [EnterReply(true, e.p, spawns)]
    ensures var bodies := if e.p in s.bodies then s.bodies else s.bodies[e.p := Player(rules.spawn)];
            Lists(spawns, Visible(rules.near, bodies, e.p))
    ensures EachOnce(spawns)
  {
    var bodies := WithPlayer(rules, s.bodies, e.p);
    spawns := SpawnList(rules.near, bodies, e.p, e.order);
    SpawnListShows(rules.near, bodies, e.p, e.order);
    SpawnListOnce(rules.near, bodies, e.p, e.order);
    hide SpawnList, Visible, Lists, EachOnce, Listing, ListsAround;
  }

  /** The players that see the spawn point are sent one spawn of it, unless it was in the room already,
      and nobody else is sent anything. */
  lemma EntryIsSent(rules: Rules, s: State, e: Event, q: Id)
    requires rules.Valid() && WellFormed(s) && e.Enter? && Enabled(rules, s, e) && q in s.avatars && q != e.p
    ensures Step(rules, s, e).avatars[q].log == s.avatars[q].log
              + if e.p !in s.bodies && Sees(rules, s, q, rules.spawn) then [Spawn(SpawnEntry(e.p, rules.spawn))] else []
  {
    hide SpawnList, Listing, ListsAround;
    assert s.avatars[q].log + [] == s.avatars[q].log;
  }

  /** Whoever leaves is taken off each client that sees it, by one packet, and its own is answered. */
  lemma LeaveSends(rules: Rules, s: State, e: Event, q: Id)
    requires rules.Valid() && WellFormed(s) && (e.Leave? || e.Logout?) && Enabled(rules, s, e) && q in s.avatars
    requires e.Logout? ==> q != e.p
    ensures Step(rules, s, e).avatars[q].log == s.avatars[q].log
              + (if e.p in s.bodies && Sees(rules, s, q, s.bodies[e.p].pos) then [Despawn(e.p)] else [])
              + (if q == e.p then [LeaveReply(true)] else [])
  {
    var log := s.avatars[q].log;
    assert log + [] == log && log + [Despawn(e.p)] + [] == log + [Despawn(e.p)];
  }

  /** A moving player is sent one spawn for each creature that it comes to see, one despawn for each
      that it loses from view, and its position. */
  lemma MoverIsSent(rules: Rules, s: State, e: Event)
    requires rules.Valid() && WellFormed(s) && e.Move? && Enabled(rules, s, e)
    ensures var from, to := s.bodies[e.p].pos, Step(rules, s, e).bodies[e.p].pos;
            exists own: seq<Packet> ::
              && Step(rules, s, e).avatars[e.p].log == s.avatars[e.p].log + own + [MoveNotice(e.p, to)]
              && TellsChanges(rules.near, s.bodies, e.p, from, to, own)
  {
    var from, to := s.bodies[e.p].pos, MoveTarget(rules, s, e);
    var own := OwnPackets(rules.near, s.bodies, e.p, from, to, e.order);
    OwnTellsChanges(rules.near, s.bodies, e.p, from, to, e.order);
    hide OwnPackets, TellsChanges, MoveTarget, Listing, ListsAround;
    assert s.avatars[e.p].log + (own + [MoveNotice(e.p, to)]) == s.avatars[e.p].log + own + [MoveNotice(e.p, to)];
  }

  /** Exactly one packet for each creature that comes into or goes out of view, and no other. */
  ghost predicate TellsChanges(near: Interest, bodies: map<Id, Body>, p: Id, from: Pos, to: Pos, own: seq<Packet>) {
    && (forall x :: x in bodies && x != p ==>
          && Times(own, Spawn(SpawnEntry(x, bodies[x].pos))) ==
               (if near(to, bodies[x].pos) && !near(from, bodies[x].pos) then 1 else 0)
          && Times(own, Despawn(x)) == (if near(from, bodies[x].pos) && !near(to, bodies[x].pos) then 1 else 0))
    && (forall packet :: packet in own ==> AboutOther(bodies, p, packet))
  }

  ghost function Times(sent: seq<Packet>, packet: Packet): nat { multiset(sent)[packet] }

  /** A spawn or despawn of another creature of the room. */
  predicate AboutOther(bodies: map<Id, Body>, p: Id, packet: Packet) {
    match packet
    case Spawn(x) => x.id in bodies && x.id != p && x.pos == bodies[x.id].pos
    case Despawn(id) => id in bodies && id != p
    case _ => false
  }

  lemma {:induction false} OwnTimes(near: Interest, bodies: map<Id, Body>, p: Id, from: Pos, to: Pos, order: seq<Id>,
                                    x: Id)
    requires Listing(bodies, order) && x in bodies && x != p
    ensures forall q :: q in order ==> q in bodies
    ensures var own, at := OwnPackets(near, bodies, p, from, to, order), bodies[x].pos;
            && Times(own, Spawn(SpawnEntry(x, at))) == (if x in order && near(to, at) && !near(from, at) then 1 else 0)
            && Times(own, Despawn(x)) == (if x in order && near(from, at) && !near(to, at) then 1 else 0)
  {
    if order != [] {
      var front, last := order[..|order| - 1], order[|order| - 1];
      OwnTimes(near, bodies, p, from, to, front, x);
      var before, packet := OwnPackets(near, bodies, p, from, to, front), OwnPacket(near, bodies, p, from, to, last);
      assert OwnPackets(near, bodies, p, from, to, order) == before + packet;
      assert order == front + [last] && last !in front;
      hide OwnPackets, Listing;
    }
  }

  lemma {:induction false} OwnAboutOthers(near: Interest, bodies: map<Id, Body>, p: Id, from: Pos, to: Pos,
                                          order: seq<Id>)
    requires forall q :: q in order ==> q in bodies
    ensures forall packet :: packet in OwnPackets(near, bodies, p, from, to, order) ==> AboutOther(bodies, p, packet)
  {
    if order != [] {
      OwnAboutOthers(near, bodies, p, from, to, order[..|order| - 1]);
    }
  }

  lemma OwnTellsChanges(near: Interest, bodies: map<Id, Body>, p: Id, from: Pos, to: Pos, order: seq<Id>)
    requires Listing(bodies, order)
    requires ListsAround(near, bodies, order, p, from) && ListsAround(near, bodies, order, p, to)
    ensures forall x :: x in order ==> x in bodies
    ensures TellsChanges(near, bodies, p, from, to, OwnPackets(near, bodies, p, from, to, order))
  {
    OwnAboutOthers(near, bodies, p, from, to, order);
    forall x | x in bodies && x != p
      ensures var own, at := OwnPackets(near, bodies, p, from, to, order), bodies[x].pos;
              && Times(own, Spawn(SpawnEntry(x, at))) == (if near(to, at) && !near(from, at) then 1 else 0)
              && Times(own, Despawn(x)) == (if near(from, at) && !near(to, at) then 1 else 0)
    {
      OwnTimes(near, bodies, p, from, to, order, x);
      hide Times, OwnPackets;
    }
    hide Times, OwnPackets, AboutOther;
  }

  /** Another player is sent one spawn if it comes to see the mover, one despawn if it loses it from
      view, and the new position if it sees that. */
  lemma WatcherIsSent(rules: Rules, s: State, e: Event, q: Id)
    requires rules.Valid() && WellFormed(s) && e.Move? && Enabled(rules, s, e) && q in s.avatars && q != e.p
    ensures var from, to := s.bodies[e.p].pos, Step(rules, s, e).bodies[e.p].pos;
            Step(rules, s, e).avatars[q].log == s.avatars[q].log
              + (if !Sees(rules, s, q, from) && Sees(rules, s, q, to) then [Spawn(SpawnEntry(e.p, to))] else [])
              + (if Sees(rules, s, q, from) && !Sees(rules, s, q, to) then [Despawn(e.p)] else [])
              + (if Sees(rules, s, q, to) then [MoveNotice(e.p, to)] else [])
  {
    hide MoveTarget, ListsAround, Listing;
    var log, to := s.avatars[q].log, MoveTarget(rules, s, e);
    assert log + [] == log;
    var spawn, notice := Spawn(SpawnEntry(e.p, to)), MoveNotice(e.p, to);
    assert log + ([spawn] + [notice]) == log + [spawn] + [notice];
    assert [] + [notice] == [notice];
    assert [Despawn(e.p)] + [] == [Despawn(e.p)];
  }

  // ---------- Nothing is sent in vain ----------

  /** The packet is about something that the client shows, or brings something that it does not. */
  predicate Useful(pic: Picture, packet: Packet) {
    match packet
    case Spawn(e) => e.id !in pic
    case Despawn(id) => id in pic
    case MoveNotice(id, _) => id in pic
    case AttackNotice(attacker, _, _) => attacker in pic
    case Die(id) => id in pic
    case _ => true
  }

  /** Each packet of a log was, when it arrived. */
  ghost predicate AllUseful(log: seq<Packet>) {
    forall k :: 0 <= k < |log| ==> UsefulAt(log, k)
  }

  ghost predicate UsefulAt(log: seq<Packet>, k: nat)
    requires k < |log|
  {
    Useful(Replay(log[..k]), log[k])
  }

  lemma UsefulAppend(log: seq<Packet>, packet: Packet)
    requires AllUseful(log) && Useful(Replay(log), packet)
    ensures AllUseful(log + [packet])
  {
    var more := log + [packet];
    forall k | 0 <= k < |more| ensures UsefulAt(more, k) {
      hide Useful, Replay;
      if k < |log| {
        assert UsefulAt(log, k) && more[..k] == log[..k];
      } else {
        assert more[..k] == log;
      }
    }
  }

  lemma HarmlessAreUseful(log: seq<Packet>)
    requires AllHarmless(log)
    ensures AllUseful(log)
  {
    forall k | 0 <= k < |log| ensures UsefulAt(log, k) {
      assert log[k] in log;
    }
  }

  ghost predicate Thrifty(s: State) { forall q :: q in s.avatars ==> AllUseful(s.avatars[q].log) }

  lemma BroadcastIsUseful(near: Interest, bodies: map<Id, Body>, avatars: map<Id, Avatar>, at: Pos, except: Option<Id>,
                          packet: Packet)
    requires forall q :: q in avatars ==> AllUseful(avatars[q].log)
    requires forall q :: q in avatars && Hears(near, bodies, q, at) && except != Some(q) ==>
               Useful(avatars[q].Shown(), packet)
    ensures var heard := Broadcast(near, bodies, avatars, at, except, packet);
            forall q :: q in heard ==> AllUseful(heard[q].log)
  {
    forall q | q in avatars && Hears(near, bodies, q, at) && except != Some(q)
      ensures AllUseful(avatars[q].log + [packet])
    {
      UsefulAppend(avatars[q].log, packet);
    }
    hide AllUseful, Useful, Replay, Hears;
  }

  lemma {:induction false} OwnPacketsUseful(near: Interest, bodies: map<Id, Body>, log: seq<Packet>, p: Id, from: Pos,
                                            to: Pos, order: seq<Id>)
    requires Listing(bodies, order) && AllUseful(log) && p in bodies && bodies[p].pos == from
    requires Replay(log) == Visible(near, bodies, p)
    ensures forall q :: q in order ==> q in bodies
    ensures AllUseful(log + OwnPackets(near, bodies, p, from, to, order))
  {
    if order == [] {
      assert log + [] == log;
    } else {
      var front, q := order[..|order| - 1], order[|order| - 1];
      OwnPacketsUseful(near, bodies, log, p, from, to, front);
      var before, packet := OwnPackets(near, bodies, p, from, to, front), OwnPacket(near, bodies, p, from, to, q);
      assert OwnPackets(near, bodies, p, from, to, order) == before + packet;
      assert q !in SetOf(front);
      OwnPacketsShow(near, bodies, log, p, from, to, front);
      NextIsUseful(near, bodies, p, from, to, SetOf(front), q);
      hide OwnPackets, AllUseful, Useful, Replay, OwnSoFar, Visible;
      if packet == [] {
        assert log + (before + packet) == log + before;
      } else {
        UsefulAppend(log + before, packet[0]);
        assert log + (before + packet) == log + before + [packet[0]];
      }
    }
  }

  lemma NextIsUseful(near: Interest, bodies: map<Id, Body>, p: Id, from: Pos, to: Pos, seen: set<Id>, q: Id)
    requires p in bodies && bodies[p].pos == from && q in bodies && q !in seen
    ensures var packet := OwnPacket(near, bodies, p, from, to, q);
            var synced := OwnSoFar(near, bodies, Visible(near, bodies, p), p, from, to, seen);
            packet == [] || (|packet| == 1 && Useful(synced, packet[0]))
  {}

  lemma MoveIsUseful(rules: Rules, s: State, e: Event)
    requires rules.Valid() && WellFormed(s) && Synced(rules, s) && Thrifty(s) && e.Move? && Enabled(rules, s, e)
    ensures Thrifty(Step(rules, s, e))
  {
    var t := Step(rules, s, e);
    forall q | q in t.avatars ensures AllUseful(t.avatars[q].log) {
      if q == e.p {
        MoverIsToldUseful(rules, s, e);
      } else {
        WatcherIsToldUseful(rules, s, e, q);
      }
    }
  }

  lemma MoverIsToldUseful(rules: Rules, s: State, e: Event)
    requires rules.Valid() && WellFormed(s) && Synced(rules, s) && Thrifty(s) && e.Move? && Enabled(rules, s, e)
    ensures AllUseful(Step(rules, s, e).avatars[e.p].log)
  {
    var p, log, from, to := e.p, s.avatars[e.p].log, s.bodies[e.p].pos, MoveTarget(rules, s, e);
    var own := OwnPackets(rules.near, s.bodies, p, from, to, e.order);
    assert Step(rules, s, e).avatars[p].log == log + (own + [MoveNotice(p, to)]);
    assert p in Visible(rules.near, s.bodies, p);
    OwnPacketsUseful(rules.near, s.bodies, log, p, from, to, e.order);
    OwnPacketsShow(rules.near, s.bodies, log, p, from, to, e.order);
    assert p in OwnSoFar(rules.near, s.bodies, Visible(rules.near, s.bodies, p), p, from, to, SetOf(e.order));
    hide *;
    SameShown(rules, s, p);
    UsefulNotice(log + own, p, to);
    assert log + (own + [MoveNotice(p, to)]) == log + own + [MoveNotice(p, to)];
  }

  lemma SameShown(rules: Rules, s: State, p: Id)
    requires Synced(rules, s) && p in s.avatars
    ensures Replay(s.avatars[p].log) == ShouldShow(rules, s, p)
  {
    hide Replay;
  }

  lemma UsefulNotice(log: seq<Packet>, p: Id, to: Pos)
    requires AllUseful(log) && p in Replay(log)
    ensures AllUseful(log + [MoveNotice(p, to)])
  {
    UsefulAppend(log, MoveNotice(p, to));
  }

  lemma WatcherIsToldUseful(rules: Rules, s: State, e: Event, q: Id)
    requires rules.Valid() && WellFormed(s) && Synced(rules, s) && Thrifty(s) && e.Move? && Enabled(rules, s, e)
    requires q in s.avatars && q != e.p
    ensures AllUseful(Step(rules, s, e).avatars[q].log)
  {
    var p, log, from, to := e.p, s.avatars[q].log, s.bodies[e.p].pos, MoveTarget(rules, s, e);
    assert Step(rules, s, e).avatars[q].log == log + MovePackets(rules.near, s.bodies, q, p, from, to, e.order);
    if q in s.bodies {
      var viewer := s.bodies[q].pos;
      assert p in Replay(log) <==> rules.near(viewer, from);
      var watch := WatchPackets(rules.near, viewer, p, from, to);
      WatchShows(rules.near, log, viewer, p, from, to);
      hide Replay, AllUseful, MoveTarget, Listing, ListsAround, Enabled, Step, Synced, WellFormed;
      if watch == [] {
        assert log + watch == log;
      } else {
        UsefulAppend(log, watch[0]);
        assert watch == [watch[0]];
      }
      if rules.near(viewer, to) {
        UsefulNotice(log + watch, p, to);
        assert log + (watch + [MoveNotice(p, to)]) == log + watch + [MoveNotice(p, to)];
      } else {
        assert log + (watch + []) == log + watch;
      }
    } else {
      OutsiderUntold(rules.near, s.bodies, log, q, p, from, to, e.order);
    }
  }

  lemma AttackIsUseful(rules: Rules, s: State, e: Event)
    requires rules.Valid() && WellFormed(s) && Synced(rules, s) && Thrifty(s) && e.Attack? && Enabled(rules, s, e)
    ensures Thrifty(Step(rules, s, e))
  {
    hide Replay, Broadcast, AllUseful;
    if !OnCooldown(rules, s.avatars[e.p], e.now) {
      var swung := s.avatars[e.p := s.avatars[e.p].(lastAttack := e.now)];
      var struck, at := Struck(rules, s.bodies, e.target), s.bodies[e.p].pos;
      var notice := AttackNotice(e.p, HitId(e.target), HpShown(struck, e.target));
      var noticed := Broadcast(rules.near, struck, swung, at, None, notice);
      BroadcastIsUseful(rules.near, struck, swung, at, None, notice);
      if e.target.Some? {
        BroadcastShows(rules.near, struck, swung, at, None, notice);
        BroadcastIsUseful(rules.near, struck, noticed, struck[e.target.value].pos, None, Die(e.target.value));
      }
    }
  }

  lemma QuitIsUseful(rules: Rules, s: State, p: Id)
    requires rules.Valid() && WellFormed(s) && Synced(rules, s) && Thrifty(s) && p in s.avatars
    ensures Thrifty(Quit(rules, s, p))
  {
    hide Replay, Broadcast, AllUseful;
    if p in s.bodies {
      BroadcastIsUseful(rules.near, s.bodies, s.avatars, s.bodies[p].pos, None, Despawn(p));
    }
  }

  lemma EnterIsUseful(rules: Rules, s: State, p: Id, order: seq<Id>)
    requires rules.Valid() && WellFormed(s) && Synced(rules, s) && Thrifty(s) && Enabled(rules, s, Enter(p, order))
    ensures Thrifty(DoEnter(rules, s, p, order))
  {
    hide Replay, Broadcast, AllUseful, SpawnList;
    var bodies, packet := WithPlayer(rules, s.bodies, p), Spawn(SpawnEntry(p, rules.spawn));
    var heard := if p in s.bodies then s.avatars
                 else Broadcast(rules.near, bodies, s.avatars, rules.spawn, Some(p), packet);
    if p !in s.bodies {
      BroadcastIsUseful(rules.near, bodies, s.avatars, rules.spawn, Some(p), packet);
    }
    UsefulAppend(heard[p].log, EnterReply(true, p, SpawnList(rules.near, bodies, p, order)));
  }

  lemma StepIsThrifty(rules: Rules, s: State, e: Event)
    requires rules.Valid() && WellFormed(s) && Synced(rules, s) && Thrifty(s) && Enabled(rules, s, e)
    ensures Thrifty(Step(rules, s, e))
  {
    hide Replay, AllUseful, Synced, WellFormed, SpawnList, MovePackets, Broadcast;
    match e
    case Login(p, before) => HarmlessAreUseful(before); UsefulAppend(before, LoginReply(true));
    case LoginRefused(p) => UsefulAppend(s.avatars[p].log, LoginReply(false));
    case EnterRefused(p) => UsefulAppend(s.avatars[p].log, EnterReply(false, 0, []));
    case Logout(p) => QuitIsUseful(rules, s, p);
    case Enter(p, order) => EnterIsUseful(rules, s, p, order);
    case Leave(p) => QuitIsUseful(rules, s, p); UsefulAppend(Quit(rules, s, p).avatars[p].log, LeaveReply(true));
    case Move(_, _, _, _, _) => MoveIsUseful(rules, s, e);
    case Attack(_, _, _) => AttackIsUseful(rules, s, e);
  }

  /** In every run no client is ever sent a spawn of what it shows, or a despawn, a death, a position or
      an attack of what it does not. */
  lemma {:induction false} RunIsThrifty(rules: Rules, states: seq<State>, events: seq<Event>, n: nat)
    requires rules.Valid() && IsRun(rules, states, events) && n < |states|
    ensures Thrifty(states[n])
  {
    if n > 0 {
      RunIsThrifty(rules, states, events, n - 1);
      RunKeepsInvariant(rules, states, events, n - 1);
      assert StepAt(rules, states, events, n - 1);
      hide IsRun, Thrifty, Synced, WellFormed, Enabled, Step;
      StepIsThrifty(rules, states[n - 1], events[n - 1]);
    }
  }
}
