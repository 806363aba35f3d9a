/** Theorems about all runs of the game: any number of clients, any order of requests. */
module Runs {
  import opened Wrappers
  import opened Grid
  import opened Zones
  import opened Movement
  import opened Client
  import opened World

  /** The server after start-up: monsters with the hit points they were loaded with, nobody
      logged in. */
  ghost predicate Initial(s: State) {
    && s.avatars == map[]
    && (forall m :: m in s.bodies ==> s.bodies[m].Monster? && s.bodies[m].hp >= 0 && m < s.nextId)
  }

  ghost predicate IsRun(rules: Rules, states: seq<State>, events: seq<Event>)
    requires rules.Valid()
  {
    && |states| == |events| + 1
    && Initial(states[0])
    && forall i :: 0 <= i < |events| ==> StepAt(rules, states, events, i)
  }

  ghost predicate StepAt(rules: Rules, states: seq<State>, events: seq<Event>, i: nat)
    requires rules.Valid() && i < |events| < |states|
  {
    Enabled(rules, states[i], events[i]) && states[i + 1] == Step(rules, states[i], events[i])
  }

  ghost predicate Invariant(rules: Rules, s: State)
    requires rules.Valid()
  {
    && WellFormed(s)
    && Synced(rules, s)
    && NoNegativeHp(s)
    && (rules.tiles.IsWalkableWithRadius(rules.spawn, CREATURE_COLLISION_RADIUS) ==> PlayersOnFreeTiles(rules, s))
  }

  /** In every reachable state: each client's picture is exact, no hit points are negative, and
      (when the spawn point is free) every player stands on free tiles. */
  lemma {:induction false} RunKeepsInvariant(rules: Rules, states: seq<State>, events: seq<Event>, n: nat)
    requires rules.Valid() && IsRun(rules, states, events) && n < |states|
    ensures Invariant(rules, states[n])
  {
    if n > 0 {
      RunKeepsInvariant(rules, states, events, n - 1);
      var s, e := states[n - 1], events[n - 1];
      assert StepAt(rules, states, events, n - 1);
      StepKeepsWellFormed(rules, s, e);
      StepKeepsSynced(rules, s, e);
      StepKeepsHp(rules, s, e);
      if rules.tiles.IsWalkableWithRadius(rules.spawn, CREATURE_COLLISION_RADIUS) {
        StepKeepsFreeTiles(rules, s, e);
      }
    }
  }

  // ---------- Damage is conserved ----------

  ghost predicate Hits(rules: Rules, s: State, e: Event, m: Id) {
    e.Attack? && e.p in s.avatars && !OnCooldown(rules, s.avatars[e.p], e.now) && e.target == Some(m) &&
    m in s.bodies && s.bodies[m].Monster?
  }

  ghost function DamageTo(rules: Rules, s: State, e: Event, m: Id): int {
    if Hits(rules, s, e, m) then Dealt(rules, s.bodies[m].hp) else 0
  }

  ghost predicate Kills(rules: Rules, s: State, e: Event, m: Id) {
    Hits(rules, s, e, m) && DamageTo(rules, s, e, m) == s.bodies[m].hp
  }

  /** Damage dealt to `m` by the first `n` requests. */
  ghost function TotalDamage(rules: Rules, states: seq<State>, events: seq<Event>, m: Id, n: nat): int
    requires n <= |events| < |states|
  {
    if n == 0 then 0
    else TotalDamage(rules, states, events, m, n - 1) + DamageTo(rules, states[n - 1], events[n - 1], m)
  }

  ghost function Deaths(rules: Rules, states: seq<State>, events: seq<Event>, m: Id, n: nat): int
    requires n <= |events| < |states|
  {
    if n == 0 then 0
    else Deaths(rules, states, events, m, n - 1) + (if Kills(rules, states[n - 1], events[n - 1], m) then 1 else 0)
  }

  function HpLeft(s: State, m: Id): int {
    if m in s.bodies && s.bodies[m].Monster? then s.bodies[m].hp else 0
  }

  /** Over any run, the hit points left and the damage dealt add up to the initial hit points,
      and a monster has been killed once if it is gone and never before. */
  lemma {:induction false} RunConservesHp(rules: Rules, states: seq<State>, events: seq<Event>, m: Id, n: nat)
    requires rules.Valid() && IsRun(rules, states, events) && n <= |events| && m in states[0].bodies
    ensures HpLeft(states[n], m) + TotalDamage(rules, states, events, m, n) == HpLeft(states[0], m)
    ensures m !in states[n].avatars && m < states[n].nextId
    ensures Deaths(rules, states, events, m, n) == if m in states[n].bodies then 0 else 1
  {
    if n > 0 {
      RunConservesHp(rules, states, events, m, n - 1);
      RunKeepsInvariant(rules, states, events, n - 1);
      assert StepAt(rules, states, events, n - 1);
      hide IsRun, WellFormed, NoNegativeHp, Enabled, Step, Kills, DamageTo, HpLeft, Synced;
      StepConservesHp(rules, states[n - 1], events[n - 1], m);
    }
  }

  lemma StepConservesHp(rules: Rules, s: State, e: Event, m: Id)
    requires rules.Valid() && WellFormed(s) && NoNegativeHp(s) && Enabled(rules, s, e)
    requires m !in s.avatars && m < s.nextId
    ensures var t := Step(rules, s, e);
            && HpLeft(t, m) + DamageTo(rules, s, e, m) == HpLeft(s, m)
            && m !in t.avatars && m < t.nextId
            && (m in t.bodies <==> m in s.bodies && !Kills(rules, s, e, m))
  {
    hide Replay, Broadcast, SpawnList, MovePackets;
    match e
    case Login(_, _) =>
    case LoginRefused(_) =>
    case EnterRefused(_) =>
    case Logout(_) =>
    case Enter(_, _) =>
    case Leave(_) =>
    case Move(_, _, _, _, _) =>
    case Attack(_, _, _) =>
  }

  /** Every monster in the room is alive in every state of a run exactly when none was loaded
      with a maximum of 0: such a monster is in the room for ever, neither alive nor dead. */
  lemma {:induction false} RunKeepsMonstersAlive(rules: Rules, states: seq<State>, events: seq<Event>, n: nat)
    requires rules.Valid() && IsRun(rules, states, events) && n < |states|
    ensures MonstersAlive(states[n]) <==> MonstersAlive(states[0])
  {
    if n > 0 {
      RunKeepsMonstersAlive(rules, states, events, n - 1);
      RunKeepsInvariant(rules, states, events, n - 1);
      assert StepAt(rules, states, events, n - 1);
      StepKeepsMonstersAlive(rules, states[n - 1], events[n - 1]);
    }
  }

  // ---------- Each death is announced once ----------

  /** How often a client has been sent the death of `m`. */
  ghost function Dies(log: seq<Packet>, m: Id): nat { multiset(log)[Die(m)] }

  lemma DiesAppend(log: seq<Packet>, sent: seq<Packet>, m: Id)
    ensures Dies(log + sent, m) == Dies(log, m) + Dies(sent, m)
  {}

  lemma NoDies(sent: seq<Packet>, m: Id)
    requires forall x :: x in sent ==> x != Die(m)
    ensures Dies(sent, m) == 0
  {
    assert Die(m) !in sent;
  }

  lemma BroadcastDies(near: Interest, bodies: map<Id, Body>, avatars: map<Id, Avatar>, at: Pos, except: Option<Id>,
                      packet: Packet, q: Id, m: Id)
    requires q in avatars
    ensures var heard := Broadcast(near, bodies, avatars, at, except, packet);
            Dies(heard[q].log, m) == Dies(avatars[q].log, m) +
              if packet == Die(m) && Hears(near, bodies, q, at) && except != Some(q) then 1 else 0
  {
    DiesAppend(avatars[q].log, [packet], m);
  }

  lemma {:induction false} OwnPacketsDie(near: Interest, bodies: map<Id, Body>, p: Id, from: Pos, to: Pos,
                                         order: seq<Id>, m: Id)
    requires forall q :: q in order ==> q in bodies
    ensures forall x :: x in OwnPackets(near, bodies, p, from, to, order) ==> x != Die(m)
  {
    if order != [] {
      OwnPacketsDie(near, bodies, p, from, to, order[..|order| - 1], m);
    }
  }

  lemma MoveDies(near: Interest, bodies: map<Id, Body>, log: seq<Packet>, q: Id, p: Id, from: Pos, to: Pos,
                 order: seq<Id>, m: Id)
    requires forall x :: x in order ==> x in bodies
    ensures Dies(log + MovePackets(near, bodies, q, p, from, to, order), m) == Dies(log, m)
  {
    OwnPacketsDie(near, bodies, p, from, to, order, m);
    var sent := MovePackets(near, bodies, q, p, from, to, order);
    NoDies(sent, m);
    DiesAppend(log, sent, m);
  }

  lemma AttackDies(rules: Rules, s: State, e: Event, q: Id, m: Id)
    requires rules.Valid() && WellFormed(s) && e.Attack? && Enabled(rules, s, e) && q in s.avatars
    ensures Dies(Step(rules, s, e).avatars[q].log, m)
            == Dies(s.avatars[q].log, m) + if Announces(rules, s, e, q, m) then 1 else 0
  {
    hide Dies, TickDiff, Visible;
    var swung := s.avatars[e.p := s.avatars[e.p].(lastAttack := e.now)];
    var struck := Struck(rules, s.bodies, e.target);
    var notice := AttackNotice(e.p, HitId(e.target), HpShown(struck, e.target));
    var noticed := Broadcast(rules.near, struck, swung, s.bodies[e.p].pos, None, notice);
    assert Dies(swung[q].log, m) == Dies(s.avatars[q].log, m);
    hide Broadcast;
    BroadcastDies(rules.near, struck, swung, s.bodies[e.p].pos, None, notice, q, m);
    if e.target.Some? {
      BroadcastDies(rules.near, struck, noticed, struck[e.target.value].pos, None, Die(e.target.value), q, m);
    }
  }

  /** The request kills `m` where the logged-in player `q` sees it. */
  ghost predicate Announces(rules: Rules, s: State, e: Event, q: Id, m: Id) {
    Kills(rules, s, e, m) && q in s.avatars && Hears(rules.near, s.bodies, q, s.bodies[m].pos)
  }

  /** One request sends a client the death of `m` once if it kills `m` in the client's view, and
      not at all otherwise. */
  lemma StepAnnounces(rules: Rules, s: State, e: Event, q: Id, m: Id)
    requires rules.Valid() && WellFormed(s) && Enabled(rules, s, e) && q in s.avatars && q in Step(rules, s, e).avatars
    ensures Dies(Step(rules, s, e).avatars[q].log, m)
            == Dies(s.avatars[q].log, m) + if Announces(rules, s, e, q, m) then 1 else 0
  {
    hide Broadcast, SpawnList, MovePackets, Replay, Visible, ListsAround;
    var a := s.avatars[q];
    match e
    case Login(_, _) =>
    case LoginRefused(_) => DiesAppend(a.log, [LoginReply(false)], m);
    case EnterRefused(_) => DiesAppend(a.log, [EnterReply(false, 0, [])], m);
    case Logout(p) => QuitDies(rules, s, p, q, m);
    case Enter(p, order) => EnterDies(rules, s, p, order, q, m);
    case Leave(p) =>
      QuitDies(rules, s, p, q, m);
      DiesAppend(Quit(rules, s, p).avatars[q].log, [LeaveReply(true)], m);
    case Move(p, _, _, _, order) => MoveDies(rules.near, s.bodies, a.log, q, p, s.bodies[p].pos,
                                             MoveTarget(rules, s, e), order, m);
    case Attack(_, _, _) => AttackDies(rules, s, e, q, m);
  }

  lemma QuitDies(rules: Rules, s: State, p: Id, q: Id, m: Id)
    requires p in s.avatars && q in s.avatars
    ensures Dies(Quit(rules, s, p).avatars[q].log, m) == Dies(s.avatars[q].log, m)
  {
    if p in s.bodies {
      BroadcastDies(rules.near, s.bodies, s.avatars, s.bodies[p].pos, None, Despawn(p), q, m);
    }
  }

  lemma EnterDies(rules: Rules, s: State, p: Id, order: seq<Id>, q: Id, m: Id)
    requires p in s.avatars && q in s.avatars && forall x :: x in order ==> x in WithPlayer(rules, s.bodies, p)
    ensures Dies(DoEnter(rules, s, p, order).avatars[q].log, m) == Dies(s.avatars[q].log, m)
  {
    var bodies, packet := WithPlayer(rules, s.bodies, p), Spawn(SpawnEntry(p, rules.spawn));
    BroadcastDies(rules.near, bodies, s.avatars, rules.spawn, Some(p), packet, q, m);
    var heard := if p in s.bodies then s.avatars
                 else Broadcast(rules.near, bodies, s.avatars, rules.spawn, Some(p), packet);
    DiesAppend(heard[p].log, [EnterReply(true, p, SpawnList(rules.near, bodies, p, order))], m);
  }

  /** How often the first `n` requests killed `m` in view of `p`, since `p` last logged in. */
  ghost function Heard(rules: Rules, states: seq<State>, events: seq<Event>, p: Id, m: Id, n: nat): nat
    requires n <= |events| < |states|
  {
    if n == 0 || p !in states[n - 1].avatars then 0
    else Heard(rules, states, events, p, m, n - 1) + if Announces(rules, states[n - 1], events[n - 1], p, m) then 1
                                                     else 0
  }

  /** In every run each client has been sent the death of a monster once if it died in the
      client's view, and never otherwise; nobody dies twice, and nobody in the room is dead. */
  lemma {:induction false} RunAnnouncesDeaths(rules: Rules, states: seq<State>, events: seq<Event>, p: Id, m: Id,
                                              n: nat)
    requires rules.Valid() && IsRun(rules, states, events) && n <= |events|
    ensures p in states[n].avatars ==> Dies(states[n].avatars[p].log, m) == Heard(rules, states, events, p, m, n)
    ensures Heard(rules, states, events, p, m, n) <= Deaths(rules, states, events, m, n) <= 1
    ensures Deaths(rules, states, events, m, n) == 1 ==> Gone(states[n], m)
  {
    if n > 0 {
      RunAnnouncesDeaths(rules, states, events, p, m, n - 1);
      RunKeepsInvariant(rules, states, events, n - 1);
      var s, e := states[n - 1], events[n - 1];
      assert StepAt(rules, states, events, n - 1);
      StepKeepsGone(rules, s, e, m);
      if p in states[n].avatars {
        if p in s.avatars {
          StepAnnounces(rules, s, e, p, m);
        } else {
          NoDies(e.before + [LoginReply(true)], m);
        }
      }
    }
  }

  ghost predicate Gone(s: State, m: Id) { m !in s.bodies && m !in s.avatars && m < s.nextId }

  lemma StepKeepsGone(rules: Rules, s: State, e: Event, m: Id)
    requires rules.Valid() && WellFormed(s) && Enabled(rules, s, e)
    ensures Gone(s, m) || Kills(rules, s, e, m) ==> Gone(Step(rules, s, e), m)
    ensures Gone(s, m) ==> !Kills(rules, s, e, m)
  {
    hide Replay, Broadcast, SpawnList, MovePackets;
  }

  // ---------- Attack rate ----------

  ghost predicate Strikes(rules: Rules, s: State, e: Event, p: Id) {
    e.Attack? && e.p == p && p in s.avatars && !OnCooldown(rules, s.avatars[p], e.now)
  }

  /** The ticks at which the first `n` requests let `p` strike (hit or miss). */
  ghost function StrikeTicks(rules: Rules, states: seq<State>, events: seq<Event>, p: Id, n: nat): seq<nat>
    requires n <= |events| < |states|
  {
    if n == 0 then []
    else
      var before := StrikeTicks(rules, states, events, p, n - 1);
      if Strikes(rules, states[n - 1], events[n - 1], p) then before + [events[n - 1].now] else before
  }

  /** The tick counter never runs backwards and stays within 64 bits. */
  ghost predicate MonotoneClock(events: seq<Event>) {
    && (forall i :: 0 <= i < |events| && events[i].Attack? ==> events[i].now < 0x1_0000_0000_0000_0000)
    && (forall i, j ::
        0 <= i < j < |events| && events[i].Attack? && events[j].Attack? ==> events[i].now <= events[j].now)
  }

  ghost predicate Spaced(ticks: seq<nat>, gap: nat) {
    forall i :: 0 < i < |ticks| ==> ticks[i - 1] + gap <= ticks[i]
  }

  lemma {:induction false} StrikesAreSpaced(rules: Rules, states: seq<State>, events: seq<Event>, p: Id, n: nat)
    requires rules.Valid() && IsRun(rules, states, events) && n <= |events| && MonotoneClock(events)
    ensures var ticks := StrikeTicks(rules, states, events, p, n);
            && Spaced(ticks, rules.stats.cooldownMs)
            && (ticks != [] ==> exists i :: 0 <= i < n && events[i].Attack? && events[i].now == ticks[|ticks| - 1])
            && (ticks != [] ==> p < states[n].nextId)
            && (ticks != [] && p in states[n].avatars ==> states[n].avatars[p].lastAttack == ticks[|ticks| - 1])
  {
    if n > 0 {
      StrikesAreSpaced(rules, states, events, p, n - 1);
      RunKeepsInvariant(rules, states, events, n - 1);
      StepMovesLastAttack(rules, states, events, p, n - 1);
    }
  }

  lemma StepMovesLastAttack(rules: Rules, states: seq<State>, events: seq<Event>, p: Id, i: nat)
    requires rules.Valid() && IsRun(rules, states, events) && i < |events| && WellFormed(states[i])
    ensures var s, e, t := states[i], events[i], states[i + 1];
            && s.nextId <= t.nextId
            && (Strikes(rules, s, e, p) ==> p < s.nextId)
            && (p < s.nextId && p in t.avatars ==>
                  p in s.avatars && t.avatars[p].lastAttack == if Strikes(rules, s, e, p) then e.now
                                                               else s.avatars[p].lastAttack)
  {
    assert StepAt(rules, states, events, i);
  }

  /** Spaced ticks cannot crowd: within any stretch of time T there are at most
      T / cooldown + 1 of them. */
  lemma {:induction false} SpacedTicksAreFew(ticks: seq<nat>, gap: nat, i: nat, j: nat)
    requires Spaced(ticks, gap) && i <= j < |ticks|
    ensures ticks[i] + (j - i) * gap <= ticks[j]
  {
    if i < j {
      SpacedTicksAreFew(ticks, gap, i, j - 1);
      assert (j - i) * gap == (j - 1 - i) * gap + gap;
    }
  }

  /** One player strikes at most T / cooldown + 1 times within any window of T milliseconds. */
  lemma AttackRate(rules: Rules, states: seq<State>, events: seq<Event>, p: Id, i: nat, j: nat, window: nat)
    requires rules.Valid() && IsRun(rules, states, events) && MonotoneClock(events) && rules.stats.cooldownMs > 0
    requires i <= j < |StrikeTicks(rules, states, events, p, |events|)|
    requires var ticks := StrikeTicks(rules, states, events, p, |events|); ticks[j] - ticks[i] <= window
    ensures j - i + 1 <= window / rules.stats.cooldownMs + 1
  {
    var gap := rules.stats.cooldownMs;
    StrikesAreSpaced(rules, states, events, p, |events|);
    SpacedTicksAreFew(StrikeTicks(rules, states, events, p, |events|), gap, i, j);
    var q := window / gap;
    assert window < (q + 1) * gap;
    if j - i > q {
      IntMulMono(q + 1, j - i, gap);
    }
  }

  // ---------- Speed ----------

  /** The moves of `p` among the requests from `i` to before `j`. */
  ghost function MovesOf(events: seq<Event>, p: Id, i: nat, j: nat): nat
    requires i <= j <= |events|
  {
    if i == j then 0 else MovesOf(events, p, i, j - 1) + if events[j - 1].Move? && events[j - 1].p == p then 1 else 0
  }

  /** Over any stretch of a run that a creature spends in the room, it gets no further than
      0.5 * moveSpeed + 0.35 for each of its moves. */
  lemma {:induction false} RunKeepsToSpeed(rules: Rules, states: seq<State>, events: seq<Event>, p: Id, i: nat, j: nat)
    requires rules.Valid() && IsRun(rules, states, events) && i <= j <= |events| && rules.stats.moveSpeed >= 0.0
    requires forall k :: i <= k <= j ==> p in states[k].bodies
    ensures Within(states[i].bodies[p].pos, states[j].bodies[p].pos,
                   RunLimit(rules.stats.moveSpeed, MovesOf(events, p, i, j)))
  {
    hide *;
    RunParts(rules, states, events);
    if i < j {
      var a, b, c := states[i].bodies[p].pos, states[j - 1].bodies[p].pos, states[j].bodies[p].pos;
      RunKeepsToSpeed(rules, states, events, p, i, j - 1);
      StepAlong(rules, states, events, p, i, j);
      WithinTriangle(a, b, c, RunLimit(rules.stats.moveSpeed, MovesOf(events, p, i, j - 1)),
                     StepLimit(rules, events[j - 1], p));
    } else {
      StandingStill(events, p, i, states[i].bodies[p].pos, rules.stats.moveSpeed);
    }
  }

  lemma RunParts(rules: Rules, states: seq<State>, events: seq<Event>)
    requires rules.Valid() && IsRun(rules, states, events)
    ensures |states| == |events| + 1
  {}

  /** How far one request may take `p`. */
  function StepLimit(rules: Rules, e: Event, p: Id): real {
    if e.Move? && e.p == p then CalcMaxDistance(rules.stats.moveSpeed, MAX_ALLOWED_DELTA_SEC) else 0.0
  }

  lemma StepAlong(rules: Rules, states: seq<State>, events: seq<Event>, p: Id, i: nat, j: nat)
    requires rules.Valid() && IsRun(rules, states, events) && i < j <= |events| && rules.stats.moveSpeed >= 0.0
    requires p in states[j - 1].bodies && p in states[j].bodies
    ensures var n, d := MovesOf(events, p, i, j - 1), StepLimit(rules, events[j - 1], p);
            && Within(states[j - 1].bodies[p].pos, states[j].bodies[p].pos, d)
            && d >= 0.0 && RunLimit(rules.stats.moveSpeed, n) >= 0.0
            && RunLimit(rules.stats.moveSpeed, n) + d == RunLimit(rules.stats.moveSpeed, MovesOf(events, p, i, j))
  {
    RunLimitStep(rules.stats.moveSpeed, MovesOf(events, p, i, j - 1) + 1);
    assert StepAt(rules, states, events, j - 1);
    hide IsRun, RunLimit, Step, Enabled, Within, CalcMaxDistance;
    StepKeepsToSpeed(rules, states[j - 1], events[j - 1], p);
  }

  lemma StepKeepsToSpeed(rules: Rules, s: State, e: Event, p: Id)
    requires rules.Valid() && Enabled(rules, s, e) && rules.stats.moveSpeed >= 0.0
    requires p in s.bodies && p in Step(rules, s, e).bodies
    ensures Within(s.bodies[p].pos, Step(rules, s, e).bodies[p].pos, StepLimit(rules, e, p))
  {
    var from, to := s.bodies[p].pos, Step(rules, s, e).bodies[p].pos;
    if e.Move? && e.p == p {
      MoveIsMoveStep(rules, s, e);
      hide Step, Enabled, IsMoveStep;
      StepDistance(rules.tiles, rules.stats.moveSpeed, from, to);
    } else {
      OthersStay(rules, s, e, p);
      hide Step, Enabled;
    }
  }

  lemma StandingStill(events: seq<Event>, p: Id, i: nat, at: Pos, speed: real)
    requires i <= |events|
    ensures Within(at, at, RunLimit(speed, MovesOf(events, p, i, i)))
  {}

  lemma MoveIsMoveStep(rules: Rules, s: State, e: Event)
    requires rules.Valid() && Enabled(rules, s, e) && e.Move?
    ensures var t := Step(rules, s, e);
            e.p in t.bodies && IsMoveStep(rules.tiles, rules.stats.moveSpeed, s.bodies[e.p].pos, t.bodies[e.p].pos)
  {
    hide ValidateClientPosition, MovePackets, ListsAround;
    var delta := EffectiveDelta(s.avatars[e.p].lastMove, e.now);
    assert 0.001 <= delta <= MAX_ALLOWED_DELTA_SEC && IsRoot(e.root, DistSq(s.bodies[e.p].pos, e.client));
  }

  /** Nobody is moved by anybody else's request, or by its own that is no move. */
  lemma OthersStay(rules: Rules, s: State, e: Event, p: Id)
    requires rules.Valid() && Enabled(rules, s, e) && p in s.bodies && p in Step(rules, s, e).bodies
    requires !(e.Move? && e.p == p)
    ensures Step(rules, s, e).bodies[p].pos == s.bodies[p].pos
  {
    hide Broadcast, SpawnList, MovePackets, Replay;
  }
}
