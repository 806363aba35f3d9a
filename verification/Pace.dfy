/** Moves and the clock: what a move is credited with depends on the last one of the same player. */
module Pace {
  import opened Zones
  import opened MapCollisions
  import opened Movement
  import opened Client
  import opened World
  import opened Runs

  // ---------- The tick of the last move ----------

  /** The request is one of `p` after which its last move counts anew. */
  predicate SetsMoveTick(e: Event, p: Id) {
    e.p == p && (e.Login? || e.Enter? || e.Leave? || e.Logout? || e.Move?)
  }

  lemma StepMovesTick(rules: Rules, s: State, e: Event, p: Id)
    requires rules.Valid() && WellFormed(s) && Enabled(rules, s, e) && p in Step(rules, s, e).avatars
    ensures e.p == p && e.Move? ==> Step(rules, s, e).avatars[p].lastMove == e.now
    ensures e.p == p && (e.Enter? || e.Login? || (e.Leave? && p in s.bodies)) ==>
              Step(rules, s, e).avatars[p].lastMove == 0
    ensures !SetsMoveTick(e, p) ==> p in s.avatars && Step(rules, s, e).avatars[p].lastMove == s.avatars[p].lastMove
  {
    hide Replay, SpawnList, MovePackets, Listing, ListsAround, Hears, ValidateClientPosition;
  }

  /** What a step says of an index of a run. */
  lemma StepIn(rules: Rules, states: seq<State>, events: seq<Event>, i: nat)
    requires rules.Valid() && IsRun(rules, states, events) && i < |events|
    ensures |states| == |events| + 1 && WellFormed(states[i])
    ensures Enabled(rules, states[i], events[i]) && states[i + 1] == Step(rules, states[i], events[i])
  {
    RunKeepsInvariant(rules, states, events, i);
    assert StepAt(rules, states, events, i);
    hide Step, Enabled, Synced;
  }

  /** As long as nothing of the kind happens, the tick stays. */
  lemma {:induction false} MoveTickStays(rules: Rules, states: seq<State>, events: seq<Event>, p: Id, i: nat, j: nat)
    requires rules.Valid() && IsRun(rules, states, events) && i <= j <= |events|
    requires forall k :: i <= k <= j ==> p in states[k].avatars
    requires forall k :: i <= k < j ==> !SetsMoveTick(events[k], p)
    ensures states[j].avatars[p].lastMove == states[i].avatars[p].lastMove
  {
    if i < j {
      StepIn(rules, states, events, j - 1);
      hide *;
      MoveTickStays(rules, states, events, p, i, j - 1);
      StepMovesTick(rules, states[j - 1], events[j - 1], p);
    }
  }

  /** `p` moves with request `i` and again with request `j`, without having entered or left in
      between. */
  ghost predicate NextMove(states: seq<State>, events: seq<Event>, p: Id, i: nat, j: nat)
    requires i < j < |events| < |states|
  {
    && events[i].Move? && events[i].p == p && events[j].Move? && events[j].p == p
    && (forall k :: i < k < j ==> !SetsMoveTick(events[k], p))
    && (forall k :: i <= k <= j ==> p in states[k].avatars)
  }

  /** The second of two moves is validated with the time since the first. */
  lemma NextMoveIsValidated(rules: Rules, states: seq<State>, events: seq<Event>, p: Id, i: nat, j: nat)
    requires rules.Valid() && IsRun(rules, states, events) && i < j < |events|
    requires NextMove(states, events, p, i, j)
    ensures p in states[j].bodies && p in states[j + 1].bodies
    ensures IsRoot(events[j].root, DistSq(states[j].bodies[p].pos, events[j].client))
    ensures states[j + 1].bodies[p].pos ==
              ValidateClientPosition(rules.tiles, states[j].bodies[p].pos, events[j].client, rules.stats.moveSpeed,
                                     EffectiveDelta(events[i].now, events[j].now), events[j].root)
  {
    StepIn(rules, states, events, i);
    StepIn(rules, states, events, j);
    StepMovesTick(rules, states[i], events[i], p);
    MoveTickStays(rules, states, events, p, i + 1, j);
    hide IsRun, MovePackets, ValidateClientPosition, EffectiveDelta, Listing, ListsAround;
  }

  /** The client's clamp of some local position, as the client knows the server's. */
  ghost predicate Clamped(m: Tiles, server: Pos, moveSpeed: real, sent: Pos)
    requires m.Valid()
  {
    exists p: Pos, root: real ::
      IsRoot(root, DistSq(server, p)) && sent == ClampSendPosition(m, server, p, moveSpeed, root)
  }

  /** In every run: of two moves that are at least 300 ms apart the server keeps the second as it is
      if the client has clamped it. */
  lemma ClampedMoveIsKept(rules: Rules, states: seq<State>, events: seq<Event>, p: Id, i: nat, j: nat)
    requires rules.Valid() && IsRun(rules, states, events) && i < j < |events|
    requires NextMove(states, events, p, i, j) && rules.stats.moveSpeed >= 0.0
    requires 0 < events[i].now && events[i].now + 300 <= events[j].now
    requires p in states[j].bodies
    requires Clamped(rules.tiles, states[j].bodies[p].pos, rules.stats.moveSpeed, events[j].client)
    ensures p in states[j + 1].bodies && states[j + 1].bodies[p].pos == events[j].client
  {
    NextMoveIsValidated(rules, states, events, p, i, j);
    SidesAgreeOverTicks(rules.stats.moveSpeed, events[i].now, events[j].now);
    var m, server, speed := rules.tiles, states[j].bodies[p].pos, rules.stats.moveSpeed;
    var q: Pos, root: real :|
      IsRoot(root, DistSq(server, q)) && events[j].client == ClampSendPosition(m, server, q, speed, root);
    assert Keeps(m, server, q, speed, EffectiveDelta(events[i].now, events[j].now), root, events[j].root);
    hide IsRun, NextMove, EffectiveDelta, ValidateClientPosition, ClampSendPosition;
  }

  // ---------- Speed over a stretch of time ----------

  /** `p` is in the room from request `i` to request `j`, does not enter again, and each of its moves
      comes some time after the one before. */
  ghost predicate InTime(states: seq<State>, events: seq<Event>, p: Id, i: nat, j: nat)
    requires i <= j <= |events| < |states|
  {
    && (forall k :: i <= k <= j ==> p in states[k].bodies && p in states[k].avatars)
    && states[i].avatars[p].lastMove > 0
    && (forall k :: i <= k < j && events[k].p == p ==>
          !events[k].Enter? && (events[k].Move? ==> states[k].avatars[p].lastMove < events[k].now))
  }

  function PaceLimit(moveSpeed: real, from: nat, to: nat, moves: nat): real {
    moveSpeed * Elapsed(from, to) + 0.35 * moves as real
  }

  /** Over such a stretch it gets no further than its speed allows in the time between its moves, and
      0.35 for each. */
  lemma {:induction false} RunKeepsPace(rules: Rules, states: seq<State>, events: seq<Event>, p: Id, i: nat, j: nat)
    requires rules.Valid() && IsRun(rules, states, events) && i <= j <= |events| && rules.stats.moveSpeed >= 0.0
    requires InTime(states, events, p, i, j)
    ensures var from, to := states[i].avatars[p].lastMove, states[j].avatars[p].lastMove;
            && 0 < from <= to
            && Within(states[i].bodies[p].pos, states[j].bodies[p].pos,
                      PaceLimit(rules.stats.moveSpeed, from, to, MovesOf(events, p, i, j)))
  {
    hide *;
    RunParts(rules, states, events);
    InTimeParts(states, events, p, i, j);
    var speed, from := rules.stats.moveSpeed, states[i].avatars[p].lastMove;
    if i < j {
      var e, mid, to := events[j - 1], states[j - 1].avatars[p].lastMove, states[j].avatars[p].lastMove;
      var a, b, c := states[i].bodies[p].pos, states[j - 1].bodies[p].pos, states[j].bodies[p].pos;
      var n := MovesOf(events, p, i, j - 1);
      RunKeepsPace(rules, states, events, p, i, j - 1);
      StepIn(rules, states, events, j - 1);
      OneMoreMove(events, p, i, j);
      StepKeepsPace(rules, states[j - 1], e, p);
      if e.Move? && e.p == p {
        PaceLimitGrows(speed, from, mid, to, n);
        WithinTriangle(a, b, c, PaceLimit(speed, from, mid, n), PaceOf(speed, mid, to));
      }
    } else {
      NoPace(states[i].bodies[p].pos, speed, from, events, p, i);
    }
  }

  lemma OneMoreMove(events: seq<Event>, p: Id, i: nat, j: nat)
    requires i < j <= |events|
    ensures MovesOf(events, p, i, j)
            == MovesOf(events, p, i, j - 1) + if events[j - 1].Move? && events[j - 1].p == p then 1 else 0
  {}

  lemma InTimeParts(states: seq<State>, events: seq<Event>, p: Id, i: nat, j: nat)
    requires i <= j <= |events| < |states| && InTime(states, events, p, i, j)
    ensures p in states[i].bodies && p in states[i].avatars && p in states[j].bodies && p in states[j].avatars
    ensures states[i].avatars[p].lastMove > 0
    ensures i < j ==> InTime(states, events, p, i, j - 1) && p in states[j - 1].bodies && p in states[j - 1].avatars
    ensures i < j && events[j - 1].p == p ==>
              !events[j - 1].Enter?
              && (events[j - 1].Move? ==> states[j - 1].avatars[p].lastMove < events[j - 1].now)
  {}

  lemma NoPace(at: Pos, speed: real, tick: nat, events: seq<Event>, p: Id, i: nat)
    requires i <= |events|
    ensures Within(at, at, PaceLimit(speed, tick, tick, MovesOf(events, p, i, i)))
  {}

  lemma PaceLimitGrows(speed: real, from: nat, mid: nat, to: nat, n: nat)
    requires speed >= 0.0 && from <= mid <= to
    ensures PaceLimit(speed, from, mid, n) >= 0.0 && PaceOf(speed, mid, to) >= 0.0
    ensures PaceLimit(speed, from, mid, n) + PaceOf(speed, mid, to) == PaceLimit(speed, from, to, n + 1)
  {
    assert Elapsed(from, mid) + Elapsed(mid, to) == Elapsed(from, to);
    assert speed * Elapsed(from, mid) + speed * Elapsed(mid, to) == speed * Elapsed(from, to);
    Grid.MulMono2(0.0, speed, 0.0, Elapsed(from, mid));
    Grid.MulMono2(0.0, speed, 0.0, Elapsed(mid, to));
  }

  lemma StepKeepsPace(rules: Rules, s: State, e: Event, p: Id)
    requires rules.Valid() && WellFormed(s) && Enabled(rules, s, e) && rules.stats.moveSpeed >= 0.0
    requires p in s.bodies && p in s.avatars && s.avatars[p].lastMove > 0
    requires p in Step(rules, s, e).bodies && p in Step(rules, s, e).avatars
    requires e.p == p ==> !e.Enter? && (e.Move? ==> s.avatars[p].lastMove < e.now)
    ensures var t := Step(rules, s, e);
            && (e.Move? && e.p == p ==>
                  && t.avatars[p].lastMove == e.now > s.avatars[p].lastMove
                  && Within(s.bodies[p].pos, t.bodies[p].pos,
                            PaceOf(rules.stats.moveSpeed, s.avatars[p].lastMove, e.now)))
            && (!(e.Move? && e.p == p) ==>
                  t.bodies[p].pos == s.bodies[p].pos && t.avatars[p].lastMove == s.avatars[p].lastMove)
  {
    hide *;
    StepMovesTick(rules, s, e, p);
    if e.Move? && e.p == p {
      MovedInPace(rules, s, e);
    } else {
      OthersStay(rules, s, e, p);
      StaysInRoom(rules, s, e, p);
      SetsNoTick(e, p);
    }
  }

  lemma MovedInPace(rules: Rules, s: State, e: Event)
    requires rules.Valid() && Enabled(rules, s, e) && e.Move? && rules.stats.moveSpeed >= 0.0
    requires e.p in s.bodies && e.p in s.avatars && e.p in Step(rules, s, e).bodies
    requires 0 < s.avatars[e.p].lastMove < e.now
    ensures Within(s.bodies[e.p].pos, Step(rules, s, e).bodies[e.p].pos,
                   PaceOf(rules.stats.moveSpeed, s.avatars[e.p].lastMove, e.now))
  {
    hide *;
    MovedTo(rules, s, e);
    RulesHaveTiles(rules);
    InPace(rules.tiles, s.bodies[e.p].pos, e.client, rules.stats.moveSpeed, s.avatars[e.p].lastMove, e.now, e.root,
           Step(rules, s, e).bodies[e.p].pos);
  }

  lemma RulesHaveTiles(rules: Rules)
    requires rules.Valid()
    ensures rules.tiles.Valid()
  {}

  lemma InPace(m: Tiles, from: Pos, client: Pos, speed: real, last: nat, now: nat, root: real, to: Pos)
    requires m.Valid() && IsRoot(root, DistSq(from, client)) && speed >= 0.0 && 0 < last < now
    requires to == ValidateClientPosition(m, from, client, speed, EffectiveDelta(last, now), root)
    ensures Within(from, to, PaceOf(speed, last, now))
  {
    MoveKeepsPace(m, from, client, speed, last, now, root);
  }

  lemma SetsNoTick(e: Event, p: Id)
    ensures SetsMoveTick(e, p) ==> e.p == p && (e.Login? || e.Enter? || e.Leave? || e.Logout? || e.Move?)
  {}

  lemma MovedTo(rules: Rules, s: State, e: Event)
    requires rules.Valid() && Enabled(rules, s, e) && e.Move?
    ensures IsRoot(e.root, DistSq(s.bodies[e.p].pos, e.client))
    ensures e.root * e.root == DistSq(s.bodies[e.p].pos, e.client)
    ensures e.p in Step(rules, s, e).bodies
    ensures Step(rules, s, e).bodies[e.p].pos ==
              ValidateClientPosition(rules.tiles, s.bodies[e.p].pos, e.client, rules.stats.moveSpeed,
                                     EffectiveDelta(s.avatars[e.p].lastMove, e.now), e.root)
  {
    hide MovePackets, ValidateClientPosition, EffectiveDelta, Listing, ListsAround;
  }

  /** Who stays in the room has neither left nor logged out, nor just logged in. */
  lemma StaysInRoom(rules: Rules, s: State, e: Event, p: Id)
    requires rules.Valid() && WellFormed(s) && Enabled(rules, s, e) && p in s.bodies && p in s.avatars
    requires p in Step(rules, s, e).bodies
    ensures e.p == p ==> !e.Leave? && !e.Logout? && !e.Login?
  {
    hide Replay, SpawnList, MovePackets, Listing, ListsAround, ValidateClientPosition;
  }
}
