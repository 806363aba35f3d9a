/** Server-side validation of client positions (Room::ValidateClientPosition) and the client's
    own clamp before sending (MyPlayerObject.ClampSendPosition). */
module Movement {
  import opened Grid
  import opened Zones
  import opened MapCollisions

  const MAX_SYNC_INTERVAL_SEC := 0.15
  const MAX_ALLOWED_DELTA_SEC := 0.5
  const MOVE_TOLERANCE := 0.35
  const CHEAT_REJECT_MULTIPLIER := 2.5
  const CREATURE_COLLISION_RADIUS := 0.35

  function CalcMaxDistance(moveSpeed: real, deltaSeconds: real): real {
    moveSpeed * deltaSeconds + MOVE_TOLERANCE
  }

  function CalcCheatRejectDistance(maxDistance: real): real {
    maxDistance * CHEAT_REJECT_MULTIPLIER
  }

  /** The elapsed time a move is credited with, from millisecond ticks. A first move (tick 0)
      and a clock that did not advance count as one sync interval. */
  function EffectiveDelta(lastTick: nat, now: nat): (d: real)
    ensures 0.001 <= d <= MAX_ALLOWED_DELTA_SEC
  {
    var raw := if lastTick > 0 && now > lastTick then (now - lastTick) as real / 1000.0 else MAX_SYNC_INTERVAL_SEC;
    var capped := if raw > MAX_ALLOWED_DELTA_SEC then MAX_ALLOWED_DELTA_SEC else raw;
    if capped < 0.001 then MAX_SYNC_INTERVAL_SEC else capped
  }

  /** `root` is the value of sqrtf on the squared distance. */
  ghost predicate IsRoot(root: real, distSq: real) {
    root >= 0.0 && root * root == distSq
  }

  function PullBack(from: Pos, to: Pos, maxDistance: real, root: real): Pos
    requires root != 0.0
  {
    var ratio := maxDistance / root;
    Pos(from.x + (to.x - from.x) * ratio, from.y + (to.y - from.y) * ratio)
  }

  /** The position handed to the collision map: rejected, pulled back or taken as it is. */
  function ClampToServer(server: Pos, client: Pos, maxDistance: real, root: real): Pos
    requires root * root == DistSq(server, client)
  {
    var reject := CalcCheatRejectDistance(maxDistance);
    var distSq := DistSq(server, client);
    if distSq > reject * reject then server
    else if distSq > maxDistance * maxDistance && distSq >= 0.0001 then PullBack(server, client, maxDistance, root)
    else client
  }

  ghost function ValidateClientPosition(m: Tiles, server: Pos, client: Pos, moveSpeed: real, delta: real, root: real)
    : Pos
    requires m.Valid() && root * root == DistSq(server, client)
  {
    m.ResolveMove(server, ClampToServer(server, client, CalcMaxDistance(moveSpeed, delta), root),
                  CREATURE_COLLISION_RADIUS)
  }

  // ---------- What validation means, from ticks and coordinates ----------

  /** The seconds that a move is credited with: the time since the last one, but at most half a
      second; a first move, and one without any time since the last, count as 0.15 s. */
  ghost predicate Credited(lastTick: nat, now: nat, seconds: real) {
    if 0 < lastTick < now then seconds * 1000.0 == (if now - lastTick <= 500 then now - lastTick else 500) as real
    else seconds == 0.15
  }

  lemma DeltaIsCredited(lastTick: nat, now: nat)
    ensures Credited(lastTick, now, EffectiveDelta(lastTick, now))
  {}

  /** Strictly between two points. */
  ghost predicate OnSegment(a: Pos, b: Pos, p: Pos) {
    exists t: real :: 0.0 < t < 1.0 && PartWay(a, b, t, p)
  }

  predicate PartWay(a: Pos, b: Pos, t: real, p: Pos) {
    p == Pos(a.x + (b.x - a.x) * t, a.y + (b.y - a.y) * t)
  }

  /** Where a request to `client` is taken to aim at: a near position is taken as it is, a far one is
      pulled back along the line to exactly the limit, one beyond two and a half times the limit is
      refused. */
  ghost predicate Target(server: Pos, client: Pos, limit: real, target: Pos) {
    && (Within(server, client, limit) ==> target == client)
    && (!Within(server, client, 2.5 * limit) ==> target == server)
    && (!Within(server, client, limit) && Within(server, client, 2.5 * limit) ==>
          OnSegment(server, client, target) && DistSq(server, target) == limit * limit)
  }

  /** ... and where it leads: without a map nobody moves. */
  ghost predicate LandsAt(m: Tiles, from: Pos, target: Pos, out: Pos) {
    if m.width > 0 && m.height > 0 then Resolved(m, from, target, 0.35, out) else out == from
  }

  lemma ValidateMeaning(m: Tiles, server: Pos, client: Pos, moveSpeed: real, lastTick: nat, now: nat, root: real)
    returns (seconds: real, target: Pos)
    requires m.Valid() && IsRoot(root, DistSq(server, client)) && moveSpeed >= 0.0
    ensures Credited(lastTick, now, seconds) && Target(server, client, moveSpeed * seconds + 0.35, target)
    ensures LandsAt(m, server, target,
                    ValidateClientPosition(m, server, client, moveSpeed, EffectiveDelta(lastTick, now), root))
  {
    hide *;
    DeltaIsCredited(lastTick, now);
    seconds := EffectiveDelta(lastTick, now);
    var limit := CalcMaxDistance(moveSpeed, seconds);
    LimitIs(moveSpeed, seconds, server, client, root);
    target := ClampToServer(server, client, limit, root);
    ClampMeaning(server, client, limit, root);
    ValidateLands(m, server, client, moveSpeed, seconds, root);
  }

  lemma LimitIs(moveSpeed: real, seconds: real, server: Pos, client: Pos, root: real)
    requires moveSpeed >= 0.0 && seconds >= 0.0 && IsRoot(root, DistSq(server, client))
    ensures CalcMaxDistance(moveSpeed, seconds) == moveSpeed * seconds + 0.35 >= MOVE_TOLERANCE
    ensures root * root == DistSq(server, client)
  {
    MulMono2(0.0, moveSpeed, 0.0, seconds);
  }

  lemma ValidateLands(m: Tiles, server: Pos, client: Pos, moveSpeed: real, delta: real, root: real)
    requires m.Valid() && root * root == DistSq(server, client)
    ensures var target := ClampToServer(server, client, CalcMaxDistance(moveSpeed, delta), root);
            LandsAt(m, server, target, ValidateClientPosition(m, server, client, moveSpeed, delta, root))
  {
    ResolveMoveMeaning(m, server, ClampToServer(server, client, CalcMaxDistance(moveSpeed, delta), root), 0.35);
    hide Resolved, ClampToServer, Tiles.ResolveMove;
  }

  /** Room::ValidateClientPosition, step by step. */
  method Validate(map_: MapCollision, server: Pos, client: Pos, moveSpeed: real,
                  lastTick: nat, now: nat, root: real) returns (out: Pos)
    requires map_.Valid() && IsRoot(root, DistSq(server, client))
    ensures out == ValidateClientPosition(map_.View(), server, client, moveSpeed, EffectiveDelta(lastTick, now), root)
    ensures moveSpeed >= 0.0 ==> exists seconds, target ::
              && Credited(lastTick, now, seconds) && Target(server, client, moveSpeed * seconds + 0.35, target)
              && LandsAt(map_.View(), server, target, out)
  {
    if moveSpeed >= 0.0 {
      var seconds, target := ValidateMeaning(map_.View(), server, client, moveSpeed, lastTick, now, root);
    }
    hide Credited, Target, LandsAt;
    var deltaSeconds := MAX_SYNC_INTERVAL_SEC;
    if lastTick > 0 && now > lastTick {
      deltaSeconds := (now - lastTick) as real / 1000.0;
    }
    if deltaSeconds > MAX_ALLOWED_DELTA_SEC {
      deltaSeconds := MAX_ALLOWED_DELTA_SEC;
    }
    if deltaSeconds < 0.001 {
      deltaSeconds := MAX_SYNC_INTERVAL_SEC;
    }
    var clamped := ClampToServer(server, client, CalcMaxDistance(moveSpeed, deltaSeconds), root);
    out := map_.ResolveMove(server, clamped, CREATURE_COLLISION_RADIUS);
  }

  lemma PullBackDistance(from: Pos, to: Pos, maxDistance: real, root: real)
    requires root != 0.0 && root * root == DistSq(from, to)
    ensures DistSq(from, PullBack(from, to, maxDistance, root)) == maxDistance * maxDistance
  {
    var dx, dy, ratio := to.x - from.x, to.y - from.y, maxDistance / root;
    assert ratio * root == maxDistance;
    ScaleSquare(dx, ratio);
    ScaleSquare(dy, ratio);
    ScaleSquare(root, ratio);
    assert Square(dx) + Square(dy) == Square(root);
    var p := PullBack(from, to, maxDistance, root);
    assert p.x - from.x == dx * ratio && p.y - from.y == dy * ratio;
    assert Square(dx) * Square(ratio) + Square(dy) * Square(ratio) == Square(root) * Square(ratio);
  }

  lemma ScaleSquare(a: real, b: real)
    ensures Square(a * b) == Square(a) * Square(b)
  {}

  /** The clamp never yields more than the credited distance, whatever the client sent. */
  lemma ClampWithinDistance(server: Pos, client: Pos, maxDistance: real, root: real)
    requires root * root == DistSq(server, client) && maxDistance >= MOVE_TOLERANCE
    ensures Within(server, ClampToServer(server, client, maxDistance, root), maxDistance)
  {
    SquareMono(MOVE_TOLERANCE, maxDistance);
    if DistSq(server, client) > maxDistance * maxDistance {
      PullBackDistance(server, client, maxDistance, root);
    }
  }

  /** What the clamp does with a client position, by its distance alone. */
  lemma ClampMeaning(server: Pos, client: Pos, maxDistance: real, root: real)
    requires IsRoot(root, DistSq(server, client)) && maxDistance >= MOVE_TOLERANCE
    ensures Target(server, client, maxDistance, ClampToServer(server, client, maxDistance, root))
  {
    SquareMono(maxDistance, CalcCheatRejectDistance(maxDistance));
    SquareMono(MOVE_TOLERANCE, maxDistance);
    if !Within(server, client, maxDistance) && Within(server, client, CalcCheatRejectDistance(maxDistance)) {
      SquareMono(0.0, maxDistance);
      PulledBack(server, client, maxDistance, root);
    }
    hide OnSegment, PullBack;
  }

  /** Pulling back a far position leads to the point of the line at exactly that distance. */
  lemma PulledBack(from: Pos, to: Pos, maxDistance: real, root: real)
    requires IsRoot(root, DistSq(from, to)) && maxDistance > 0.0 && !Within(from, to, maxDistance)
    ensures root != 0.0
    ensures var p := PullBack(from, to, maxDistance, root);
            OnSegment(from, to, p) && DistSq(from, p) == maxDistance * maxDistance
  {
    RatioBelowOne(maxDistance, root);
    PullBackDistance(from, to, maxDistance, root);
    assert PartWay(from, to, maxDistance / root, PullBack(from, to, maxDistance, root));
  }

  lemma RatioBelowOne(a: real, b: real)
    requires 0.0 < a && 0.0 <= b && a * a < b * b
    ensures b > 0.0 && 0.0 < a / b < 1.0
  {
    if b <= a {
      SquareMono(b, a);
    } else {
      QuotientBelow(a, b, 1.0);
      QuotientBelow(a, b, 0.0);
      assert (a / b) * b == a;
    }
  }

  /** A client position beyond two and a half times the credited distance moves nobody. */
  lemma TeleportIsRejected(m: Tiles, server: Pos, client: Pos, moveSpeed: real, delta: real, root: real)
    requires m.Valid() && root * root == DistSq(server, client)
    requires !Within(server, client, CalcCheatRejectDistance(CalcMaxDistance(moveSpeed, delta)))
    ensures ValidateClientPosition(m, server, client, moveSpeed, delta, root) == server
  {
    assert Pos(server.x, server.y) == server;
  }

  /** One accepted move ends within moveSpeed * delta + 0.35 of the previous server position. */
  lemma MoveWithinDistance(m: Tiles, server: Pos, client: Pos, moveSpeed: real, delta: real, root: real)
    requires m.Valid() && root * root == DistSq(server, client) && moveSpeed >= 0.0 && delta >= 0.0
    ensures Within(server, ValidateClientPosition(m, server, client, moveSpeed, delta, root),
                   CalcMaxDistance(moveSpeed, delta))
  {
    MulMono2(0.0, moveSpeed, 0.0, delta);
    var limit := CalcMaxDistance(moveSpeed, delta);
    ClampWithinDistance(server, client, limit, root);
    ResolveMoveNoFurther(m, server, ClampToServer(server, client, limit, root), CREATURE_COLLISION_RADIUS);
  }

  /** A move that is not faster than the player, give or take 0.35, to a free position is answered
      with itself: for moves up to half a second apart, for longer pauses, and for a first move or one
      without any time since the last. */
  lemma HonestMoveIsKept(m: Tiles, server: Pos, client: Pos, moveSpeed: real, lastTick: nat, now: nat, root: real,
                         seconds: real)
    requires m.Valid() && m.IsLoaded() && IsRoot(root, DistSq(server, client)) && moveSpeed >= 0.0
    requires 0 < lastTick < now <= lastTick + 500 ==> seconds == (now - lastTick) as real / 1000.0
    requires 0 < lastTick && lastTick + 500 < now ==> seconds == 0.5
    requires !(0 < lastTick < now) ==> seconds == 0.15
    requires Within(server, client, moveSpeed * seconds + 0.35) && Free(m, client, 0.35)
    ensures ValidateClientPosition(m, server, client, moveSpeed, EffectiveDelta(lastTick, now), root) == client
  {
    var out := ValidateClientPosition(m, server, client, moveSpeed, EffectiveDelta(lastTick, now), root);
    hide *;
    var credited, target := ValidateMeaning(m, server, client, moveSpeed, lastTick, now, root);
    SecondsAre(lastTick, now, credited);
    NearAndFree(m, server, client, moveSpeed, credited, seconds, target, out);
  }

  lemma SecondsAre(lastTick: nat, now: nat, seconds: real)
    requires Credited(lastTick, now, seconds)
    ensures 0 < lastTick < now <= lastTick + 500 ==> seconds == (now - lastTick) as real / 1000.0
    ensures 0 < lastTick && lastTick + 500 < now ==> seconds == 0.5
    ensures !(0 < lastTick < now) ==> seconds == 0.15
  {}

  lemma NearAndFree(m: Tiles, server: Pos, client: Pos, moveSpeed: real, seconds: real, time: real, target: Pos,
                    out: Pos)
    requires m.IsLoaded() && seconds == time
    requires Target(server, client, moveSpeed * seconds + 0.35, target) && LandsAt(m, server, target, out)
    ensures Within(server, client, moveSpeed * time + 0.35) && Free(m, client, 0.35) ==> out == client
  {
    TakenIfNear(server, client, moveSpeed * seconds + 0.35, moveSpeed * time + 0.35, target);
    hide Free, Within, Target;
  }

  lemma TakenIfNear(server: Pos, client: Pos, limit: real, same: real, target: Pos)
    requires limit == same && Target(server, client, limit, target)
    ensures Within(server, client, same) ==> target == client
  {
    hide Within, OnSegment;
  }

  // ---------- Distances add up along a run ----------

  lemma WithinGrows(a: Pos, b: Pos, d: real, e: real)
    requires 0.0 <= d <= e && Within(a, b, d)
    ensures Within(a, b, e)
  {
    SquareMono(d, e);
  }

  lemma CreditMonotone(moveSpeed: real, delta: real, longer: real)
    requires 0.0 <= moveSpeed && 0.0 <= delta <= longer
    ensures MOVE_TOLERANCE <= CalcMaxDistance(moveSpeed, delta) <= CalcMaxDistance(moveSpeed, longer)
  {
    MulMono2(0.0, moveSpeed, 0.0, delta);
    MulMono2(moveSpeed, moveSpeed, delta, longer);
  }

  /** The triangle inequality, without square roots. */
  lemma WithinTriangle(a: Pos, b: Pos, c: Pos, d: real, e: real)
    requires 0.0 <= d && 0.0 <= e && Within(a, b, d) && Within(b, c, e)
    ensures Within(a, c, d + e)
  {
    var px, py, qx, qy := b.x - a.x, b.y - a.y, c.x - b.x, c.y - b.y;
    DotBound(px, py, qx, qy, d, e);
    var dot := px * qx + py * qy;
    assert c.x - a.x == px + qx && c.y - a.y == py + qy;
    SquareOfSum(px, qx);
    SquareOfSum(py, qy);
    SquareOfSum(d, e);
    assert DistSq(a, c) == DistSq(a, b) + DistSq(b, c) + 2.0 * dot;
    assert (d + e) * (d + e) == d * d + e * e + 2.0 * (d * e);
  }

  lemma SquareOfSum(a: real, b: real)
    ensures Square(a + b) == Square(a) + Square(b) + 2.0 * (a * b)
  {}

  /** Cauchy-Schwarz in the plane. */
  lemma DotBound(px: real, py: real, qx: real, qy: real, d: real, e: real)
    requires 0.0 <= d && 0.0 <= e
    requires Square(px) + Square(py) <= d * d && Square(qx) + Square(qy) <= e * e
    ensures px * qx + py * qy <= d * e
  {
    var dot, cross := px * qx + py * qy, px * qy - py * qx;
    Lagrange(px, py, qx, qy);
    SquareNonNegative(cross);
    SquareNonNegative(px); SquareNonNegative(py); SquareNonNegative(qx); SquareNonNegative(qy);
    MulMono2(Square(px) + Square(py), d * d, Square(qx) + Square(qy), e * e);
    assert (d * d) * (e * e) == Square(d * e) by { ScaleSquare(d, e); }
    MulMono2(0.0, d, 0.0, e);
    SquareReflects(dot, d * e);
  }

  lemma Lagrange(px: real, py: real, qx: real, qy: real)
    ensures Square(px * qx + py * qy) + Square(px * qy - py * qx)
            == (Square(px) + Square(py)) * (Square(qx) + Square(qy))
  {
    SquareOfSum(px * qx, py * qy);
    SquareOfSum(px * qy, -(py * qx));
    ScaleSquare(px, qx); ScaleSquare(py, qy); ScaleSquare(px, qy); ScaleSquare(py, qx);
    assert (px * qx) * (py * qy) == (px * qy) * (py * qx);
    assert Square(-(py * qx)) == Square(py * qx);
    assert (px * qy) * (-(py * qx)) == -((px * qy) * (py * qx));
  }

  /** A run of moves: each position is the validated answer to some client input. */
  ghost predicate IsMoveStep(m: Tiles, moveSpeed: real, from: Pos, to: Pos)
    requires m.Valid()
  {
    exists client: Pos, delta: real, root: real ::
      && 0.001 <= delta <= MAX_ALLOWED_DELTA_SEC && IsRoot(root, DistSq(from, client))
      && to == ValidateClientPosition(m, from, client, moveSpeed, delta, root)
  }

  ghost predicate IsMoveRun(m: Tiles, moveSpeed: real, positions: seq<Pos>)
    requires m.Valid()
  {
    forall i :: 0 <= i < |positions| - 1 ==> IsMoveStep(m, moveSpeed, positions[i], positions[i + 1])
  }

  function RunLimit(moveSpeed: real, n: nat): real {
    n as real * (0.5 * moveSpeed + 0.35)
  }

  lemma RunLimitStep(moveSpeed: real, n: nat)
    requires moveSpeed >= 0.0 && n > 0
    ensures RunLimit(moveSpeed, n) == RunLimit(moveSpeed, n - 1) + CalcMaxDistance(moveSpeed, MAX_ALLOWED_DELTA_SEC)
    ensures RunLimit(moveSpeed, n - 1) >= 0.0 && CalcMaxDistance(moveSpeed, MAX_ALLOWED_DELTA_SEC) >= 0.0
  {
    MulMono2(0.0, (n - 1) as real, 0.0, 0.5 * moveSpeed + 0.35);
  }

  /** n moves displace a player by at most n * (0.5 * moveSpeed + 0.35). */
  lemma {:induction false} RunDisplacement(m: Tiles, moveSpeed: real, positions: seq<Pos>)
    requires m.Valid() && moveSpeed >= 0.0 && |positions| > 0 && IsMoveRun(m, moveSpeed, positions)
    ensures Within(positions[0], positions[|positions| - 1], RunLimit(moveSpeed, |positions| - 1))
  {
    var n, step := |positions| - 1, CalcMaxDistance(moveSpeed, MAX_ALLOWED_DELTA_SEC);
    if n > 0 {
      var before := positions[..n];
      RunDisplacement(m, moveSpeed, before);
      assert IsMoveStep(m, moveSpeed, positions[n - 1], positions[n - 1 + 1]);
      StepDistance(m, moveSpeed, positions[n - 1], positions[n]);
      RunLimitStep(moveSpeed, n);
      WithinTriangle(positions[0], positions[n - 1], positions[n], RunLimit(moveSpeed, n - 1), step);
    } else {
      assert positions[0] == positions[n];
    }
  }

  lemma StepDistance(m: Tiles, moveSpeed: real, from: Pos, to: Pos)
    requires m.Valid() && moveSpeed >= 0.0 && IsMoveStep(m, moveSpeed, from, to)
    ensures Within(from, to, CalcMaxDistance(moveSpeed, MAX_ALLOWED_DELTA_SEC))
  {
    var client: Pos, delta: real, root: real :|
      && 0.001 <= delta <= MAX_ALLOWED_DELTA_SEC && IsRoot(root, DistSq(from, client))
      && to == ValidateClientPosition(m, from, client, moveSpeed, delta, root);
    MoveWithinDistance(m, from, client, moveSpeed, delta, root);
    CreditMonotone(moveSpeed, delta, MAX_ALLOWED_DELTA_SEC);
    WithinGrows(from, to, CalcMaxDistance(moveSpeed, delta), CalcMaxDistance(moveSpeed, MAX_ALLOWED_DELTA_SEC));
  }

  /** If the first position is free for a creature, every position of the run is. */
  lemma {:induction false} RunStaysWalkable(m: Tiles, moveSpeed: real, positions: seq<Pos>, i: nat)
    requires m.Valid() && i < |positions| && IsMoveRun(m, moveSpeed, positions)
    requires m.IsWalkableWithRadius(positions[0], CREATURE_COLLISION_RADIUS)
    ensures m.IsWalkableWithRadius(positions[i], CREATURE_COLLISION_RADIUS)
  {
    if i > 0 {
      RunStaysWalkable(m, moveSpeed, positions, i - 1);
      assert IsMoveStep(m, moveSpeed, positions[i - 1], positions[i - 1 + 1]);
    }
  }

  // ---------- Agreement with the client ----------

  function ClampClient(server: Pos, p: Pos, maxDistance: real, root: real): Pos
    requires root * root == DistSq(server, p)
  {
    var distSq := DistSq(server, p);
    if distSq > maxDistance * maxDistance && distSq > 0.0001 then PullBack(server, p, maxDistance, root) else p
  }

  function ClientMaxDistance(moveSpeed: real, syncInterval: real): real {
    CalcMaxDistance(moveSpeed, syncInterval + MAX_SYNC_INTERVAL_SEC)
  }

  /** What the client sends for a local position `p`, with a loaded map and a known server position. */
  ghost function ClampSendPosition(m: Tiles, server: Pos, p: Pos, moveSpeed: real, root: real): Pos
    requires m.Valid() && root * root == DistSq(server, p)
  {
    m.ResolveMove(server, ClampClient(server, p, ClientMaxDistance(moveSpeed, MAX_SYNC_INTERVAL_SEC), root),
                  CREATURE_COLLISION_RADIUS)
  }

  /** What the client aims at: a near position, or the point of the line to a far one at exactly the
      limit. */
  ghost predicate SendTarget(server: Pos, p: Pos, limit: real, target: Pos) {
    && (Within(server, p, limit) ==> target == p)
    && (!Within(server, p, limit) ==> OnSegment(server, p, target) && DistSq(server, target) == limit * limit)
  }

  /** ... and what it sends: without a map, the target itself. */
  ghost predicate SentFor(m: Tiles, server: Pos, target: Pos, out: Pos) {
    if m.width > 0 && m.height > 0 then Resolved(m, server, target, 0.35, out) else out == target
  }

  lemma ClampClientMeaning(server: Pos, p: Pos, moveSpeed: real, root: real)
    requires IsRoot(root, DistSq(server, p)) && moveSpeed >= 0.0
    ensures var limit := ClientMaxDistance(moveSpeed, MAX_SYNC_INTERVAL_SEC);
            limit == moveSpeed * 0.3 + 0.35 && SendTarget(server, p, limit, ClampClient(server, p, limit, root))
  {
    var limit := ClientMaxDistance(moveSpeed, MAX_SYNC_INTERVAL_SEC);
    MulMono2(0.0, moveSpeed, 0.0, 0.3);
    SquareMono(MOVE_TOLERANCE, limit);
    if !Within(server, p, limit) {
      PulledBack(server, p, limit, root);
    }
    hide OnSegment, PullBack;
  }

  /** The `ref` parameters as an in- and an out-position. */
  method ClampSend(map_: MapCollision, hasServerPos: bool, server: Pos, p: Pos, moveSpeed: real, root: real)
    returns (out: Pos)
    requires map_.Valid() && IsRoot(root, DistSq(server, p))
    ensures hasServerPos && map_.View().IsLoaded() ==> out == ClampSendPosition(map_.View(), server, p, moveSpeed, root)
    ensures hasServerPos && !map_.View().IsLoaded() ==>
              out == ClampClient(server, p, ClientMaxDistance(moveSpeed, MAX_SYNC_INTERVAL_SEC), root)
    ensures !hasServerPos ==> out == p
    ensures hasServerPos && moveSpeed >= 0.0 ==> exists target ::
              SendTarget(server, p, moveSpeed * 0.3 + 0.35, target) && SentFor(map_.View(), server, target, out)
  {
    out := p;
    if !hasServerPos {
      return;
    }
    if moveSpeed >= 0.0 {
      ClampClientMeaning(server, p, moveSpeed, root);
    }
    hide SendTarget, Resolved, ClampClient, ClientMaxDistance;
    out := ClampClient(server, p, ClientMaxDistance(moveSpeed, MAX_SYNC_INTERVAL_SEC), root);
    ghost var target := out;
    if map_.width > 0 && map_.height > 0 {
      out := map_.ResolveMove(server, out, CREATURE_COLLISION_RADIUS);
    }
    assert SentFor(map_.View(), server, target, out);
  }

  lemma ClampClientWithin(server: Pos, p: Pos, maxDistance: real, root: real)
    requires root * root == DistSq(server, p) && maxDistance >= MOVE_TOLERANCE
    ensures Within(server, ClampClient(server, p, maxDistance, root), maxDistance)
  {
    SquareMono(MOVE_TOLERANCE, maxDistance);
    if DistSq(server, p) > maxDistance * maxDistance {
      PullBackDistance(server, p, maxDistance, root);
    }
  }

  /** A client position within the credited distance passes the server's clamp unchanged. */
  lemma ClampKeepsNear(server: Pos, client: Pos, maxDistance: real, root: real)
    requires root * root == DistSq(server, client) && maxDistance >= 0.0 && Within(server, client, maxDistance)
    ensures ClampToServer(server, client, maxDistance, root) == client
  {
    SquareMono(maxDistance, CalcCheatRejectDistance(maxDistance));
  }

  lemma ClampSendWithinDistance(m: Tiles, server: Pos, p: Pos, moveSpeed: real, root: real)
    requires m.Valid() && root * root == DistSq(server, p) && moveSpeed >= 0.0
    ensures Within(server, ClampSendPosition(m, server, p, moveSpeed, root),
                   ClientMaxDistance(moveSpeed, MAX_SYNC_INTERVAL_SEC))
  {
    var limit := ClientMaxDistance(moveSpeed, MAX_SYNC_INTERVAL_SEC);
    CreditMonotone(moveSpeed, 0.0, MAX_SYNC_INTERVAL_SEC + MAX_SYNC_INTERVAL_SEC);
    ClampClientWithin(server, p, limit, root);
    ResolveMoveNoFurther(m, server, ClampClient(server, p, limit, root), CREATURE_COLLISION_RADIUS);
  }

  /** With at least 0.3 s credited, or for who cannot move at all, the server answers a clamped
      position with itself. */
  lemma ServerKeepsClampedPosition(m: Tiles, server: Pos, p: Pos, moveSpeed: real, root: real, delta: real,
                                   serverRoot: real)
    requires m.Valid() && root * root == DistSq(server, p) && moveSpeed >= 0.0 && (delta >= 0.3 || moveSpeed == 0.0)
    requires serverRoot * serverRoot == DistSq(server, ClampSendPosition(m, server, p, moveSpeed, root))
    ensures var sent := ClampSendPosition(m, server, p, moveSpeed, root);
            ValidateClientPosition(m, server, sent, moveSpeed, delta, serverRoot) == sent
  {
    ClampSendWithinDistance(m, server, p, moveSpeed, root);
    var sent, limit := ClampSendPosition(m, server, p, moveSpeed, root), CalcMaxDistance(moveSpeed, delta);
    if delta >= 0.3 {
      CreditMonotone(moveSpeed, 0.3, delta);
    }
    WithinGrows(server, sent, ClientMaxDistance(moveSpeed, MAX_SYNC_INTERVAL_SEC), limit);
    ClampKeepsNear(server, sent, limit, serverRoot);
    ResolveMoveIdempotent(m, server, ClampClient(server, p, ClientMaxDistance(moveSpeed, MAX_SYNC_INTERVAL_SEC), root),
                          CREATURE_COLLISION_RADIUS);
  }

  /** With at least 0.12 s credited, a clamped position is never taken for a teleport. */
  lemma ClampedPositionIsNoTeleport(m: Tiles, server: Pos, p: Pos, moveSpeed: real, root: real, delta: real)
    requires m.Valid() && root * root == DistSq(server, p) && moveSpeed >= 0.0 && delta >= 0.12
    ensures Within(server, ClampSendPosition(m, server, p, moveSpeed, root),
                   CalcCheatRejectDistance(CalcMaxDistance(moveSpeed, delta)))
  {
    ClampSendWithinDistance(m, server, p, moveSpeed, root);
    CreditMonotone(moveSpeed, 0.12, delta);
    WithinGrows(server, ClampSendPosition(m, server, p, moveSpeed, root),
                ClientMaxDistance(moveSpeed, MAX_SYNC_INTERVAL_SEC),
                CalcCheatRejectDistance(CalcMaxDistance(moveSpeed, delta)));
  }

  /** A map with one open tile, large enough for a step of length `d` to the right. */
  function OpenField(d: real): Tiles { Tiles(Pos(0.0, 0.0), d + 2.0, 1, 1, [false]) }

  /** The bound of 0.3 s is sharp: with any shorter credit and a positive speed, some position
      that the client's clamp lets through is changed by the server. A first move after
      entering (tick 0) is credited only 0.15 s, so it is such a case. */
  lemma ShortCreditDisagrees(moveSpeed: real, delta: real)
    requires moveSpeed > 0.0 && 0.001 <= delta < 0.3
    ensures var d := ClientMaxDistance(moveSpeed, MAX_SYNC_INTERVAL_SEC);
            var m, server, p := OpenField(d), Pos(1.0, 1.0), Pos(1.0 + d, 1.0);
            && d > 0.0 && m.Valid() && IsRoot(d, DistSq(server, p))
            && ClampSendPosition(m, server, p, moveSpeed, d) == p
            && ValidateClientPosition(m, server, p, moveSpeed, delta, d) != p
    ensures forall now :: EffectiveDelta(0, now) == 0.15
  {
    var d, limit := ClientMaxDistance(moveSpeed, MAX_SYNC_INTERVAL_SEC), CalcMaxDistance(moveSpeed, delta);
    var m, server, p := OpenField(d), Pos(1.0, 1.0), Pos(1.0 + d, 1.0);
    CreditMonotone(moveSpeed, delta, 0.3);
    MulStrict(delta, 0.3, moveSpeed);
    assert limit < d;
    assert DistSq(server, p) == d * d;
    OpenFieldIsFree(d, p);
    MoveWithinDistance(m, server, p, moveSpeed, delta, d);
    SquareStrict(limit, d);
  }

  /** The server answers what the client's clamp makes of `p` with itself. */
  ghost predicate Keeps(m: Tiles, server: Pos, p: Pos, moveSpeed: real, delta: real, root: real, serverRoot: real)
    requires m.Valid() && root * root == DistSq(server, p)
  {
    var sent := ClampSendPosition(m, server, p, moveSpeed, root);
    IsRoot(serverRoot, DistSq(server, sent)) ==>
      ValidateClientPosition(m, server, sent, moveSpeed, delta, serverRoot) == sent
  }

  ghost predicate SidesAgree(moveSpeed: real, delta: real) {
    forall m: Tiles, server: Pos, p: Pos, root: real, serverRoot: real ::
      m.Valid() && IsRoot(root, DistSq(server, p)) ==> Keeps(m, server, p, moveSpeed, delta, root, serverRoot)
  }

  /** Client and server agree on every map and every position exactly when at least 0.3 s are
      credited or the player cannot move. */
  lemma SidesAgreeExactly(moveSpeed: real, delta: real)
    requires moveSpeed >= 0.0 && delta >= 0.001
    ensures SidesAgree(moveSpeed, delta) <==> delta >= 0.3 || moveSpeed == 0.0
  {
    if delta >= 0.3 || moveSpeed == 0.0 {
      forall m: Tiles, server: Pos, p: Pos, root: real, serverRoot: real | m.Valid() && IsRoot(root, DistSq(server, p))
        ensures Keeps(m, server, p, moveSpeed, delta, root, serverRoot)
      {
        if IsRoot(serverRoot, DistSq(server, ClampSendPosition(m, server, p, moveSpeed, root))) {
          ServerKeepsClampedPosition(m, server, p, moveSpeed, root, delta, serverRoot);
        }
      }
    } else {
      ShortCreditDisagrees(moveSpeed, delta);
      var d := ClientMaxDistance(moveSpeed, MAX_SYNC_INTERVAL_SEC);
      assert !Keeps(OpenField(d), Pos(1.0, 1.0), Pos(1.0 + d, 1.0), moveSpeed, delta, d, d);
    }
  }

  /** In ticks: exactly when the server has taken a move at least 300 ms before, or the player cannot
      move. */
  lemma SidesAgreeOverTicks(moveSpeed: real, lastTick: nat, now: nat)
    requires moveSpeed >= 0.0
    ensures SidesAgree(moveSpeed, EffectiveDelta(lastTick, now)) <==>
              (0 < lastTick && lastTick + 300 <= now) || moveSpeed == 0.0
  {
    DeltaIsCredited(lastTick, now);
    SidesAgreeExactly(moveSpeed, EffectiveDelta(lastTick, now));
    hide SidesAgree, EffectiveDelta;
  }

  /** No position that the client's clamp lets through is taken for a teleport. */
  ghost predicate NeverTeleport(moveSpeed: real, delta: real) {
    forall m: Tiles, server: Pos, p: Pos, root: real :: m.Valid() && IsRoot(root, DistSq(server, p)) ==>
      Within(server, ClampSendPosition(m, server, p, moveSpeed, root),
             CalcCheatRejectDistance(CalcMaxDistance(moveSpeed, delta)))
  }

  /** ... exactly when what is sent in 0.3 s does not exceed what is refused. */
  lemma NeverTeleportExactly(moveSpeed: real, delta: real)
    requires moveSpeed >= 0.0 && delta >= 0.0
    ensures NeverTeleport(moveSpeed, delta) <==> moveSpeed * 0.3 + 0.35 <= 2.5 * (moveSpeed * delta + 0.35)
  {
    var sent := ClientMaxDistance(moveSpeed, MAX_SYNC_INTERVAL_SEC);
    var refused := CalcCheatRejectDistance(CalcMaxDistance(moveSpeed, delta));
    MulMono2(0.0, moveSpeed, 0.0, delta);
    MulMono2(0.0, moveSpeed, 0.0, 0.3);
    if sent <= refused {
      forall m: Tiles, server: Pos, p: Pos, root: real | m.Valid() && IsRoot(root, DistSq(server, p))
        ensures Within(server, ClampSendPosition(m, server, p, moveSpeed, root), refused)
      {
        ClampSendWithinDistance(m, server, p, moveSpeed, root);
        WithinGrows(server, ClampSendPosition(m, server, p, moveSpeed, root), sent, refused);
      }
    } else {
      var m, server, p := OpenField(sent), Pos(1.0, 1.0), Pos(1.0 + sent, 1.0);
      assert DistSq(server, p) == sent * sent;
      OpenFieldIsFree(sent, p);
      SquareStrict(refused, sent);
      assert ClampSendPosition(m, server, p, moveSpeed, sent) == p;
    }
  }

  /** With 0.12 s credited no speed is too high for it, and with less some speed is. */
  lemma NoSpeedTeleportsExactly(delta: real)
    requires delta >= 0.0
    ensures (forall moveSpeed: real :: moveSpeed >= 0.0 ==> NeverTeleport(moveSpeed, delta)) <==> delta >= 0.12
  {
    if delta >= 0.12 {
      forall moveSpeed: real | moveSpeed >= 0.0 ensures NeverTeleport(moveSpeed, delta) {
        MulMono2(moveSpeed, moveSpeed, 0.12, delta);
        NeverTeleportExactly(moveSpeed, delta);
      }
    } else {
      var fast := FastEnough(delta);
      NeverTeleportExactly(fast, delta);
      hide NeverTeleport;
      assert !NeverTeleport(fast, delta);
    }
  }

  lemma FastEnough(delta: real) returns (fast: real)
    requires 0.0 <= delta < 0.12
    ensures fast >= 0.0 && fast * 0.3 + 0.35 > 2.5 * (fast * delta + 0.35)
  {
    var short := 0.12 - delta;
    fast := 1.0 / short;
    assert fast * short == 1.0;
    assert fast * delta == fast * 0.12 - 1.0;
  }

  // ---------- Speed and time ----------

  /** The seconds that have passed since a tick. */
  function Elapsed(lastTick: nat, now: nat): real {
    if lastTick < now then (now - lastTick) as real / 1000.0 else 0.0
  }

  /** How far the speed takes in the time since a tick, give or take 0.35. */
  function PaceOf(moveSpeed: real, lastTick: nat, now: nat): real { moveSpeed * Elapsed(lastTick, now) + 0.35 }

  /** Whatever the client sends, it gets no further than its speed allows in the time since the last
      move, give or take 0.35. */
  ghost predicate KeepsPace(moveSpeed: real, lastTick: nat, now: nat) {
    forall m: Tiles, server: Pos, client: Pos, root: real :: m.Valid() && IsRoot(root, DistSq(server, client)) ==>
      Within(server, ValidateClientPosition(m, server, client, moveSpeed, EffectiveDelta(lastTick, now), root),
             PaceOf(moveSpeed, lastTick, now))
  }

  lemma MoveKeepsPace(m: Tiles, server: Pos, client: Pos, moveSpeed: real, lastTick: nat, now: nat, root: real)
    requires m.Valid() && IsRoot(root, DistSq(server, client)) && moveSpeed >= 0.0
    requires moveSpeed == 0.0 || 0 < lastTick < now || lastTick + 150 <= now
    ensures Within(server, ValidateClientPosition(m, server, client, moveSpeed, EffectiveDelta(lastTick, now), root),
                   PaceOf(moveSpeed, lastTick, now))
  {
    var delta, elapsed := EffectiveDelta(lastTick, now), Elapsed(lastTick, now);
    MoveWithinDistance(m, server, client, moveSpeed, delta, root);
    if moveSpeed != 0.0 {
      CreditMonotone(moveSpeed, delta, elapsed);
      hide ValidateClientPosition, Within, EffectiveDelta, Elapsed;
      WithinGrows(server, ValidateClientPosition(m, server, client, moveSpeed, delta, root),
                  CalcMaxDistance(moveSpeed, delta), CalcMaxDistance(moveSpeed, elapsed));
    }
  }

  /** That holds exactly for a move some time after an earlier one, 150 ms after tick 0, or of a player
      that cannot move: a move in the same millisecond as the one before is credited 0.15 s again. */
  lemma KeepsPaceExactly(moveSpeed: real, lastTick: nat, now: nat)
    requires moveSpeed >= 0.0
    ensures KeepsPace(moveSpeed, lastTick, now) <==>
              moveSpeed == 0.0 || 0 < lastTick < now || lastTick + 150 <= now
  {
    if moveSpeed == 0.0 || 0 < lastTick < now || lastTick + 150 <= now {
      forall m: Tiles, server: Pos, client: Pos, root: real | m.Valid() && IsRoot(root, DistSq(server, client))
        ensures Within(server,
                       ValidateClientPosition(m, server, client, moveSpeed, EffectiveDelta(lastTick, now), root),
                       PaceOf(moveSpeed, lastTick, now))
      {
        MoveKeepsPace(m, server, client, moveSpeed, lastTick, now, root);
      }
    } else {
      NoTimeHasPassed(moveSpeed, lastTick, now);
    }
  }

  lemma NoTimeHasPassed(moveSpeed: real, lastTick: nat, now: nat)
    requires moveSpeed > 0.0 && !(0 < lastTick < now) && now < lastTick + 150
    ensures !KeepsPace(moveSpeed, lastTick, now)
  {
    var limit := PaceOf(moveSpeed, lastTick, now);
    DeltaIsCredited(lastTick, now);
    SecondsAre(lastTick, now, EffectiveDelta(lastTick, now));
    assert 0.0 <= Elapsed(lastTick, now) < 0.15;
    LimitBelow(moveSpeed, Elapsed(lastTick, now), 0.15);
    OpenFieldStep(moveSpeed, 0.15, limit);
    hide EffectiveDelta, Elapsed, PaceOf, ValidateClientPosition, OpenField, Within, IsRoot, CalcMaxDistance;
  }

  lemma LimitBelow(moveSpeed: real, less: real, delta: real)
    requires moveSpeed > 0.0 && 0.0 <= less < delta
    ensures 0.0 <= moveSpeed * less + 0.35 < CalcMaxDistance(moveSpeed, delta)
  {
    MulStrict(less, delta, moveSpeed);
    MulMono2(0.0, moveSpeed, 0.0, less);
  }

  /** On an open field the whole credit can be used. */
  lemma OpenFieldStep(moveSpeed: real, delta: real, limit: real)
    requires moveSpeed >= 0.0 && delta >= 0.0 && 0.0 <= limit < CalcMaxDistance(moveSpeed, delta)
    ensures var d := CalcMaxDistance(moveSpeed, delta);
            var m, server, p := OpenField(d), Pos(1.0, 1.0), Pos(1.0 + d, 1.0);
            && m.Valid() && IsRoot(d, DistSq(server, p))
            && !Within(server, ValidateClientPosition(m, server, p, moveSpeed, delta, d), limit)
  {
    var d := CalcMaxDistance(moveSpeed, delta);
    var m, server, p := OpenField(d), Pos(1.0, 1.0), Pos(1.0 + d, 1.0);
    assert DistSq(server, p) == d * d;
    OpenFieldIsFree(d, p);
    ClampKeepsNear(server, p, d, d);
    SquareStrict(limit, d);
  }

  lemma OpenFieldIsFree(d: real, p: Pos)
    requires d > 0.0 && OpenField(d).SquareInClosedMap(p, CREATURE_COLLISION_RADIUS)
    ensures OpenField(d).IsWalkableWithRadius(p, CREATURE_COLLISION_RADIUS)
  {
    var m := OpenField(d);
    forall q: Pos | m.InHalfOpenMap(q) ensures m.IsWalkable(q) {
      InMapIffTileInRange(m, q);
    }
    WalkableWithRadiusMeaning(m, p, CREATURE_COLLISION_RADIUS);
  }
}
