/** What attacks do, in plain numbers: who can be hit, how much is left, who is told, and how many
    hits a monster takes. */
module Combat {
  import opened Wrappers
  import opened Zones
  import opened Client
  import opened World
  import opened Runs

  // ---------- One attack ----------

  /** The ticks since the last attack, as 64-bit unsigned numbers, are fewer than the cooldown. */
  predicate Waits(rules: Rules, s: State, e: Event)
    requires e.Attack? && e.p in s.avatars
  {
    (e.now - s.avatars[e.p].lastAttack) % 0x1_0000_0000_0000_0000 < rules.stats.cooldownMs
  }

  /** The monster is alive, in view and in range, and the player does damage at all. */
  predicate Reachable(rules: Rules, s: State, at: Pos, m: Id) {
    && m in s.bodies && s.bodies[m].Monster? && s.bodies[m].hp > 0 && rules.stats.attackDamage > 0
    && rules.near(at, s.bodies[m].pos) && Within(at, s.bodies[m].pos, rules.stats.attackRange)
  }

  /** What a hit leaves of some hit points. */
  function Left(rules: Rules, hp: int): int {
    if hp <= rules.stats.attackDamage then 0 else hp - rules.stats.attackDamage
  }

  /** An attack on cooldown does nothing. Any other is stamped with its tick and hits a reachable
      monster if there is one; that monster loses the damage of one attack, and leaves the room if
      nothing is left of it; nobody else changes. */
  lemma AttackMeaning(rules: Rules, s: State, e: Event)
    requires rules.Valid() && e.Attack? && Enabled(rules, s, e)
    ensures var t, at := Step(rules, s, e), s.bodies[e.p].pos;
            if Waits(rules, s, e) then t == s
            else
              && t.nextId == s.nextId && t.avatars.Keys == s.avatars.Keys
              && (forall q :: q in s.avatars ==>
                    && t.avatars[q].lastMove == s.avatars[q].lastMove
                    && t.avatars[q].lastAttack == if q == e.p then e.now else s.avatars[q].lastAttack)
              && match e.target
                 case None => t.bodies == s.bodies && forall m :: !Reachable(rules, s, at, m)
                 case Some(m) =>
                   && Reachable(rules, s, at, m)
                   && t.bodies == if s.bodies[m].hp <= rules.stats.attackDamage then s.bodies - {m}
                                  else s.bodies[m := Monster(s.bodies[m].pos, Left(rules, s.bodies[m].hp))]
  {
    hide *;
    AttackerPlays(rules, s, e);
    if Waits(rules, s, e) {
      AttackWaits(rules, s, e);
    } else {
      AttackIsStamped(rules, s, e);
      AttackHurts(rules, s, e);
    }
  }

  lemma AttackerPlays(rules: Rules, s: State, e: Event)
    requires rules.Valid() && e.Attack? && Enabled(rules, s, e)
    ensures e.p in s.avatars && e.p in s.bodies
  {}

  lemma AttackWaits(rules: Rules, s: State, e: Event)
    requires rules.Valid() && e.Attack? && Enabled(rules, s, e) && Waits(rules, s, e)
    ensures e.p in s.avatars && e.p in s.bodies && Step(rules, s, e) == s
  {}

  lemma AttackIsStamped(rules: Rules, s: State, e: Event)
    requires rules.Valid() && e.Attack? && Enabled(rules, s, e) && !Waits(rules, s, e)
    ensures var t := Step(rules, s, e);
            && e.p in s.bodies && t.nextId == s.nextId && t.avatars.Keys == s.avatars.Keys
            && forall q :: q in s.avatars ==>
                 && t.avatars[q].lastMove == s.avatars[q].lastMove
                 && t.avatars[q].lastAttack == if q == e.p then e.now else s.avatars[q].lastAttack
  {
    hide Replay, SpawnList, MovePackets, Listing, ListsAround, Hears, Struck;
  }

  lemma AttackHurts(rules: Rules, s: State, e: Event)
    requires rules.Valid() && e.Attack? && Enabled(rules, s, e) && !Waits(rules, s, e)
    ensures e.p in s.bodies
    ensures var t, at := Step(rules, s, e), s.bodies[e.p].pos;
            match e.target
            case None => t.bodies == s.bodies && forall m :: !Reachable(rules, s, at, m)
            case Some(m) =>
              && Reachable(rules, s, at, m)
              && m in s.bodies && s.bodies[m].Monster?
              && t.bodies == if s.bodies[m].hp <= rules.stats.attackDamage then s.bodies - {m}
                             else s.bodies[m := Monster(s.bodies[m].pos, Left(rules, s.bodies[m].hp))]
  {
    hide Replay, SpawnList, MovePackets, Listing, ListsAround, Hears, Broadcast;
  }

  /** What an attack sends to a client: the announcement, with the attacker, the monster hit (0 for
      none) and what is left of it, if the client's player sees the attacker; and the monster's death
      if nothing is left and the player sees where it stood. */
  function Announced(rules: Rules, s: State, e: Event, q: Id): seq<Packet>
    requires e.Attack? && e.p in s.bodies && (e.target.Some? ==> e.target.value in s.bodies)
    requires e.target.Some? ==> s.bodies[e.target.value].Monster?
  {
    if q !in s.bodies then []
    else
      var at := s.bodies[q].pos;
      match e.target
      case None => if rules.near(at, s.bodies[e.p].pos) then [AttackNotice(e.p, 0, 0)] else []
      case Some(m) =>
        var hp := Left(rules, s.bodies[m].hp);
        (if rules.near(at, s.bodies[e.p].pos) then [AttackNotice(e.p, m, hp)] else []) +
        (if hp == 0 && rules.near(at, s.bodies[m].pos) then [Die(m)] else [])
  }

  lemma AttackSends(rules: Rules, s: State, e: Event, q: Id)
    requires rules.Valid() && WellFormed(s) && e.Attack? && Enabled(rules, s, e) && q in s.avatars
    ensures Step(rules, s, e).avatars[q].log
            == s.avatars[q].log + if Waits(rules, s, e) then [] else Announced(rules, s, e, q)
  {
    assert s.avatars[q].log + [] == s.avatars[q].log;
    if e.target.Some? {
      var notice := AttackNotice(e.p, e.target.value, Left(rules, s.bodies[e.target.value].hp));
      var log, death := s.avatars[q].log, Die(e.target.value);
      assert log + [notice] + [death] == log + ([notice] + [death]);
      assert [notice] + [] == [notice] && [] + [death] == [death];
    }
  }

  // ---------- How many hits a monster takes ----------

  /** The request hits `m`. */
  ghost predicate IsHit(rules: Rules, s: State, e: Event, m: Id) {
    e.Attack? && e.p in s.avatars && !Waits(rules, s, e) && e.target == Some(m)
  }

  ghost function HitCount(rules: Rules, states: seq<State>, events: seq<Event>, m: Id, n: nat): nat
    requires n <= |events| < |states|
  {
    if n == 0 then 0
    else HitCount(rules, states, events, m, n - 1) + if IsHit(rules, states[n - 1], events[n - 1], m) then 1 else 0
  }

  /** A monster `m` that was loaded with `full` hit points after `k` hits. */
  ghost predicate Worn(rules: Rules, s: State, m: Id, full: int, k: nat) {
    var damage := rules.stats.attackDamage;
    && m !in s.avatars && m < s.nextId
    && (k > 0 ==> damage > 0 && (k - 1) * damage < full)
    && if full > 0 && full <= k * damage then m !in s.bodies
       else m in s.bodies && s.bodies[m].Monster? && s.bodies[m].hp == full - k * damage
  }

  lemma StepWears(rules: Rules, s: State, e: Event, m: Id, full: nat, k: nat)
    requires rules.Valid() && WellFormed(s) && Enabled(rules, s, e) && Worn(rules, s, m, full, k)
    ensures Worn(rules, Step(rules, s, e), m, full, if IsHit(rules, s, e, m) then k + 1 else k)
  {
    var damage := rules.stats.attackDamage;
    assert (k + 1) * damage == k * damage + damage;
    if e.Attack? {
      AttackMeaning(rules, s, e);
    } else {
      OnlyAttacksHurt(rules, s, e, m);
    }
    hide Step, Enabled, WellFormed;
  }

  lemma OnlyAttacksHurt(rules: Rules, s: State, e: Event, m: Id)
    requires rules.Valid() && WellFormed(s) && Enabled(rules, s, e) && !e.Attack? && m !in s.avatars && m < s.nextId
    ensures var t := Step(rules, s, e);
            && (m in t.bodies <==> m in s.bodies) && (m in s.bodies ==> t.bodies[m] == s.bodies[m])
            && m !in t.avatars && m < t.nextId
  {
    hide Replay, Broadcast, SpawnList, MovePackets;
  }

  /** In every run: a monster loaded with `full` hit points has lost the damage of one attack for
      each hit, down to 0, and has left the room exactly with the hit that reaches 0. */
  lemma {:induction false} RunWears(rules: Rules, states: seq<State>, events: seq<Event>, m: Id, n: nat)
    requires rules.Valid() && IsRun(rules, states, events) && n <= |events| && m in states[0].bodies
    ensures Worn(rules, states[n], m, states[0].bodies[m].hp, HitCount(rules, states, events, m, n))
  {
    if n > 0 {
      RunWears(rules, states, events, m, n - 1);
      RunKeepsInvariant(rules, states, events, n - 1);
      assert StepAt(rules, states, events, n - 1);
      hide IsRun, WellFormed, Enabled, Step, Worn, IsHit, Synced;
      var full, k := states[0].bodies[m].hp, HitCount(rules, states, events, m, n - 1);
      StepWears(rules, states[n - 1], events[n - 1], m, full, k);
    }
  }

  /** The smallest number of hits of some damage that makes up all hit points. */
  function HitsToKill(full: nat, damage: int): nat
    requires damage > 0
  {
    (full + damage - 1) / damage
  }

  lemma CeilingIsLeast(full: nat, damage: int, k: nat)
    requires damage > 0
    ensures k >= HitsToKill(full, damage) <==> full <= k * damage
  {
    var c := HitsToKill(full, damage);
    assert c * damage <= full + damage - 1 < c * damage + damage;
    if k >= c {
      Grid.IntMulMono(c, k, damage);
    } else {
      Grid.IntMulMono(k, c - 1, damage);
    }
  }

  /** So a monster loaded with `full` > 0 hit points dies with exactly its
      ceil(full / damage)-th hit, and is never hit again; one loaded with 0 is never hit at all. */
  lemma DiesAtLastHit(rules: Rules, states: seq<State>, events: seq<Event>, m: Id, n: nat)
    requires rules.Valid() && IsRun(rules, states, events) && n <= |events| && m in states[0].bodies
    requires rules.stats.attackDamage > 0
    ensures var full, k := states[0].bodies[m].hp, HitCount(rules, states, events, m, n);
            && full >= 0 && k <= HitsToKill(full, rules.stats.attackDamage)
            && (m in states[n].bodies <==> full == 0 || k < HitsToKill(full, rules.stats.attackDamage))
  {
    RunWears(rules, states, events, m, n);
    var full, k, damage := states[0].bodies[m].hp, HitCount(rules, states, events, m, n), rules.stats.attackDamage;
    hide *;
    LoadedAlive(rules, states, events, m);
    WornParts(rules, states[n], m, full, k);
    CeilingIsLeast(full, damage, k);
    if k > 0 {
      CeilingIsLeast(full, damage, k - 1);
    }
  }

  lemma LoadedAlive(rules: Rules, states: seq<State>, events: seq<Event>, m: Id)
    requires rules.Valid() && IsRun(rules, states, events) && m in states[0].bodies
    ensures states[0].bodies[m].Monster? && states[0].bodies[m].hp >= 0
  {}

  lemma WornParts(rules: Rules, s: State, m: Id, full: int, k: nat)
    requires Worn(rules, s, m, full, k)
    ensures k > 0 ==> rules.stats.attackDamage > 0 && (k - 1) * rules.stats.attackDamage < full
    ensures m in s.bodies <==> !(full > 0 && full <= k * rules.stats.attackDamage)
  {}

  // ---------- Cooldown ----------

  lemma {:induction false} LastAttackStays(rules: Rules, states: seq<State>, events: seq<Event>, p: Id, i: nat, j: nat)
    requires rules.Valid() && IsRun(rules, states, events) && i <= j <= |events|
    requires p in states[i].avatars && p in states[j].avatars
    requires forall k :: i <= k < j ==> !Strikes(rules, states[k], events[k], p)
    ensures states[j].avatars[p].lastAttack == states[i].avatars[p].lastAttack
  {
    if i < j {
      RunKeepsInvariant(rules, states, events, j - 1);
      StillThere(rules, states, events, p, i, j);
      StepMovesLastAttack(rules, states, events, p, j - 1);
      LastAttackStays(rules, states, events, p, i, j - 1);
    }
  }

  /** Who is logged in and was so once has been so all the time. */
  lemma {:induction false} StillThere(rules: Rules, states: seq<State>, events: seq<Event>, p: Id, i: nat, j: nat)
    requires rules.Valid() && IsRun(rules, states, events) && i < j <= |events|
    requires p in states[i].avatars && p in states[j].avatars
    ensures p in states[j - 1].avatars
  {
    IdsGrow(rules, states, events, p, i, j - 1);
    RunKeepsInvariant(rules, states, events, j - 1);
    StepMovesLastAttack(rules, states, events, p, j - 1);
  }

  lemma {:induction false} IdsGrow(rules: Rules, states: seq<State>, events: seq<Event>, p: Id, i: nat, j: nat)
    requires rules.Valid() && IsRun(rules, states, events) && i <= j <= |events| && p in states[i].avatars
    ensures p < states[j].nextId
  {
    if i < j {
      IdsGrow(rules, states, events, p, i, j - 1);
      RunKeepsInvariant(rules, states, events, j - 1);
      StepMovesLastAttack(rules, states, events, p, j - 1);
    } else {
      RunKeepsInvariant(rules, states, events, i);
    }
  }

  /** An attack is served exactly when the cooldown has passed since the last one that was. */
  lemma ServedExactly(rules: Rules, states: seq<State>, events: seq<Event>, p: Id, i: nat, j: nat)
    requires rules.Valid() && IsRun(rules, states, events) && i < j < |events|
    requires Strikes(rules, states[i], events[i], p)
    requires forall k :: i < k < j ==> !Strikes(rules, states[k], events[k], p)
    requires events[j].Attack? && events[j].p == p
    requires events[i].now <= events[j].now < 0x1_0000_0000_0000_0000
    ensures Strikes(rules, states[j], events[j], p) <==> events[j].now >= events[i].now + rules.stats.cooldownMs
  {
    hide *;
    RunParts(rules, states, events);
    Striker(rules, states[i], events[i], p);
    AttackerIsThere(rules, states, events, i);
    AttackerIsThere(rules, states, events, j);
    StrikeIsStamped(rules, states[i], events[i], p);
    LastAttackStays(rules, states, events, p, i + 1, j);
    StrikesByTicks(rules, states[j], events[j], p);
  }

  lemma Striker(rules: Rules, s: State, e: Event, p: Id)
    requires Strikes(rules, s, e, p)
    ensures e.Attack? && e.p == p && p in s.avatars
  {}

  lemma StrikeIsStamped(rules: Rules, s: State, e: Event, p: Id)
    requires rules.Valid() && Enabled(rules, s, e) && Strikes(rules, s, e, p)
    ensures p in Step(rules, s, e).avatars && Step(rules, s, e).avatars[p].lastAttack == e.now
  {
    AttackMeaning(rules, s, e);
    hide Step, Enabled;
  }

  lemma StrikesByTicks(rules: Rules, s: State, e: Event, p: Id)
    requires e.Attack? && e.p == p && p in s.avatars
    requires s.avatars[p].lastAttack <= e.now < 0x1_0000_0000_0000_0000
    ensures Strikes(rules, s, e, p) <==> e.now >= s.avatars[p].lastAttack + rules.stats.cooldownMs
  {
    assert TickDiff(e.now, s.avatars[p].lastAttack) == e.now - s.avatars[p].lastAttack;
    hide TickDiff;
  }

  lemma AttackerIsThere(rules: Rules, states: seq<State>, events: seq<Event>, i: nat)
    requires rules.Valid() && IsRun(rules, states, events) && i < |events| && events[i].Attack?
    ensures |states| == |events| + 1 && events[i].p in states[i].avatars
    ensures Enabled(rules, states[i], events[i]) && states[i + 1] == Step(rules, states[i], events[i])
  {
    assert StepAt(rules, states, events, i);
    hide Step;
  }

  /** The first attack after a login is served exactly when the clock has reached the cooldown. */
  lemma FirstServedExactly(rules: Rules, states: seq<State>, events: seq<Event>, p: Id, i: nat, j: nat)
    requires rules.Valid() && IsRun(rules, states, events) && i < j < |events|
    requires events[i].Login? && events[i].p == p
    requires forall k :: i < k < j ==> !Strikes(rules, states[k], events[k], p)
    requires events[j].Attack? && events[j].p == p && events[j].now < 0x1_0000_0000_0000_0000
    ensures Strikes(rules, states[j], events[j], p) <==> events[j].now >= rules.stats.cooldownMs
  {
    hide *;
    AttackerIsThere(rules, states, events, j);
    LoginIsStamped(rules, states, events, p, i);
    LastAttackStays(rules, states, events, p, i + 1, j);
    StrikesByTicks(rules, states[j], events[j], p);
  }

  lemma LoginIsStamped(rules: Rules, states: seq<State>, events: seq<Event>, p: Id, i: nat)
    requires rules.Valid() && IsRun(rules, states, events) && i < |events| && events[i].Login? && events[i].p == p
    ensures |states| == |events| + 1 && p in states[i + 1].avatars && states[i + 1].avatars[p].lastAttack == 0
  {
    assert StepAt(rules, states, events, i);
  }
}
