/**
 * The bible item: a cooldown-gated interaction that heals or harms its
 * target, and a one-shot summon offered through an alternative verb and an
 * item action.
 *
 * Engine queries (reach, mob state, bible-user status, head slot, tags,
 * action blocker, transform resolution) and the random fail roll are inputs.
 * What the handlers would send to engine sinks (cooldown refresh event,
 * popups, damage changes, spawning, action removal) is appended to a ghost
 * log of effects.
 */
module Bible {
  import opened Common

  // ------------------------------------------------------------------
  // Effects
  // ------------------------------------------------------------------

  type ActionId = nat

  /** Which of the bible's damage specifiers is applied. */
  datatype DamageSpec = DamageOnUntrainedUse | DamageOnFail | Damage

  /** Message keys of the popups (the localisation prefix is not modelled). */
  datatype Message =
    | BibleSizzle
    | HealFailOthers | HealFailSelf
    | HealSuccessOthers | HealSuccessSelf

  /** Who sees a popup: the entity alone, or everyone in view of it but itself. */
  datatype Audience = OnlyEntity(entity: EntityId) | NearbyExcept(entity: EntityId)

  datatype Effect =
    | CooldownRefreshed(start: Tick, end: Tick)
    | Popup(message: Message, audience: Audience)
    | Damaged(entity: EntityId, spec: DamageSpec)
    | Spawned(prototype: string, at: EntityId)
    | ActionRemoved(user: EntityId, action: ActionId)

  /** The damage changes of a log, in order. */
  function Damages(log: seq<Effect>): (d: seq<Effect>)
    ensures forall e :: e in d <==> e in log && e.Damaged?
    ensures |d| <= |log|
  {
    if log == [] then []
    else
      assert forall e :: e in log <==> e == log[0] || e in log[1..];
      (if log[0].Damaged? then [log[0]] else []) + Damages(log[1..])
  }

  /** Number of spawns in a log. */
  function SpawnCount(log: seq<Effect>): nat
  {
    if log == [] then 0
    else (if log[0].Spawned? then 1 else 0) + SpawnCount(log[1..])
  }

  lemma {:induction false} SpawnCountConcat(xs: seq<Effect>, ys: seq<Effect>)
    ensures SpawnCount(xs + ys) == SpawnCount(xs) + SpawnCount(ys)
  {
    if xs != [] {
      assert (xs + ys)[0] == xs[0];
      assert (xs + ys)[1..] == xs[1..] + ys;
      SpawnCountConcat(xs[1..], ys);
    } else {
      assert xs + ys == ys;
    }
  }

  // ------------------------------------------------------------------
  // Interaction: cooldown gate and outcome
  // ------------------------------------------------------------------

  /**
   * One AfterInteract event on the bible, together with the engine's
   * answers to the queries the handler makes about it. `now` is the
   * current game time; `failRolled` is the outcome of the fail-chance roll.
   */
  datatype Attempt = Attempt(
    user: EntityId,
    target: Option<EntityId>,
    canReach: bool,
    now: Tick,
    targetHasMobState: bool,
    userIsBibleUser: bool,
    targetHasHeadItem: bool,
    targetIsFamiliar: bool,
    failRolled: bool)

  /** The mutually exclusive results of an attempt. */
  datatype Outcome = Ignored | Sizzled | HealFailed | Healed

  /** The last use and the end of the cooldown window of one bible. */
  datatype Timers = Timers(lastAttackTime: Tick, cooldownEnd: Tick)

  /** The target exists, is not the user and has a mob state. */
  predicate TargetValid(a: Attempt)
  {
    a.target.Some? && a.target.value != a.user && a.targetHasMobState
  }

  /** The attempt passes every silent guard and consumes the cooldown. */
  predicate Proceeds(cooldownEnd: Tick, a: Attempt)
  {
    a.canReach && !(a.now < cooldownEnd) && TargetValid(a)
  }

  /** The fail chance is rolled only for a bare-headed target that is not a familiar. */
  predicate RollConsulted(a: Attempt)
  {
    !a.targetHasHeadItem && !a.targetIsFamiliar
  }

  /** The outcome the handler selects, given the cooldown end before the attempt. */
  function Decide(cooldownEnd: Tick, a: Attempt): Outcome
  {
    if !Proceeds(cooldownEnd, a) then Ignored
    else if !a.userIsBibleUser then Sizzled
    else if RollConsulted(a) && a.failRolled then HealFailed
    else Healed
  }

  /** The timers after the attempt. */
  function Advance(t: Timers, cooldownTime: int, a: Attempt): Timers
  {
    if Proceeds(t.cooldownEnd, a) then Timers(a.now, a.now + cooldownTime) else t
  }

  /** What the handler sends to the engine for the attempt, in order. */
  function Effects(cooldownTime: int, cooldownEnd: Tick, a: Attempt): seq<Effect>
  {
    match Decide(cooldownEnd, a)
    case Ignored => []
    case Sizzled =>
      [ CooldownRefreshed(a.now, a.now + cooldownTime),
        Popup(BibleSizzle, OnlyEntity(a.user)),
        Damaged(a.user, DamageOnUntrainedUse) ]
    case HealFailed =>
      [ CooldownRefreshed(a.now, a.now + cooldownTime),
        Popup(HealFailOthers, NearbyExcept(a.user)),
        Popup(HealFailSelf, OnlyEntity(a.user)),
        Damaged(a.target.value, DamageOnFail) ]
    case Healed =>
      [ CooldownRefreshed(a.now, a.now + cooldownTime),
        Popup(HealSuccessOthers, NearbyExcept(a.user)),
        Popup(HealSuccessSelf, OnlyEntity(a.user)),
        Damaged(a.target.value, Damage) ]
  }

  /** The timers after a sequence of attempts, applied in order. */
  function Replay(t: Timers, cooldownTime: int, attempts: seq<Attempt>): Timers
    decreases |attempts|
  {
    if attempts == [] then t
    else Replay(Advance(t, cooldownTime, attempts[0]), cooldownTime, attempts[1..])
  }

  /** The bible component: cooldown configuration and its timers. */
  class BibleComponent {
    /** Length of the cooldown, in ticks. */
    const CooldownTime: int
    var LastAttackTime: Tick
    var CooldownEnd: Tick
    /** Everything the handler has sent to the engine so far. */
    ghost var Log: seq<Effect>

    constructor (cooldownTime: int)
      ensures CooldownTime == cooldownTime
      ensures LastAttackTime == 0 && CooldownEnd == 0 && Log == []
    {
      CooldownTime := cooldownTime;
      LastAttackTime, CooldownEnd := 0, 0;
      Log := [];
    }

    function Clock(): Timers
      reads this
    {
      Timers(LastAttackTime, CooldownEnd)
    }

    /**
     * The AfterInteract handler. The cooldown is checked before the target
     * is validated but consumed only once the target is valid, and it is
     * consumed on the untrained-user path too.
     */
    method OnAfterInteract(a: Attempt) returns (outcome: Outcome)
      modifies this
      ensures outcome == Decide(old(CooldownEnd), a)
      ensures Clock() == Advance(old(Clock()), CooldownTime, a)
      ensures outcome == Ignored ==> LastAttackTime == old(LastAttackTime) && CooldownEnd == old(CooldownEnd)
      ensures outcome != Ignored ==> LastAttackTime == a.now && CooldownEnd == a.now + CooldownTime
      ensures Log == old(Log) + Effects(CooldownTime, old(CooldownEnd), a)
    {
      if !a.canReach {
        return Ignored;
      }
      var currentTime := a.now;
      if currentTime < CooldownEnd {
        return Ignored;
      }
      if a.target.None? || a.target.value == a.user || !a.targetHasMobState {
        return Ignored;
      }
      var target := a.target.value;

      LastAttackTime := currentTime;
      CooldownEnd := LastAttackTime + CooldownTime;
      Log := Log + [CooldownRefreshed(LastAttackTime, CooldownEnd)];

      if !a.userIsBibleUser {
        Log := Log + [Popup(BibleSizzle, OnlyEntity(a.user)), Damaged(a.user, DamageOnUntrainedUse)];
        return Sizzled;
      }

      if !a.targetHasHeadItem && !a.targetIsFamiliar {
        if a.failRolled {
          Log := Log + [ Popup(HealFailOthers, NearbyExcept(a.user)),
                         Popup(HealFailSelf, OnlyEntity(a.user)),
                         Damaged(target, DamageOnFail) ];
          return HealFailed;
        }
      }

      Log := Log + [ Popup(HealSuccessOthers, NearbyExcept(a.user)),
                     Popup(HealSuccessSelf, OnlyEntity(a.user)),
                     Damaged(target, Damage) ];
      outcome := Healed;
    }
  }

  // ------------------------------------------------------------------
  // Properties of the interaction
  // ------------------------------------------------------------------

  /** An unreachable, cooling-down or badly targeted attempt changes nothing. */
  lemma GatedAttemptChangesNothing(t: Timers, cooldownTime: int, a: Attempt)
    requires !a.canReach || a.now < t.cooldownEnd || a.target.None?
             || a.target == Some(a.user) || !a.targetHasMobState
    ensures Decide(t.cooldownEnd, a) == Ignored
    ensures Advance(t, cooldownTime, a) == t
    ensures Effects(cooldownTime, t.cooldownEnd, a) == []
  {
  }

  /**
   * An attempt that passes the guards consumes the cooldown, whoever the
   * user is, and announces the new window; with a non-negative cooldown the
   * window then ends no earlier than the last attack.
   */
  lemma ProceedingAttemptConsumesCooldown(t: Timers, cooldownTime: int, a: Attempt)
    requires a.canReach && a.now >= t.cooldownEnd && a.target.Some?
             && a.target.value != a.user && a.targetHasMobState
    ensures Decide(t.cooldownEnd, a) != Ignored
    ensures Advance(t, cooldownTime, a) == Timers(a.now, a.now + cooldownTime)
    ensures Effects(cooldownTime, t.cooldownEnd, a)[0] == CooldownRefreshed(a.now, a.now + cooldownTime)
    ensures cooldownTime >= 0 ==> Advance(t, cooldownTime, a).lastAttackTime <= Advance(t, cooldownTime, a).cooldownEnd
  {
  }

  /** Once an attempt proceeds, no attempt earlier than the end of its window proceeds. */
  lemma OneAttemptPerWindow(t: Timers, cooldownTime: int, first: Attempt, second: Attempt)
    requires Proceeds(t.cooldownEnd, first)
    requires second.now < first.now + cooldownTime
    ensures Decide(Advance(t, cooldownTime, first).cooldownEnd, second) == Ignored
    ensures Advance(Advance(t, cooldownTime, first), cooldownTime, second) == Advance(t, cooldownTime, first)
  {
  }

  /**
   * An untrained user harms only themself: the sole damage goes to the user,
   * every popup is shown to the user alone, and no heal branch runs.
   */
  lemma UntrainedUserHarmsOnlyThemself(t: Timers, cooldownTime: int, a: Attempt)
    requires Proceeds(t.cooldownEnd, a) && !a.userIsBibleUser
    ensures Decide(t.cooldownEnd, a) == Sizzled
    ensures Damages(Effects(cooldownTime, t.cooldownEnd, a)) == [Damaged(a.user, DamageOnUntrainedUse)]
    ensures forall e :: e in Effects(cooldownTime, t.cooldownEnd, a) && e.Popup? ==> e.audience == OnlyEntity(a.user)
    ensures Advance(t, cooldownTime, a) == Timers(a.now, a.now + cooldownTime)
  {
    var log := Effects(cooldownTime, t.cooldownEnd, a);
    assert Damages(log[2..]) == [log[2]] by {
      assert log[2..][1..] == [];
    }
    assert Damages(log[1..]) == Damages(log[2..]) by {
      assert log[1..][1..] == log[2..];
    }
  }

  /**
   * The fail roll matters only for a bare-headed target without the
   * Familiar tag; otherwise a trained user's attempt always succeeds.
   */
  lemma FailRollOnlyForUnprotectedTargets(cooldownEnd: Tick, a: Attempt)
    requires a.targetHasHeadItem || a.targetIsFamiliar
    ensures Decide(cooldownEnd, a) == Decide(cooldownEnd, a.(failRolled := !a.failRolled))
    ensures Proceeds(cooldownEnd, a) && a.userIsBibleUser ==> Decide(cooldownEnd, a) == Healed
  {
  }

  /**
   * A trained user's proceeding attempt applies exactly one damage
   * specifier, to the target: the fail damage when the roll was consulted
   * and failed, the regular damage otherwise.
   */
  lemma TrainedAttemptDamagesTargetOnce(t: Timers, cooldownTime: int, a: Attempt)
    requires Proceeds(t.cooldownEnd, a) && a.userIsBibleUser
    ensures Damages(Effects(cooldownTime, t.cooldownEnd, a))
         == [Damaged(a.target.value, if RollConsulted(a) && a.failRolled then DamageOnFail else Damage)]
    ensures Decide(t.cooldownEnd, a) == if RollConsulted(a) && a.failRolled then HealFailed else Healed
  {
    var log := Effects(cooldownTime, t.cooldownEnd, a);
    assert Damages(log[3..]) == [log[3]] by {
      assert log[3..][1..] == [];
    }
    assert Damages(log[2..]) == Damages(log[3..]) by {
      assert log[2..][1..] == log[3..];
    }
    assert Damages(log[1..]) == Damages(log[2..]) by {
      assert log[1..][1..] == log[2..];
    }
  }

  lemma {:induction false} ReplayConcat(t: Timers, cooldownTime: int, xs: seq<Attempt>, ys: seq<Attempt>)
    ensures Replay(t, cooldownTime, xs + ys) == Replay(Replay(t, cooldownTime, xs), cooldownTime, ys)
    decreases |xs|
  {
    if xs != [] {
      assert (xs + ys)[0] == xs[0];
      assert (xs + ys)[1..] == xs[1..] + ys;
      ReplayConcat(Advance(t, cooldownTime, xs[0]), cooldownTime, xs[1..], ys);
    } else {
      assert xs + ys == ys;
    }
  }

  /** With a non-negative cooldown, no sequence of attempts moves the cooldown end back. */
  lemma {:induction false} CooldownEndNeverDecreases(t: Timers, cooldownTime: int, attempts: seq<Attempt>)
    requires cooldownTime >= 0
    ensures Replay(t, cooldownTime, attempts).cooldownEnd >= t.cooldownEnd
    decreases |attempts|
  {
    if attempts != [] {
      CooldownEndNeverDecreases(Advance(t, cooldownTime, attempts[0]), cooldownTime, attempts[1..]);
    }
  }

  /** Along any run, the cooldown end after a prefix is at most that after a longer prefix. */
  lemma CooldownEndMonotoneAlongRun(t: Timers, cooldownTime: int, attempts: seq<Attempt>, i: nat, j: nat)
    requires cooldownTime >= 0 && i <= j <= |attempts|
    ensures Replay(t, cooldownTime, attempts[..i]).cooldownEnd <= Replay(t, cooldownTime, attempts[..j]).cooldownEnd
  {
    assert attempts[..j] == attempts[..i] + attempts[i..j];
    ReplayConcat(t, cooldownTime, attempts[..i], attempts[i..j]);
    CooldownEndNeverDecreases(Replay(t, cooldownTime, attempts[..i]), cooldownTime, attempts[i..j]);
  }

  /** With a non-negative cooldown, the window never ends before the last attack. */
  lemma {:induction false} CooldownCoversLastAttack(t: Timers, cooldownTime: int, attempts: seq<Attempt>)
    requires cooldownTime >= 0 && t.lastAttackTime <= t.cooldownEnd
    ensures Replay(t, cooldownTime, attempts).lastAttackTime <= Replay(t, cooldownTime, attempts).cooldownEnd
    decreases |attempts|
  {
    if attempts != [] {
      CooldownCoversLastAttack(Advance(t, cooldownTime, attempts[0]), cooldownTime, attempts[1..]);
    }
  }

  // ------------------------------------------------------------------
  // One-shot summon
  // ------------------------------------------------------------------

  /** The summonable component's configuration. */
  datatype SummonConfig = SummonConfig(
    specialItemPrototype: Option<string>,
    requiresBibleUser: bool,
    summonAction: ActionId)

  /** A summon request from either surface, with the engine's answers. */
  datatype SummonRequest = SummonRequest(
    user: EntityId,
    userIsBibleUser: bool,
    positionResolves: bool,
    ownerDeleted: bool,
    userCanInteract: bool)

  /** What the verb query knows about the user. */
  datatype VerbQuery = VerbQuery(
    user: EntityId,
    canInteract: bool,
    canAccess: bool,
    userIsBibleUser: bool)

  /** An alternative verb offered in the context menu. */
  datatype Verb = Verb(text: string, priority: int)

  const SummonVerb: Verb := Verb("bible-summon-verb", 2)

  /** Every guard of the summon holds. */
  predicate SummonAllowed(cfg: SummonConfig, alreadySummoned: bool, r: SummonRequest)
  {
    && !alreadySummoned
    && cfg.specialItemPrototype.Some?
    && (cfg.requiresBibleUser ==> r.userIsBibleUser)
    && r.positionResolves
    && !r.ownerDeleted
    && r.userCanInteract
  }

  /** What a summon attempt sends to the engine. */
  function SummonEffects(cfg: SummonConfig, alreadySummoned: bool, r: SummonRequest): seq<Effect>
  {
    if SummonAllowed(cfg, alreadySummoned, r)
    then [Spawned(cfg.specialItemPrototype.value, r.user), ActionRemoved(r.user, cfg.summonAction)]
    else []
  }

  /** The summon verb is offered to this user. */
  predicate VerbOffered(cfg: SummonConfig, alreadySummoned: bool, q: VerbQuery)
  {
    && q.canInteract && q.canAccess
    && !alreadySummoned
    && cfg.specialItemPrototype.Some?
    && (cfg.requiresBibleUser ==> q.userIsBibleUser)
  }

  class SummonableComponent {
    const SpecialItemPrototype: Option<string>
    const RequiresBibleUser: bool
    const SummonAction: ActionId
    var AlreadySummoned: bool
    /** Everything the summon has sent to the engine so far. */
    ghost var Log: seq<Effect>

    constructor (prototype: Option<string>, requiresBibleUser: bool, summonAction: ActionId)
      ensures SpecialItemPrototype == prototype && RequiresBibleUser == requiresBibleUser
      ensures SummonAction == summonAction
      ensures !AlreadySummoned && Log == []
    {
      SpecialItemPrototype := prototype;
      RequiresBibleUser := requiresBibleUser;
      SummonAction := summonAction;
      AlreadySummoned := false;
      Log := [];
    }

    function Config(): SummonConfig
    {
      SummonConfig(SpecialItemPrototype, RequiresBibleUser, SummonAction)
    }

    /** Appends the summon verb to the offered verbs when it may be used. */
    method AddSummonVerb(q: VerbQuery, verbs: seq<Verb>) returns (result: seq<Verb>)
      ensures VerbOffered(Config(), AlreadySummoned, q) ==> result == verbs + [SummonVerb]
      ensures !VerbOffered(Config(), AlreadySummoned, q) ==> result == verbs
    {
      result := verbs;
      if !q.canInteract || !q.canAccess || AlreadySummoned || SpecialItemPrototype.None? {
        return;
      }
      if RequiresBibleUser && !q.userIsBibleUser {
        return;
      }
      result := result + [SummonVerb];
    }

    /** The verb's action: summon at the user's position. */
    method ActSummonVerb(r: SummonRequest) returns (spawned: bool)
      modifies this
      ensures spawned == SummonAllowed(Config(), old(AlreadySummoned), r)
      ensures AlreadySummoned == (old(AlreadySummoned) || spawned)
      ensures Log == old(Log) + SummonEffects(Config(), old(AlreadySummoned), r)
    {
      spawned := AttemptSummon(r);
    }

    /** Grants the summon action while the summon is unused. */
    method GetSummonAction(actions: seq<ActionId>) returns (result: seq<ActionId>)
      ensures AlreadySummoned ==> result == actions
      ensures !AlreadySummoned ==> result == actions + [SummonAction]
    {
      result := actions;
      if AlreadySummoned {
        return;
      }
      result := result + [SummonAction];
    }

    /** The summon action was performed. */
    method OnSummon(r: SummonRequest) returns (spawned: bool)
      modifies this
      ensures spawned == SummonAllowed(Config(), old(AlreadySummoned), r)
      ensures AlreadySummoned == (old(AlreadySummoned) || spawned)
      ensures Log == old(Log) + SummonEffects(Config(), old(AlreadySummoned), r)
    {
      spawned := AttemptSummon(r);
    }

    /** The guarded summon both surfaces funnel into. */
    method AttemptSummon(r: SummonRequest) returns (spawned: bool)
      modifies this
      ensures spawned == SummonAllowed(Config(), old(AlreadySummoned), r)
      ensures AlreadySummoned == (old(AlreadySummoned) || spawned)
      ensures Log == old(Log) + SummonEffects(Config(), old(AlreadySummoned), r)
    {
      spawned := false;
      if AlreadySummoned || SpecialItemPrototype.None? {
        return;
      }
      if RequiresBibleUser && !r.userIsBibleUser {
        return;
      }
      if !r.positionResolves {
        return;
      }
      if r.ownerDeleted {
        return;
      }
      if !r.userCanInteract {
        return;
      }
      Log := Log + [Spawned(SpecialItemPrototype.value, r.user)];
      AlreadySummoned := true;
      Log := Log + [ActionRemoved(r.user, SummonAction)];
      spawned := true;
    }
  }

  // ------------------------------------------------------------------
  // Properties of the summon
  // ------------------------------------------------------------------

  /** The two surfaces through which a summon can be triggered. */
  datatype Surface = ViaVerb | ViaAction

  datatype Trigger = Trigger(surface: Surface, request: SummonRequest)

  datatype SummonTrace = SummonTrace(summoned: bool, log: seq<Effect>)

  /** The flag and the effects after a sequence of triggers from either surface. */
  function SummonRun(cfg: SummonConfig, summoned: bool, triggers: seq<Trigger>): SummonTrace
    decreases |triggers|
  {
    if triggers == [] then SummonTrace(summoned, [])
    else
      var r := triggers[0].request;
      var rest := SummonRun(cfg, summoned || SummonAllowed(cfg, summoned, r), triggers[1..]);
      SummonTrace(rest.summoned, SummonEffects(cfg, summoned, r) + rest.log)
  }

  /**
   * A summon attempt is a no-op unless every guard holds; when they do it
   * spawns once and removes the action.
   */
  lemma SummonGuard(cfg: SummonConfig, alreadySummoned: bool, r: SummonRequest)
    ensures !SummonAllowed(cfg, alreadySummoned, r) ==> SummonEffects(cfg, alreadySummoned, r) == []
    ensures SummonAllowed(cfg, alreadySummoned, r) <==>
              !alreadySummoned && cfg.specialItemPrototype.Some? && (cfg.requiresBibleUser ==> r.userIsBibleUser)
              && r.positionResolves && !r.ownerDeleted && r.userCanInteract
    ensures SummonAllowed(cfg, alreadySummoned, r) ==>
              SpawnCount(SummonEffects(cfg, alreadySummoned, r)) == 1
              && ActionRemoved(r.user, cfg.summonAction) in SummonEffects(cfg, alreadySummoned, r)
  {
    var log := SummonEffects(cfg, alreadySummoned, r);
    if SummonAllowed(cfg, alreadySummoned, r) {
      assert SpawnCount(log[1..]) == 0 by {
        assert log[1..][1..] == [];
      }
    }
  }

  /** After the summon, neither surface is offered and a late trigger does nothing. */
  lemma SummonedOffersNothing(cfg: SummonConfig, q: VerbQuery, r: SummonRequest)
    ensures !VerbOffered(cfg, true, q)
    ensures !SummonAllowed(cfg, true, r) && SummonEffects(cfg, true, r) == []
  {
  }

  /**
   * Across any interleaving of verb and action triggers, the flag is never
   * reset and at most one spawn happens (none if already summoned); the
   * flag ends set exactly when it started set or a spawn happened.
   */
  lemma {:induction false} AtMostOneSpawn(cfg: SummonConfig, summoned: bool, triggers: seq<Trigger>)
    ensures summoned ==> SummonRun(cfg, summoned, triggers).summoned
    ensures SpawnCount(SummonRun(cfg, summoned, triggers).log) <= if summoned then 0 else 1
    ensures SummonRun(cfg, summoned, triggers).summoned
        <==> summoned || SpawnCount(SummonRun(cfg, summoned, triggers).log) == 1
    decreases |triggers|
  {
    if triggers != [] {
      var r := triggers[0].request;
      var next := summoned || SummonAllowed(cfg, summoned, r);
      AtMostOneSpawn(cfg, next, triggers[1..]);
      SpawnCountConcat(SummonEffects(cfg, summoned, r), SummonRun(cfg, next, triggers[1..]).log);
    }
  }
}
