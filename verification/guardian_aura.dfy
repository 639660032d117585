/** The guardian-aura health swap: after an attack hits a defender, every
    other standing contender that carries the aura, fights on the
    defender's side against the attacker, and protects a defender under
    the aura condition is offered a reaction; a guardian who accepts takes
    the hit's damage in the defender's place.

    The model keeps the decisions the patch makes before any host call has
    effect: which contenders are visited and in which order, which of them
    qualify as guardian, when the swap is abandoned, and which damage form
    supplies the damage type. The host's health arithmetic, the reaction
    queue and the presentation are not modelled; the player's answer to
    each reaction prompt is an input. */
module GuardianAura {
  import opened Wrappers
  import opened Filtering

  /** Identity of a combat unit; two host objects are the same unit exactly
      when their identities are equal. */
  type UnitId = nat

  /** The side a unit fights on. */
  datatype Side = Ally | Enemy | Neutral

  /** The rules-level character behind a unit, reduced to what the aura
      reads: whether it is down, and whether it carries the aura user
      marker or the aura condition marker among its sub-features. */
  datatype RulesetCharacter = RulesetCharacter(
    deadOrDyingOrUnconscious: bool,
    hasUserMarker: bool,
    hasConditionMarker: bool)

  /** A unit on the battle map; its rules-level character may be missing. */
  datatype Unit = Unit(id: UnitId, side: Side, ruleset: Option<RulesetCharacter>)

  /** A battle and its contenders, in the host's order. */
  datatype Battle = Battle(contenders: seq<Unit>)

  /** The battle manager, which may have no battle in progress. */
  datatype BattleManager = BattleManager(battle: Option<Battle>)

  /** A damage form; only its damage type matters to the swap. */
  datatype DamageForm = DamageForm(damageType: string)

  /** The attacker's attack mode, reduced to the first damage form of its
      effect description (absent when the description has none). */
  datatype AttackMode = AttackMode(firstDamageForm: Option<DamageForm>)

  /** The ruleset effect behind the hit (a spell or power), reduced the
      same way. */
  datatype RulesetEffect = RulesetEffect(firstDamageForm: Option<DamageForm>)

  /** Everything the swap decision reads about the hit. */
  datatype Hit = Hit(
    attacker: Unit,
    defender: Unit,
    attackMode: Option<AttackMode>,
    effect: Option<RulesetEffect>,
    damageAmount: int)

  /** Why a visited contender does not swap. */
  datatype SkipReason = NotGuardian | DefenderDown | NoDamage | NotValidated

  /** What happens for one visited contender: nothing, or a swap in which
      the defender is restored by `amount` and the guardian sustains
      `amount` damage of type `damageType`. */
  datatype Verdict = Skip(reason: SkipReason) | Swap(amount: int, damageType: string)

  /** A null dereference that aborts the handler: a contender without a
      rules-level character while filtering, or a swap with no damage form
      to take the damage type from. */
  datatype Fault = NullRulesetCharacter | NullDamageForm(guardian: Unit)

  /** One visited contender and its verdict. */
  datatype Step = Step(guardian: Unit, verdict: Verdict)

  /** The visited contenders in order and, if the handler aborted, why. */
  datatype Outcome = Outcome(steps: seq<Step>, fault: Option<Fault>)

  /** The host's side opposition: allies and enemies oppose each other. */
  predicate IsOppositeSide(a: Side, b: Side)
  {
    (a == Ally && b == Enemy) || (a == Enemy && b == Ally)
  }

  /** The unit's rules-level character carries the aura user marker; a
      missing character counts as not carrying it. */
  predicate HasUserMarker(u: Unit)
  {
    u.ruleset.Some? && u.ruleset.value.hasUserMarker
  }

  /** The unit's rules-level character carries the aura condition marker; a
      missing character counts as not carrying it. */
  predicate HasConditionMarker(u: Unit)
  {
    u.ruleset.Some? && u.ruleset.value.hasConditionMarker
  }

  /** The unit has a rules-level character that is not dead, dying or
      unconscious. */
  predicate IsStanding(u: Unit)
  {
    u.ruleset.Some? && !u.ruleset.value.deadOrDyingOrUnconscious
  }

  /** Every contender has a rules-level character. */
  predicate AllHaveRuleset(contenders: seq<Unit>)
  {
    forall i :: 0 <= i < |contenders| ==> contenders[i].ruleset.Some?
  }

  /** The guardian test: the unit opposes the attacker, shares the
      defender's side, is not the defender, carries the user marker, and
      the defender carries the condition marker. */
  predicate IsGuardianFor(unit: Unit, attacker: Unit, defender: Unit)
  {
    && IsOppositeSide(attacker.side, unit.side)
    && defender.side == unit.side
    && unit.id != defender.id
    && HasUserMarker(unit)
    && HasConditionMarker(defender)
  }

  /** The unit is offered the reaction: it is a guardian for this hit, the
      defender is still standing and the hit did some damage. */
  predicate WouldPrompt(unit: Unit, hit: Hit)
  {
    && IsGuardianFor(unit, hit.attacker, hit.defender)
    && IsStanding(hit.defender)
    && hit.damageAmount != 0
  }

  /** The damage form whose type the guardian sustains. The attack mode's
      form is taken first and the effect's form then overwrites it, so the
      effect takes precedence even when its own form is absent. */
  function DamageFormOf(attackMode: Option<AttackMode>, effect: Option<RulesetEffect>): (r: Option<DamageForm>)
    ensures effect.Some? ==> r == effect.value.firstDamageForm
    ensures effect.None? && attackMode.Some? ==> r == attackMode.value.firstDamageForm
    ensures r.Some? ==>
              (effect.Some? && r == effect.value.firstDamageForm)
              || (attackMode.Some? && r == attackMode.value.firstDamageForm)
  {
    var fromAttack := if attackMode.Some? then attackMode.value.firstDamageForm else None;
    if effect.Some? then effect.value.firstDamageForm else fromAttack
  }

  /** The verdict was reached after the reaction prompt was issued. */
  predicate ReactionRequested(r: Result<Verdict, Fault>)
  {
    r.Failure? || r.value.Swap? || r.value == Skip(NotValidated)
  }

  /** The decision for one visited contender, given whether its reaction
      was validated. Checks run in the handler's order: guardian test,
      defender down, zero damage, reaction prompt, damage form. */
  function HealthSwap(unit: Unit, hit: Hit, validated: bool): (r: Result<Verdict, Fault>)
    ensures !IsGuardianFor(unit, hit.attacker, hit.defender) ==> r == Success(Skip(NotGuardian))
    ensures ReactionRequested(r) <==> WouldPrompt(unit, hit)
    ensures r.Success? && r.value.Swap? <==>
              WouldPrompt(unit, hit) && validated && DamageFormOf(hit.attackMode, hit.effect).Some?
    ensures r.Success? && r.value.Swap? ==>
              r.value.amount == hit.damageAmount
              && r.value.damageType == DamageFormOf(hit.attackMode, hit.effect).value.damageType
    ensures r.Failure? <==>
              WouldPrompt(unit, hit) && validated && DamageFormOf(hit.attackMode, hit.effect).None?
    ensures r.Failure? ==> r.error == NullDamageForm(unit)
  {
    if !IsGuardianFor(unit, hit.attacker, hit.defender) then Success(Skip(NotGuardian))
    else if hit.defender.ruleset.value.deadOrDyingOrUnconscious then Success(Skip(DefenderDown))
    else if hit.damageAmount == 0 then Success(Skip(NoDamage))
    else if !validated then Success(Skip(NotValidated))
    else match DamageFormOf(hit.attackMode, hit.effect)
      case None => Failure(NullDamageForm(unit))
      case Some(form) => Success(Swap(hit.damageAmount, form.damageType))
  }

  /** The test the visiting loop applies: the unit is neither the attacker
      nor the defender. */
  function NeitherOf(attacker: Unit, defender: Unit): Unit -> bool
  {
    (u: Unit) => u.id != attacker.id && u.id != defender.id
  }

  /** The contenders the handler visits: the standing ones, in contender
      order, except the attacker and the defender. */
  function Considered(contenders: seq<Unit>, attacker: Unit, defender: Unit): (r: seq<Unit>)
    ensures |r| <= |contenders|
    ensures forall i :: 0 <= i < |r| ==>
              r[i] in contenders && IsStanding(r[i]) && r[i].id != attacker.id && r[i].id != defender.id
    ensures forall i :: 0 <= i < |contenders| && IsStanding(contenders[i])
              && contenders[i].id != attacker.id && contenders[i].id != defender.id
              ==> contenders[i] in r
  {
    var standing := Filter(contenders, IsStanding);
    Filter(standing, NeitherOf(attacker, defender))
  }

  /** Visiting never reorders: the contenders of a concatenation are visited
      part by part. */
  lemma ConsideredInContenderOrder(a: seq<Unit>, b: seq<Unit>, attacker: Unit, defender: Unit)
    ensures Considered(a + b, attacker, defender)
         == Considered(a, attacker, defender) + Considered(b, attacker, defender)
  {
    FilterAppend(a, b, IsStanding);
    FilterAppend(Filter(a, IsStanding), Filter(b, IsStanding), NeitherOf(attacker, defender));
  }

  /** Runs the swap decision over the visited contenders in order, stopping
      at the first fault. */
  function Visit(units: seq<Unit>, hit: Hit, accepted: set<UnitId>): (r: Outcome)
    ensures |r.steps| <= |units|
    ensures forall i :: 0 <= i < |r.steps| ==>
              r.steps[i].guardian == units[i]
              && HealthSwap(units[i], hit, units[i].id in accepted) == Success(r.steps[i].verdict)
    ensures r.fault.None? ==> |r.steps| == |units|
    ensures r.fault.Some? ==>
              |r.steps| < |units|
              && HealthSwap(units[|r.steps|], hit, units[|r.steps|].id in accepted) == Failure(r.fault.value)
    decreases |units|
  {
    if |units| == 0 then Outcome([], None)
    else match HealthSwap(units[0], hit, units[0].id in accepted)
      case Failure(f) => Outcome([], Some(f))
      case Success(v) =>
        var rest := Visit(units[1..], hit, accepted);
        Outcome([Step(units[0], v)] + rest.steps, rest.fault)
  }

  /** The contenders of the manager's battle, or none when there is no
      manager or no battle. */
  function ContendersOf(manager: Option<BattleManager>): seq<Unit>
  {
    if manager.Some? && manager.value.battle.Some? then manager.value.battle.value.contenders else []
  }

  /** The handler run when an attack hit finishes. `accepted` holds the
      units whose reaction prompt is validated. */
  function ProcessOnCharacterAttackHitFinished(
    manager: Option<BattleManager>,
    attacker: Unit,
    defender: Option<Unit>,
    attackMode: Option<AttackMode>,
    effect: Option<RulesetEffect>,
    damageAmount: int,
    accepted: set<UnitId>): (r: Outcome)
    ensures manager.None? || defender.None? || manager.value.battle.None? ==> r == Outcome([], None)
    ensures |r.steps| > 0 ==> defender.Some? && manager.Some? && manager.value.battle.Some?
    ensures forall i :: 0 <= i < |r.steps| ==>
              r.steps[i].guardian in ContendersOf(manager) && IsStanding(r.steps[i].guardian)
    ensures forall i :: 0 <= i < |r.steps| && defender.Some? ==>
              r.steps[i].guardian.id != attacker.id && r.steps[i].guardian.id != defender.value.id
    ensures forall i :: 0 <= i < |r.steps| && r.steps[i].verdict.Swap? ==>
              && defender.Some?
              && IsGuardianFor(r.steps[i].guardian, attacker, defender.value)
              && IsOppositeSide(attacker.side, defender.value.side)
              && IsStanding(defender.value)
              && damageAmount != 0
              && r.steps[i].guardian.id in accepted
              && r.steps[i].verdict.amount == damageAmount
    ensures manager.Some? && defender.Some? && manager.value.battle.Some?
            && AllHaveRuleset(ContendersOf(manager)) ==>
              var visited := Considered(ContendersOf(manager), attacker, defender.value);
              && |r.steps| <= |visited|
              && (forall i :: 0 <= i < |r.steps| ==> r.steps[i].guardian == visited[i])
              && (r.fault.None? ==> |r.steps| == |visited|)
    ensures r.fault == Some(NullRulesetCharacter) ==> r.steps == []
    ensures r.fault == Some(NullRulesetCharacter) <==>
              manager.Some? && defender.Some? && manager.value.battle.Some?
              && !AllHaveRuleset(ContendersOf(manager))
  {
    if manager.None? then Outcome([], None)
    else if defender.None? then Outcome([], None)
    else if manager.value.battle.None? then Outcome([], None)
    else
      var contenders := manager.value.battle.value.contenders;
      if !AllHaveRuleset(contenders) then Outcome([], Some(NullRulesetCharacter))
      else
        var hit := Hit(attacker, defender.value, attackMode, effect, damageAmount);
        Visit(Considered(contenders, attacker, defender.value), hit, accepted)
  }

  /** A visited contender swaps exactly when it would be prompted, its
      reaction is validated and a damage form exists; the swap then carries
      the hit's damage amount and the selected form's damage type. */
  lemma SwapIffQualifies(
    manager: Option<BattleManager>, attacker: Unit, defender: Option<Unit>,
    attackMode: Option<AttackMode>, effect: Option<RulesetEffect>,
    damageAmount: int, accepted: set<UnitId>)
    requires defender.Some?
    ensures var r := ProcessOnCharacterAttackHitFinished(manager, attacker, defender, attackMode, effect, damageAmount, accepted);
            var hit := Hit(attacker, defender.value, attackMode, effect, damageAmount);
            forall i :: 0 <= i < |r.steps| ==>
              && (r.steps[i].verdict.Swap? <==>
                    WouldPrompt(r.steps[i].guardian, hit)
                    && r.steps[i].guardian.id in accepted
                    && DamageFormOf(attackMode, effect).Some?)
              && (r.steps[i].verdict.Swap? ==>
                    r.steps[i].verdict == Swap(damageAmount, DamageFormOf(attackMode, effect).value.damageType))
  {
  }

  /** The handler aborts on a missing damage form exactly when a visited
      guardian accepted the reaction and the hit has no damage form: such a
      fault names a prompted, validated contender; a hit with a damage form
      never faults; and a hit without one faults at the first visited
      contender that is prompted and validates. */
  lemma DamageFormFault(
    manager: Option<BattleManager>, attacker: Unit, defender: Option<Unit>,
    attackMode: Option<AttackMode>, effect: Option<RulesetEffect>,
    damageAmount: int, accepted: set<UnitId>)
    ensures var r := ProcessOnCharacterAttackHitFinished(manager, attacker, defender, attackMode, effect, damageAmount, accepted);
            r.fault.Some? && r.fault.value.NullDamageForm? ==>
              && defender.Some?
              && WouldPrompt(r.fault.value.guardian, Hit(attacker, defender.value, attackMode, effect, damageAmount))
              && r.fault.value.guardian.id in accepted
              && r.fault.value.guardian in ContendersOf(manager)
              && DamageFormOf(attackMode, effect).None?
    ensures DamageFormOf(attackMode, effect).Some? && AllHaveRuleset(ContendersOf(manager)) ==>
              ProcessOnCharacterAttackHitFinished(manager, attacker, defender, attackMode, effect, damageAmount, accepted).fault.None?
    ensures manager.Some? && manager.value.battle.Some? && defender.Some?
            && AllHaveRuleset(ContendersOf(manager)) ==>
              var r := ProcessOnCharacterAttackHitFinished(manager, attacker, defender, attackMode, effect, damageAmount, accepted);
              var hit := Hit(attacker, defender.value, attackMode, effect, damageAmount);
              var visited := Considered(ContendersOf(manager), attacker, defender.value);
              DamageFormOf(attackMode, effect).None?
              && (exists i :: 0 <= i < |visited| && WouldPrompt(visited[i], hit) && visited[i].id in accepted)
              ==> && r.fault.Some?
                  && r.fault.value == NullDamageForm(visited[|r.steps|])
                  && WouldPrompt(visited[|r.steps|], hit)
                  && visited[|r.steps|].id in accepted
                  && (forall i :: 0 <= i < |r.steps| ==>
                        !(WouldPrompt(visited[i], hit) && visited[i].id in accepted))
  {
  }

  /** The verdict followed a reaction prompt. */
  predicate Prompted(v: Verdict)
  {
    v.Swap? || v == Skip(NotValidated)
  }

  /** The unit is the guardian of some step that followed a reaction
      prompt. */
  ghost predicate PromptedIn(u: Unit, steps: seq<Step>)
  {
    exists j :: 0 <= j < |steps| && Prompted(steps[j].verdict) && steps[j].guardian == u
  }

  /** The guardians that were offered the reaction, in the order they were
      asked, for a run that does not abort. When a run aborts on a missing
      damage form, the guardian whose validated swap faulted was prompted
      too but has no step, so it is not in this list. */
  function PromptedGuardians(steps: seq<Step>): (r: seq<Unit>)
    ensures |r| <= |steps|
    ensures forall i :: 0 <= i < |steps| && Prompted(steps[i].verdict) ==> steps[i].guardian in r
    ensures forall i :: 0 <= i < |r| ==> PromptedIn(r[i], steps)
    decreases |steps|
  {
    if |steps| == 0 then []
    else
      var head := if Prompted(steps[0].verdict) then [steps[0].guardian] else [];
      var rest := PromptedGuardians(steps[1..]);
      assert forall i :: 0 <= i < |head| ==> PromptedIn(head[i], steps) by {
        if |head| > 0 {
          assert Prompted(steps[0].verdict) && steps[0].guardian == head[0];
        }
      }
      assert forall i :: 0 <= i < |rest| ==> PromptedIn(rest[i], steps) by {
        forall i | 0 <= i < |rest|
          ensures PromptedIn(rest[i], steps)
        {
          var k :| 0 <= k < |steps[1..]| && Prompted(steps[1..][k].verdict) && steps[1..][k].guardian == rest[i];
          assert steps[k + 1] == steps[1..][k];
        }
      }
      head + rest
  }

  /** The prompt test for one hit, as a value for `Filter`. */
  function PromptTest(hit: Hit): Unit -> bool
  {
    (u: Unit) => WouldPrompt(u, hit)
  }

  /** Over a run that did not abort, the prompted guardians are exactly the
      visited units that pass the prompt test, in visiting order. */
  lemma {:induction false} VisitPrompts(units: seq<Unit>, hit: Hit, accepted: set<UnitId>)
    requires Visit(units, hit, accepted).fault.None?
    ensures PromptedGuardians(Visit(units, hit, accepted).steps) == Filter(units, PromptTest(hit))
    decreases |units|
  {
    if |units| > 0 {
      var r := Visit(units, hit, accepted);
      var v := HealthSwap(units[0], hit, units[0].id in accepted);
      assert v.Success?;
      var rest := Visit(units[1..], hit, accepted);
      assert r.steps == [Step(units[0], v.value)] + rest.steps;
      assert r.steps[1..] == rest.steps;
      VisitPrompts(units[1..], hit, accepted);
      assert Prompted(v.value) <==> PromptTest(hit)(units[0]);
    }
  }

  /** The guardians the handler prompts, when it does not abort, are the
      standing contenders other than attacker and defender that qualify as
      guardian for the hit, in contender order. */
  lemma PromptedAreQualifyingContenders(
    manager: Option<BattleManager>, attacker: Unit, defender: Option<Unit>,
    attackMode: Option<AttackMode>, effect: Option<RulesetEffect>,
    damageAmount: int, accepted: set<UnitId>)
    requires manager.Some? && manager.value.battle.Some? && defender.Some?
    ensures var r := ProcessOnCharacterAttackHitFinished(manager, attacker, defender, attackMode, effect, damageAmount, accepted);
            r.fault.None? ==>
              PromptedGuardians(r.steps)
              == Filter(Considered(ContendersOf(manager), attacker, defender.value),
                        PromptTest(Hit(attacker, defender.value, attackMode, effect, damageAmount)))
  {
    var r := ProcessOnCharacterAttackHitFinished(manager, attacker, defender, attackMode, effect, damageAmount, accepted);
    if r.fault.None? {
      var hit := Hit(attacker, defender.value, attackMode, effect, damageAmount);
      VisitPrompts(Considered(ContendersOf(manager), attacker, defender.value), hit, accepted);
    }
  }
}
