# Solasta party-size and guardian-aura patches, modelled in Dafny

This project models two small pieces of self-contained logic from a set of
runtime patches for the game Solasta.

- **Party-position fix-up** (`PartyPositions`). The game only stores
  positions for its native party size when a location is loaded. The patch on
  `GameLocationCharacterManager.UnlockCharactersForLoading` gives every extra
  party member the position of the member at index `idx % partySize`. The
  model is a sequence of characters with `int3` positions and a loop over it.
  It proves that the loop only reads native slots, which it never writes, so
  the result has a closed form (`Recalculated`). From that closed form follow
  the fixed-point characterisation and idempotence.
- **Guardian-aura health swap** (`GuardianAura`). When an attack hits, the
  handler visits every standing contender other than the attacker and the
  defender. A guardian is a contender that is on the defender's side,
  opposes the attacker and carries the aura user marker, protecting a
  defender that carries the aura condition marker. Such a guardian is
  offered a reaction if the defender is still standing and the hit did
  non-zero damage. If the reaction is validated, the guardian takes the
  hit's damage. The damage type comes from the ruleset effect when there is
  one, and from the attack mode otherwise. The model is pure functions over
  immutable unit records. They return, in visiting order, each visited
  contender with its verdict, plus the null dereference that aborts the
  handler, if one does.

Supporting modules: `Wrappers` holds `Option` (a nullable host reference) and
`Result`. `Filtering` holds `Filter`, the order-preserving selection that
models LINQ's `Where(...).ToArray()` and a `foreach` loop that skips
elements.

Null dereferences in the handler are modelled as faults in the outcome, not
as preconditions. The model records two of them:
- line 46 reads every contender's rules-level character without a null check;
- line 129 reads the damage form. It is null when `DamageFormOf` yields
  none: an effect is present without a damage form (even if the attack mode
  has one, because the effect's form overwrites it), or there is no effect
  and the attack mode is absent or has no form.

`DamageFormFault` states when the second one can occur, and proves it cannot
occur whenever the hit has a damage form.

## Model

| member | source | states |
|---|---|---|
| PartyPositions.UnlockCharactersForLoading | SolastaCommunityExpansion/Patches/PartySize/GameLocationCharacterManagerPatcher.cs:12-22 | The in-place pass keeps the length, every member's identity and the first `partySize` members. Every later index ends up with the ORIGINAL position of index `idx % partySize`, even though the loop reads from the list it is writing. The result equals the closed form `Recalculated`. |
| PartyPositions.SourceSlot | SolastaCommunityExpansion/Patches/PartySize/GameLocationCharacterManagerPatcher.cs:18 | The read index `idx % partySize` is below `partySize`, so it is in bounds and is a slot the pass never writes. It is also at most `idx - partySize`, so it is read before any write could reach it. |
| PartyPositions.ShortPartyUnchanged | SolastaCommunityExpansion/Patches/PartySize/GameLocationCharacterManagerPatcher.cs:16 | A party of at most `partySize` members is left exactly as it was. |
| PartyPositions.FixedPointIffAligned | SolastaCommunityExpansion/Patches/PartySize/GameLocationCharacterManagerPatcher.cs:16-20 | The pass leaves a party unchanged if and only if every extra member already stands on its native counterpart's position. |
| PartyPositions.RecalculatedIsAligned | SolastaCommunityExpansion/Patches/PartySize/GameLocationCharacterManagerPatcher.cs:16-20 | After the pass, every extra member stands on the position of member `i % partySize` of the resulting party. |
| PartyPositions.Idempotent | SolastaCommunityExpansion/Patches/PartySize/GameLocationCharacterManagerPatcher.cs:16-20 | Applying the pass twice gives the same party as applying it once. |
| GuardianAura.ProcessOnCharacterAttackHitFinished | SolastaUnfinishedBusiness/CustomBehaviors/GuardianAuraHpSwap.cs:19-57 | A missing battle manager, defender or battle yields no steps and no fault. Every visited unit is a standing contender that is neither the attacker nor the defender. Units are visited in the order of `Considered`, and all of them are visited unless the run aborts. Every swap belongs to a guardian that opposes the attacker, shares the defender's side, carries the user marker, and whose reaction was validated; the attacker then opposes the defender's side. The defender must carry the condition marker and be standing. The damage must be non-zero, and the swap amount equals it. A contender without a rules-level character aborts the run before any contender is visited, so such a run has no steps. |
| GuardianAura.Considered | SolastaUnfinishedBusiness/CustomBehaviors/GuardianAuraHpSwap.cs:45-51 | The visited units are exactly the contenders that are not dead, dying or unconscious and are neither the attacker nor the defender. |
| GuardianAura.ConsideredInContenderOrder | SolastaUnfinishedBusiness/CustomBehaviors/GuardianAuraHpSwap.cs:45-49 | The selection keeps contender order: the selection of a concatenation is the concatenation of the selections. |
| GuardianAura.Visit | SolastaUnfinishedBusiness/CustomBehaviors/GuardianAuraHpSwap.cs:49-56 | Each visited unit in turn gets its own swap decision. Step `i` records unit `i` and its verdict. The run stops at the first unit whose decision faults, and it covers every unit when none faults. |
| GuardianAura.HealthSwap | SolastaUnfinishedBusiness/CustomBehaviors/GuardianAuraHpSwap.cs:59-130 | A non-guardian is skipped. The reaction is requested if and only if the unit is a guardian, the defender is standing and the damage is non-zero. A swap happens if and only if, in addition, the reaction is validated and a damage form exists. A swap's amount is the damage amount and its damage type is the selected form's. A fault happens if and only if a validated swap has no damage form. |
| GuardianAura.DamageFormOf | SolastaUnfinishedBusiness/CustomBehaviors/GuardianAuraHpSwap.cs:114-124 | When an effect is present, its damage form is used, even when that form is absent. Otherwise the attack mode's form is used. Any form found comes from one of the two. |
| GuardianAura.SwapIffQualifies | SolastaUnfinishedBusiness/CustomBehaviors/GuardianAuraHpSwap.cs:69-129 | Every visited contender swaps if and only if it would be prompted, its reaction was validated and a damage form exists. The swap then carries the damage amount and the type of the selected form. |
| GuardianAura.DamageFormFault | SolastaUnfinishedBusiness/CustomBehaviors/GuardianAuraHpSwap.cs:109-129 | A missing damage form only aborts the run for a guardian that was prompted, is a contender and whose reaction was validated, and only when `DamageFormOf` yields none: an effect is present without a form, or there is no effect and the attack mode is absent or has none. If every contender has a rules-level character and the hit has a damage form, the run never aborts. Conversely, when the hit has no damage form and some visited contender is prompted and validates, the run aborts at the first such contender: its steps cover exactly the visited contenders before it, none of which was prompted and validated. |
| GuardianAura.PromptedGuardians | SolastaUnfinishedBusiness/CustomBehaviors/GuardianAuraHpSwap.cs:105-112 | Every step that followed a reaction prompt contributes its guardian to the list of prompted guardians, and every listed guardian is the guardian of such a step. The list is no longer than the steps. |
| GuardianAura.VisitPrompts | SolastaUnfinishedBusiness/CustomBehaviors/GuardianAuraHpSwap.cs:49-84 | In a run over the visited units that does not abort, the prompted guardians are exactly the visited units that pass the guardian, defender-standing and non-zero-damage tests, in visiting order. |
| GuardianAura.PromptedAreQualifyingContenders | SolastaUnfinishedBusiness/CustomBehaviors/GuardianAuraHpSwap.cs:45-84 | When the handler does not abort, the guardians it prompts are the standing contenders, other than the attacker and the defender, that qualify for the hit, in contender order. |

## Left out

- The value of the native party size is left out. It is a parameter `partySize > 0`. The pass is only defined for a positive size, because `idx % 0` would throw.
- The engine's `int3` coordinates and the loop index are 32-bit in the source. The model uses unbounded integers. The pass only copies values, so no arithmetic can wrap.
- `IsOppositeSide` is a host method whose body is not part of this model. The model assumes its usual meaning: `Ally` and `Enemy` oppose each other, and `Neutral` opposes nothing.
- PartyPositions.UnlockCharactersForLoading: does not model aliasing or null entries. The source writes through object references, so a list holding one character twice would see a write to one slot in the other, and a null entry would throw. The model treats members as distinct values, and its promises (native slots unchanged, identities kept, extra slots holding the original position of `idx % partySize`) describe a party of distinct, non-null characters.
- The source reads a contender's down state through the property `IsDeadOrDyingOrUnconscious` (line 46) and the defender's through the field `isDeadOrDyingOrUnconscious` (line 76). Their host bodies are not part of this model, which assumes they agree and represents both by one flag, `deadOrDyingOrUnconscious`.
- Other null dereferences are left out, because the host is assumed to rule them out: a null contender list or a null contender at line 46, a null action service at line 87 (read before any reaction is requested), and a null `EffectDescription` on the attack mode or the ruleset effect at lines 118 and 123. `AttackMode` and `RulesetEffect` are reduced to their first damage form, so the model cannot express the last of these. A null `EffectDescription` would throw before the healing at lines 126-128, unlike the fault at line 129.
- Unit identity is modelled by an `id` field. The source compares object references.
- The coroutine scheduling and `WaitForReactions` are left out because they are host sequencing. `RequestCustomReaction` and its interrupt queue are left out too, along with a missing action manager, which means no prompt is ever validated. The validated answers are the input set `accepted`.
- The host's health arithmetic (`HealingReceived`, `ForceSetHealth`, `SustainDamage`, lines 126-130) is left out because it lives in the host binary. A swap is recorded as its amount and damage type. When the damage form is null, the healing and the forced health at lines 126-128 already took effect before the fault at line 129. The model records the fault but not those effects.
- Host state changes between guardians are left out. The handler re-reads the defender's down flag and markers for each guardian, after earlier swaps have changed health. The model evaluates every guardian against the same snapshot of the defender.
- A null attacker is left out. `ActiveHealthSwap` declares it non-null, and the model's attacker is always present.
- Presentation is left out: GUI characters, the reaction description string, the dummy power and console logging (lines 91-103, 132-136).
- The generated `float` field setters in `SubtitleTableDefinitionExtensions.cs` are left out because they have no logic.
