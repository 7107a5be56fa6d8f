# Bible and agent ID card interactions, modelled in Dafny

This project models two server-side gameplay systems of Space Station 14.

- **BibleSystem** runs when a user applies a bible to a target. It first passes a reach check, a cooldown check and a target check. It then consumes the cooldown and picks one of three outcomes:
  - an untrained user "sizzles" and takes `DamageOnUntrainedUse`;
  - a failed heal applies `DamageOnFail` to the target;
  - a successful heal applies `Damage` to the target.

  The same system offers a one-shot summon for summonable items. The summon is reachable through an alternative verb and through an item action, and both funnel into one guarded `AttemptSummon`.
- **AgentIDCardSystem** runs when an agent ID card is used on an entity with access. It unites that entity's access tags into the card's own tags and picks one of three popups from the number of tags added.

Files:

- `common.dfy` (module `Common`) holds `Option`, entity ids and game-time ticks.
- `bible.dfy` (module `Bible`) covers `BibleSystem`:
  - the classes `BibleComponent` (fields `CooldownEnd`, `LastAttackTime`) and `SummonableComponent` (field `AlreadySummoned`), whose handler methods follow the C# early returns;
  - the pure functions `Decide`, `Advance`, `Effects`, `SummonAllowed` and `SummonEffects`, which the methods are proved equal to;
  - lemmas about single attempts and about arbitrary sequences of attempts (`Replay`) and summon triggers (`SummonRun`).
- `agent_id_card.dfy` (module `AgentIdCard`) covers `AgentIDCardSystem`:
  - the class `AccessComponent`, a mutable tag set;
  - the card class `AgentIdCardComponent` with its `OnAfterInteract` handler;
  - the specification functions `Merge` and `Classify`, and lemmas about them.

Engine queries are inputs to the model: reach, mob state, bible-user status, head slot, the "Familiar" tag, the action blocker, transform resolution and entity deletion. The already-drawn fail roll `failRolled` is an input too. The game clock is the integer field `now` of an attempt.

What the handlers send to the engine is appended to a ghost log of effects:
- the cooldown refresh event;
- popups, each as a message key and an audience class;
- damage changes, each as an entity and the damage specifier applied;
- spawns and action removals.

The code and the design description differ in these places; the model follows the code:
- The cooldown is checked before the target is validated, but it is consumed only after the target is validated. A cooling-down attempt on an invalid target therefore changes nothing, and neither does a valid-time attempt on an invalid target.
- The summon guard tests only that the prototype is set (not null). It does not test that the prototype is non-empty.
- At `AgentIDCardSystem.cs:27` the ID card component is looked up on the card itself, not on the target, so both guards test the card. The model does the same.

## Model

| member | source | states |
|---|---|---|
| `Bible.BibleComponent.OnAfterInteract` | Content.Server/Bible/BibleSystem.cs:40-94 | The outcome is `Decide` on the old cooldown end. The timers become `Advance` of the old timers: unchanged when ignored, otherwise `LastAttackTime = now` and `CooldownEnd = now + CooldownTime`. The log grows by exactly `Effects` of the attempt. |
| `Bible.GatedAttemptChangesNothing` | Content.Server/Bible/BibleSystem.cs:42-54 | An attempt is ignored when it is unreachable, arrives before the cooldown end, or has a missing, self or non-mob target. It leaves the timers untouched and emits no effect. |
| `Bible.ProceedingAttemptConsumesCooldown` | Content.Server/Bible/BibleSystem.cs:56-58 | An attempt that passes every guard is not ignored, whoever the user is. It sets the timers to `(now, now + CooldownTime)` and first emits the cooldown-refresh event. With a non-negative cooldown the new end is not before the last attack. |
| `Bible.OneAttemptPerWindow` | Content.Server/Bible/BibleSystem.cs:47-57 | After an attempt proceeds, any attempt earlier than its `now + CooldownTime` is ignored and leaves the timers as they are. |
| `Bible.UntrainedUserHarmsOnlyThemself` | Content.Server/Bible/BibleSystem.cs:60-67 | A proceeding attempt by a non-bible user sizzles. Its only damage is `DamageOnUntrainedUse` on the user, every popup goes to the user alone, and the cooldown is still consumed. |
| `Bible.FailRollOnlyForUnprotectedTargets` | Content.Server/Bible/BibleSystem.cs:70-93 | When the target has a head item or the Familiar tag, the fail roll does not affect the outcome. A trained user's proceeding attempt on such a target always heals. |
| `Bible.TrainedAttemptDamagesTargetOnce` | Content.Server/Bible/BibleSystem.cs:70-93 | A trained user's proceeding attempt applies exactly one damage specifier, to the target. It is `DamageOnFail` when the roll was consulted and failed, and `Damage` otherwise. The outcome is chosen the same way. |
| `Bible.CooldownEndNeverDecreases` | Content.Server/Bible/BibleSystem.cs:47-57 | With a non-negative cooldown, no sequence of attempts ends with a smaller cooldown end than it started with. |
| `Bible.CooldownEndMonotoneAlongRun` | Content.Server/Bible/BibleSystem.cs:47-57 | With a non-negative cooldown, along any run the cooldown end after a shorter prefix is at most the cooldown end after a longer one. |
| `Bible.CooldownCoversLastAttack` | Content.Server/Bible/BibleSystem.cs:56-57 | With a non-negative cooldown, `LastAttackTime <= CooldownEnd` is preserved by any sequence of attempts. |
| `Bible.SummonableComponent.AddSummonVerb` | Content.Server/Bible/BibleSystem.cs:96-115 | The summon verb (text `bible-summon-verb`, priority 2) is appended exactly when all of these hold: the user can interact and access, the item is not yet summoned, the prototype is set, and the user is a bible user where that is required. Otherwise the verb list is unchanged. |
| `Bible.SummonableComponent.ActSummonVerb` | Content.Server/Bible/BibleSystem.cs:106-110 | Using the verb runs the same guarded summon as `AttemptSummon`, with the same results. |
| `Bible.SummonableComponent.GetSummonAction` | Content.Server/Bible/BibleSystem.cs:117-123 | The summon action is appended exactly when the item is not yet summoned. |
| `Bible.SummonableComponent.OnSummon` | Content.Server/Bible/BibleSystem.cs:124-127 | Performing the action runs the same guarded summon as `AttemptSummon`, with the same results. |
| `Bible.SummonableComponent.AttemptSummon` | Content.Server/Bible/BibleSystem.cs:128-144 | The summon spawns exactly when `SummonAllowed` holds. `AlreadySummoned` becomes its old value or'ed with whether it spawned, so it is never reset. The log grows by the spawn and the action removal, or by nothing. |
| `Bible.SummonGuard` | Content.Server/Bible/BibleSystem.cs:130-143 | A summon proceeds exactly when all of these hold: not already summoned, prototype set, bible-user requirement met, position resolved, owner not deleted, user can interact. If so it spawns once and removes the action; otherwise it emits nothing. |
| `Bible.SummonedOffersNothing` | Content.Server/Bible/BibleSystem.cs:96-131 | Once summoned, the verb is not offered and a late trigger from either surface emits nothing. |
| `Bible.AtMostOneSpawn` | Content.Server/Bible/BibleSystem.cs:119-143 | Across any interleaving of verb and action triggers: the flag is never reset; there is at most one spawn, and none if the item was already summoned; the flag ends set exactly when it started set or a spawn happened. |
| `AgentIdCard.AgentIdCardComponent.OnAfterInteract` | Content.Server/Access/Systems/AgentIDCardSystem.cs:25-48 | It reports exactly when the target and its access component exist and the card has its ID card and access components. Otherwise the card's tags are unchanged. On a report, the card's tags become the old tags united with the target's, and the added count is `Merge`'s. The message is `Classify` of that count. The target's tags never change, even if it is the card itself. |
| `AgentIdCard.Merge` | Content.Server/Access/Systems/AgentIDCardSystem.cs:33-35 | The merged set holds both the card's and the target's tags and nothing else. The count difference before and after equals the number of target tags the card lacked. |
| `AgentIdCard.Classify` | Content.Server/Access/Systems/AgentIDCardSystem.cs:37-47 | Exactly one message is chosen, and the count it reports is the added count: `no-new` for 0, `new-1` for 1, and `new` with the number otherwise. |
| `AgentIdCard.AddedCountIsNewTags` | Content.Server/Access/Systems/AgentIDCardSystem.cs:33-37 | The added count is never negative. It is zero exactly when the target's tags are all already on the card, which is also exactly when the card's set is unchanged. |
| `AgentIdCard.MergeIdempotent` | Content.Server/Access/Systems/AgentIDCardSystem.cs:33-37 | Repeating the same merge adds 0 tags, leaves the set unchanged and selects the `no-new` message. |
| `AgentIdCard.MergeTagsCommute` | Content.Server/Access/Systems/AgentIDCardSystem.cs:34 | The merged tag set does not depend on which holder is the card. |
| `AgentIdCard.MergeAddsTwo` | Content.Server/Access/Systems/AgentIDCardSystem.cs:33-47 | Merging `{X, Y, Z}` into `{X}` gives `{X, Y, Z}` with 2 added and the `new` message with number 2. |
| `AgentIdCard.MergeAddsNone` | Content.Server/Access/Systems/AgentIDCardSystem.cs:33-40 | Merging `{X, Y}` into `{X, Y}` adds 0 and selects `no-new`. |

## Left out

- Event subscription in both `Initialize` methods is left out. It is engine publish/subscribe wiring; each handler is a method called directly.
- Sounds are left out: the sizzle, hit and heal sounds, and sound path resolution. They are audio sinks with no logic.
- Localised message text and the bible's `LocPrefix` are left out. Popups are recorded as a message key and an audience class: the user alone, or everyone in view of the user but the user.
- The agent card's popup is anchored on the target and shown to everyone in view of the user. It is not recorded; the handler returns only the added count and the message.
- `_random.Prob(FailChance)` is not modelled. It is a floating-point random draw, so its result is the input `failRolled`. The design's probability-boundary property (a zero fail chance never fails) is therefore not expressible here.
- Game time and `TimeSpan.FromSeconds(CooldownTime)` are modelled as integer ticks. Floating-point rounding of the cooldown length is not modelled.
- Damage specifier contents and `DamageableSystem.TryChangeDamage` are foreign engine calls. The log records only which specifier went to which entity.
- Engine queries are boolean inputs: inventory slots, tags, mob state, bible-user status, `ActionBlocker`, `Resolve` of the transform, and entity deletion. Spawning and `RemoveAction` are log entries; a spawn is recorded at the user, whose transform gives the coordinates.
- The verb's `Act` closure cannot be stored in a datatype. The offered verb is recorded by its text and priority, and using it is the method `ActSummonVerb`.
- `OnJobChanged` and `OnNameChanged` are left out. They only forward to `IdCardSystem`, which is not part of this model.
- The component classes `BibleComponent`, `SummonableComponent` and `AccessComponent` are not part of this model apart from the fields the handlers use. The model's constructors start the bible's timers at 0 and the summon as unused.
- Handling of concurrent events is left out. Events are handled one at a time, so the sequence lemmas range over arbitrary orders of attempts and triggers.
