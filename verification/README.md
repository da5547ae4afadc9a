# Skill-allocation engine of the multiplayer character editor, in Dafny

This project models the rules of a character sheet editor. A character has six
skills. Its role raises the minimum of one of them, the *boosted* skill, from 6
to 11. Every value must stay at or below 30. A session budget,
MAX_TOTAL_POINTS, is a whole number from 85 to 89 and caps the sum of all values.

The modules follow the program:

- `Types` (`types.dfy`): the `Skill`, `Role` and `Player` records, plus `Fault`.
  `Fault` names the TypeErrors the program throws when a lookup yields `undefined`.
- `Roles` (`roles.dfy`): the single role catalog, the six canonical skill names, and the
  `find`-style lookup of a role's boosted skill.
- `Clamping` (`clamping.dfy`): `Math.max(lo, Math.min(x, hi))`.
- `PlayerSkills` (`player_skills.dfy`): the allocation engine of `usePlayerSkills`.
  It covers the effective minimum, `totalPoints` and `remainingPoints`, `updateSkill`,
  `incrementSkill`, `decrementSkill`, `resetSkills` and `randomizeSkills`.
  It also covers arbitrary sequences of edits.
- `App` (`app.dfy`): creating a character (`handleModalSubmit`), replacing an edited
  character (`handleUpdatePlayer`) and looking up the selected one.
- `SkillInput` (`skill_input.dfy`): the value logic of the text field's `handleInputBlur`.
- `Wrappers` (`wrappers.dfy`): `Option` and `Result`.

The engine's invariant is `PlayerSkills.Valid`. It holds when every value lies between
its effective minimum and 30 and the sum is at most the budget. A new character
satisfies it. Every edit preserves it. Randomizing establishes it with the whole budget
spent.

Points where the code behaves differently from what its comments or UI suggest, and which the model follows:

- The increment guard is `totalPoints < MAX_TOTAL_POINTS`. Increment is therefore a
  no-op whenever the total is at or above the budget, not only when it equals the budget.
- A request above 30 yields 30 only when the budget allows it. Otherwise the budget cap
  applies (`UpdateSkillExhaustsBudget`).
- An index that addresses no skill is a no-op only for `updateSkill`.
  `incrementSkill` and `decrementSkill` read `.value` of `undefined` and throw.
  The exception is an increment when the budget is already spent: that returns first.
  These throws are modelled as `Err(MissingSkill)`.
- `handleModalSubmit` asserts with `!` that the role exists. An unknown role throws when
  `boostedSkill` is read. That is modelled as `Err(MissingRole)`.
- `handleInputBlur` falls back to the current value when parsing fails, and then clamps it
  to [6, 30].

## Model

| member | source | states |
|---|---|---|
| Roles.FindRole | src/hooks/usePlayerSkills.ts:27 | Returns None exactly when no role has the name. Otherwise it returns an entry with that name, and no earlier entry has that name. |
| Roles.CatalogWellFormed | src/hooks/usePlayerSkills.ts:9-16 | Role names in the catalog are distinct. Every boosted skill is one of the six canonical skill names. |
| Roles.FindRoleUnique | src/hooks/usePlayerSkills.ts:27 | When role names are distinct, the lookup by name yields a role exactly when that role is listed. |
| Roles.BoostedSkill | src/hooks/usePlayerSkills.ts:27 | `roles.find(r => r.name === player.role)?.boostedSkill`: when a role is found, its boosted skill is one of the six canonical skill names. |
| Roles.BoostedSkillSpec | src/hooks/usePlayerSkills.ts:27 | The role's boosted skill is Some(b) exactly when the catalog contains the role paired with b. It is None exactly when no catalog role has the name. |
| PlayerSkills.EffMinSpec | src/hooks/usePlayerSkills.ts:27-29 | The minimum is 11 exactly when the catalog pairs the role with this skill. It is 6 exactly when it does not. |
| PlayerSkills.EffMinOfBoosted | src/hooks/usePlayerSkills.ts:27-29 | Once the role's boosted skill is known, the minimum is 11 for that skill and 6 for every other skill. |
| PlayerSkills.UnknownRoleUnboosted | src/hooks/usePlayerSkills.ts:27-29 | For a role absent from the catalog, the empty role included, every skill's minimum is 6. |
| PlayerSkills.EffMin | src/hooks/usePlayerSkills.ts:28-29 | getMinForSkill: every minimum is either 6 or 11. Which one is settled by `EffMinSpec`. |
| Clamping.Clamp | src/hooks/usePlayerSkills.ts:45 | For a nonempty range the result lies in [lo, hi]. In-range inputs are kept. Inputs above the range give hi; inputs below give lo. |
| Clamping.ClampIsNearest | src/hooks/usePlayerSkills.ts:45 | The clamp is the point of [lo, hi] nearest to the input. |
| PlayerSkills.TotalReplace | src/hooks/usePlayerSkills.ts:32-34 | Replacing one skill's value changes totalPoints by exactly the difference. |
| PlayerSkills.TotalMonotone | src/hooks/usePlayerSkills.ts:32-34 | Pointwise no larger values give a no larger totalPoints. |
| PlayerSkills.Total | src/hooks/usePlayerSkills.ts:32-34 | totalPoints: when every value lies in [6, 30], the total lies between 6 and 30 times the number of skills. |
| PlayerSkills.RemainingPoints | src/hooks/usePlayerSkills.ts:36 | remainingPoints is not negative exactly when the total is within the budget. For an in-bounds character it is at most the budget less 6 per skill. |
| PlayerSkills.HeadroomWitness | src/hooks/usePlayerSkills.ts:90-96 | If the total is below 30 per skill, some skill is below 30. |
| PlayerSkills.BoostFloor | src/hooks/usePlayerSkills.ts:27-29 | Under the invariant, the role's boosted skill is at least 11. |
| PlayerSkills.ValidatedValue | src/hooks/usePlayerSkills.ts:43-53 | The stored value lies in [min, 30]. A decrease gets exactly the clamped request. So does an increase that fits the remaining points. From a valid state, a larger increase gets exactly current + remaining. |
| PlayerSkills.UpdateSkill | src/hooks/usePlayerSkills.ts:39-57 | An index that addresses no skill leaves the player unchanged. Otherwise only the addressed value changes, to a value in [min, 30]. Names, the other skills, id, name, role and length are unchanged. |
| PlayerSkills.UpdateSkillPreservesValid | src/hooks/usePlayerSkills.ts:44-53 | From a valid state, any requested value leaves every skill in bounds and the sum within the budget. |
| PlayerSkills.UpdateSkillNearest | src/hooks/usePlayerSkills.ts:44-53 | From a valid state, the stored value is no farther from the request than any admissible value. Admissible values lie in the skill's bounds and keep the sum within the budget. |
| PlayerSkills.UpdateSkillExhaustsBudget | src/hooks/usePlayerSkills.ts:47-53 | Take a skill at or above its minimum, with remainingPoints not negative. A request above current + remainingPoints stores current + remainingPoints, or 30 if that is smaller. When current + remainingPoints is at most 30, the total then equals the budget exactly. |
| PlayerSkills.IncrementSkill | src/hooks/usePlayerSkills.ts:61-68 | No-op when the total is at or above the budget, or the skill is at 30. A missing skill throws only while budget remains. From a valid state it otherwise adds exactly one point. |
| PlayerSkills.DecrementSkill | src/hooks/usePlayerSkills.ts:70-76 | A missing skill always throws. No-op at or below the effective minimum. Above it, the value drops by exactly one, never limited by the budget. |
| PlayerSkills.StepsPreserveValid | src/hooks/usePlayerSkills.ts:61-76 | A successful increment or decrement from a valid state ends in a valid state. |
| PlayerSkills.StepsMoveTotalByOne | src/hooks/usePlayerSkills.ts:61-76 | From a valid state, a successful increment raises the total by zero or one, and a successful decrement lowers it by zero or one. |
| PlayerSkills.IncrementGuardRedundant | src/hooks/usePlayerSkills.ts:61-68 | From a valid state, the increment guards change nothing. The result equals updateSkill with current + 1. |
| PlayerSkills.DecrementGuardRedundant | src/hooks/usePlayerSkills.ts:70-76 | From a valid state, the decrement guard changes nothing. The result equals updateSkill with current - 1. |
| PlayerSkills.AtMinimum | src/hooks/usePlayerSkills.ts:79-82 | Keeps length and names, and puts each value at its effective minimum. |
| PlayerSkills.ResetSkills | src/hooks/usePlayerSkills.ts:78-84 | Every skill goes to its effective minimum, so the result is in bounds. Names, order, length, id, name and role are unchanged. |
| PlayerSkills.ResetIdempotent | src/hooks/usePlayerSkills.ts:78-84 | Resetting twice equals resetting once. |
| PlayerSkills.ResetIsLeast | src/hooks/usePlayerSkills.ts:78-84 | Any in-bounds character with the same role and names is pointwise at or above the reset state. So the reset total is the least, and the reset state is valid whenever such a character is. |
| PlayerSkills.RaiseOne | src/hooks/usePlayerSkills.ts:92-94 | Adding a point to a skill below 30 keeps every skill within its bounds and its name. The total grows by exactly one. |
| PlayerSkills.RandomizeSkills | src/hooks/usePlayerSkills.ts:86-98 | Given capacity for the budget, the result keeps names, id, name and role, and every value is in [min, 30]. The total equals the budget exactly, unless the minimums alone exceed it; then the result is the reset state. |
| PlayerSkills.ApplyEditPreservesValid | src/hooks/usePlayerSkills.ts:39-84 | Any one update, increment, decrement or reset from a valid state ends in a valid state, or throws. |
| PlayerSkills.RunEditsPreservesValid | src/hooks/usePlayerSkills.ts:39-84 | Every sequence of these edits from a valid state ends in a valid state, or in a thrown fault. |
| App.NatToString | src/App.tsx:71 | The decimal rendering of a number is nonempty and made only of digits. |
| App.NatToStringInjective | src/App.tsx:71 | Different numbers render differently. |
| App.PlayerId | src/App.tsx:71 | A new id is "player-" followed only by decimal digits. |
| App.PlayerIdInjective | src/App.tsx:71 | "player-" ids of different numbers differ. |
| App.SubmitPlayer | src/App.tsx:70-90 | Fails exactly when the role is not in the catalog. Otherwise it appends one player and leaves earlier players unchanged. The new id is "player-(length + 1)", and that id is selected. The six skills are the canonical names in order, at the reset state, totalling 41. |
| App.SeedSkills | src/App.tsx:73-80 | The six canonical names in order. Each value is 11 for the boosted skill and 6 otherwise. |
| App.SeedTotal | src/App.tsx:73-80 | When the boosted skill is a canonical name, the seeded values total 41. |
| App.SeedIsReset | src/App.tsx:72-80 | Seeding for a catalog role gives exactly what resetSkills gives for that role. |
| App.SeedHolds41 | src/App.tsx:72-80 | A character seeded for a catalog role holds 41 points. |
| App.SubmittedPlayerValid | src/App.tsx:72-80 | A newly created character satisfies the engine's invariant for every budget from 85 to 89. |
| App.UpdatePlayer | src/App.tsx:61-65 | Every player with the updated id is replaced, and all others are unchanged. Length, order and ids are preserved. |
| App.FindPlayer | src/App.tsx:92 | Returns None exactly when no player has the id. Otherwise it returns the FIRST player with that id: no earlier player has it. |
| App.UpdateThenFind | src/App.tsx:61-65 | After a replacement, looking up the id yields the updated player when the id was listed, and nothing otherwise. |
| App.PositionalIdsKept | src/App.tsx:71-87 | Creation and replacement both keep ids positional. A new player's id is carried by no earlier player. |
| SkillInput.HandleInputBlur | src/components/SkillInput/SkillInput.tsx:36-48 | The shown value lies in [6, 30]. It is the clamped parse, or the clamped current value when parsing fails. A change is committed exactly when the shown value differs from the current value, and the commit is the shown value. |
| SkillInput.UnparseableNeverCommits | src/components/SkillInput/SkillInput.tsx:37-47 | Unparseable text over an in-range value shows that value and commits nothing. |
| SkillInput.BlurCommitKeepsInvariant | src/components/SkillInput/SkillInput.tsx:45-47 | A committed blur passed through updateSkill keeps the engine's invariant. The skill stays at or above its effective minimum, 11 when boosted. |
| SkillInput.BoostedFloorExample | src/components/SkillInput/SkillInput.tsx:41-46 | Typing 7 into a Warrior's Strength at 15 commits 7, and the engine stores 11. |

## Left out

- `Math.random`: the budget draw (`getRandomTotalPoints`) becomes the `Budget` type, a whole number from 85 to 89, passed as a parameter. The random index in `randomizeSkills` becomes an arbitrary choice among skills still below 30. A draw that lands on a full skill is retried without effect in the program, so the retries are not modelled. Nothing is said about the distribution of outcomes.
- PlayerSkills.RandomizeSkills: requires budget at most 30 times the number of skills. Without it, the program's loop never ends, or it throws on an empty skill list. Every minimum is at most 30, so this is the same as requiring that the capacity above the minimums covers the points still to hand out.
- React state and effects (`useState`, `useMemo`, `useCallback`, `useEffect`) and the syncing in `PlayerSheet`: each operation is a pure function from one state to the next. The button disable flags in `PlayerSheet` mirror the guards in `IncrementSkill` and `DecrementSkill`.
- `parseInt` and `toString`: the parse result is an `Option<int>` input. The text shown after a blur is modelled as the number it renders.
- JavaScript numbers are doubles. All values here stay small whole numbers, so unbounded integers are exact.
- `handleSelectPlayer`, `modal.close` and the list and modal components, `useModal` included: they set a flag or a selected id, or render markup.
- The unused `initialPlayers` array, and the initial selected id derived from it. The role table repeated in three files is modelled once, as `Roles.Catalog`.
