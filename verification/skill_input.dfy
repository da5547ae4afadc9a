/**
 * The value logic of the skill text field: when the field loses focus, the
 * typed number is clamped to the widget's own fixed range and committed to
 * the engine only if it differs from the current value.
 */
module SkillInput {
  import opened Wrappers
  import opened Types
  import opened Roles
  import opened Clamping
  import opened PlayerSkills

  /** The widget's own bounds; it knows nothing of the boosted minimum. */
  const InputMin := 6
  const InputMax := 30

  /** What a blur produces: the number shown in the field and the value passed on, if any. */
  datatype BlurResult = BlurResult(shown: int, commit: Option<int>)

  /**
   * handleInputBlur, given the result of `parseInt` on the field's text
   * (`None` for NaN) and the current value held by the engine.
   */
  function HandleInputBlur(parsed: Option<int>, value: int): (r: BlurResult)
    ensures InputMin <= r.shown <= InputMax
    ensures parsed.None? ==> r.shown == Clamp(InputMin, InputMax, value)
    ensures parsed.Some? ==> r.shown == Clamp(InputMin, InputMax, parsed.value)
    ensures r.commit.Some? <==> r.shown != value
    ensures r.commit.Some? ==> r.commit.value == r.shown
  {
    var numValue := if parsed.None? then value else parsed.value;
    var clamped := Clamp(InputMin, InputMax, numValue);
    BlurResult(clamped, if clamped != value then Some(clamped) else None)
  }

  /** Unparseable text over an in-range value shows that value and commits nothing. */
  lemma UnparseableNeverCommits(value: int)
    requires InputMin <= value <= InputMax
    ensures HandleInputBlur(None, value) == BlurResult(value, None)
  {
  }

  /**
   * Committing a blur through updateSkill keeps the engine's invariant, so the
   * boosted skill stays at 11 or more even though the field accepts 6 to 10.
   */
  lemma BlurCommitKeepsInvariant(p: Player, budget: Budget, i: int, parsed: Option<int>)
    requires Valid(p, budget) && 0 <= i < |p.skills|
    ensures var b := HandleInputBlur(parsed, p.skills[i].value);
            b.commit.Some? ==>
              var q := UpdateSkill(p, budget, i, b.commit.value);
              && Valid(q, budget)
              && q.skills[i].value >= EffMin(p.role, p.skills[i].name)
  {
    var b := HandleInputBlur(parsed, p.skills[i].value);
    if b.commit.Some? {
      UpdateSkillPreservesValid(p, budget, i, b.commit.value);
    }
  }

  /** Typing 7 into a Warrior's Strength at 15 commits 7, and the engine stores 11. */
  lemma BoostedFloorExample()
    ensures var p := Player("player-1", "Aragorn", "Warrior",
                            [Skill("Strength", 15), Skill("Agility", 6), Skill("Intelligence", 6),
                             Skill("Charisma", 6), Skill("Endurance", 6), Skill("Luck", 6)]);
            var b := HandleInputBlur(Some(7), 15);
            b.commit == Some(7) && UpdateSkill(p, 85, 0, 7).skills[0].value == 11
  {
    assert Role("Warrior", "Strength") == Catalog[0];
  }
}
