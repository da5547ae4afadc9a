/**
 * The skill-allocation engine: per-skill minimums, the point totals, and the
 * operations that change one skill or all of them while keeping every value
 * inside its bounds and the sum inside the session budget.
 */
module PlayerSkills {
  import opened Wrappers
  import opened Types
  import opened Roles
  import opened Clamping

  const MinSkill := 6
  const MaxSkill := 30
  const BoostedMin := 11

  /** MAX_TOTAL_POINTS: drawn once per editing session from 85..89. */
  type Budget = b: int | 85 <= b <= 89 witness 85

  // ---------------------------------------------------------------------------
  // Minimums, totals and the invariant
  // ---------------------------------------------------------------------------

  /** getMinForSkill: the effective minimum of a skill for a character of role `role`. */
  function EffMin(role: string, skillName: string): (m: int)
    ensures m == MinSkill || m == BoostedMin
  {
    if BoostedSkill(role) == Some(skillName) then BoostedMin else MinSkill
  }

  /**
   * The minimum is 11 exactly when the catalog pairs the role with the skill,
   * and 6 otherwise.
   */
  lemma EffMinSpec(role: string, skillName: string)
    ensures EffMin(role, skillName) == BoostedMin <==> Role(role, skillName) in Catalog
    ensures EffMin(role, skillName) == MinSkill <==> Role(role, skillName) !in Catalog
  {
    BoostedSkillSpec(role, skillName);
  }

  /** Once the role's boosted skill is known, the minimum is 11 for it and 6 for every other skill. */
  lemma EffMinOfBoosted(role: string, boosted: string, skillName: string)
    requires BoostedSkill(role) == Some(boosted)
    ensures EffMin(role, skillName) == if skillName == boosted then BoostedMin else MinSkill
  {
  }

  /** A role that is not in the catalog, the empty role included, boosts nothing. */
  lemma UnknownRoleUnboosted(role: string, skillName: string)
    requires forall k :: 0 <= k < |Catalog| ==> Catalog[k].name != role
    ensures EffMin(role, skillName) == MinSkill
  {
    BoostedSkillSpec(role, skillName);
  }

  /** totalPoints: the sum of all skill values, folded from the left. */
  function Total(s: seq<Skill>): (r: int)
    ensures (forall k :: 0 <= k < |s| ==> MinSkill <= s[k].value <= MaxSkill) ==>
              MinSkill * |s| <= r <= MaxSkill * |s|
  {
    if |s| == 0 then 0 else Total(s[..|s| - 1]) + s[|s| - 1].value
  }

  /** remainingPoints: what is left of the budget; negative if the sum already exceeds it. */
  function RemainingPoints(p: Player, budget: Budget): (r: int)
    ensures r >= 0 <==> Total(p.skills) <= budget
    ensures InBounds(p) ==> r <= budget - MinSkill * |p.skills|
  {
    budget - Total(p.skills)
  }

  /** Every skill lies between its effective minimum and MAX_SKILL_POINTS. */
  ghost predicate InBounds(p: Player)
  {
    forall k :: 0 <= k < |p.skills| ==>
      EffMin(p.role, p.skills[k].name) <= p.skills[k].value <= MaxSkill
  }

  /** The engine's invariant: every skill in bounds and the sum within the budget. */
  ghost predicate Valid(p: Player, budget: Budget)
  {
    InBounds(p) && Total(p.skills) <= budget
  }

  /** Replacing one value changes the total by exactly the difference. */
  lemma {:induction false} TotalReplace(s: seq<Skill>, i: int, v: int)
    requires 0 <= i < |s|
    ensures Total(s[i := s[i].(value := v)]) == Total(s) - s[i].value + v
  {
    var t := s[i := s[i].(value := v)];
    if i == |s| - 1 {
      assert t[..|t| - 1] == s[..|s| - 1];
    } else {
      assert t[..|t| - 1] == s[..|s| - 1][i := s[i].(value := v)];
      TotalReplace(s[..|s| - 1], i, v);
    }
  }

  /** A list whose values are pointwise no larger has no larger total. */
  lemma {:induction false} TotalMonotone(s: seq<Skill>, t: seq<Skill>)
    requires |s| == |t|
    requires forall k :: 0 <= k < |s| ==> s[k].value <= t[k].value
    ensures Total(s) <= Total(t)
  {
    if |s| > 0 {
      TotalMonotone(s[..|s| - 1], t[..|t| - 1]);
    }
  }

  /** A total below `MaxSkill * |s|` leaves some skill below MAX_SKILL_POINTS. */
  lemma {:induction false} HeadroomWitness(s: seq<Skill>)
    requires Total(s) < MaxSkill * |s|
    ensures exists k :: 0 <= k < |s| && s[k].value < MaxSkill
  {
    if s[|s| - 1].value >= MaxSkill {
      HeadroomWitness(s[..|s| - 1]);
      var k :| 0 <= k < |s| - 1 && s[..|s| - 1][k].value < MaxSkill;
      assert s[k].value < MaxSkill;
    }
  }

  /** Under the invariant the boosted skill of the role never drops below 11. */
  lemma BoostFloor(p: Player, budget: Budget, k: int)
    requires Valid(p, budget)
    requires 0 <= k < |p.skills| && BoostedSkill(p.role) == Some(p.skills[k].name)
    ensures p.skills[k].value >= BoostedMin
  {
  }

  // ---------------------------------------------------------------------------
  // updateSkill
  // ---------------------------------------------------------------------------

  /**
   * The value updateSkill stores: the request clamped to the skill's bounds,
   * with an increase beyond the remaining budget cut back to what is left.
   */
  function ValidatedValue(minimum: int, current: int, remaining: int, requested: int): (v: int)
    requires minimum <= MaxSkill
    ensures minimum <= v <= MaxSkill
    // a decrease is never limited by the budget
    ensures Clamp(minimum, MaxSkill, requested) <= current ==> v == Clamp(minimum, MaxSkill, requested)
    // an affordable increase is granted in full
    ensures current < Clamp(minimum, MaxSkill, requested) <= current + remaining ==>
              v == Clamp(minimum, MaxSkill, requested)
    // an unaffordable increase from a valid state uses up exactly what is left
    ensures minimum <= current && 0 <= remaining && current + remaining < Clamp(minimum, MaxSkill, requested) ==>
              v == current + remaining
  {
    var validated := Clamp(minimum, MaxSkill, requested);
    var difference := validated - current;
    if difference > 0 && difference > remaining then
      Clamp(minimum, MaxSkill, current + remaining)
    else
      validated
  }

  /** updateSkill(index, newValue): change the one addressed skill, keeping the rules. */
  function UpdateSkill(p: Player, budget: Budget, i: int, requested: int): (r: Player)
    ensures !(0 <= i < |p.skills|) ==> r == p
    ensures r.id == p.id && r.name == p.name && r.role == p.role
    ensures |r.skills| == |p.skills|
    ensures forall k :: 0 <= k < |p.skills| ==> r.skills[k].name == p.skills[k].name
    ensures forall k :: 0 <= k < |p.skills| && k != i ==> r.skills[k] == p.skills[k]
    ensures 0 <= i < |p.skills| ==>
              EffMin(p.role, p.skills[i].name) <= r.skills[i].value <= MaxSkill
    ensures 0 <= i < |p.skills| ==>
              r.skills[i].value == ValidatedValue(EffMin(p.role, p.skills[i].name), p.skills[i].value,
                                                  RemainingPoints(p, budget), requested)
  {
    if 0 <= i < |p.skills| then
      var current := p.skills[i];
      var v := ValidatedValue(EffMin(p.role, current.name), current.value, RemainingPoints(p, budget), requested);
      p.(skills := p.skills[i := current.(value := v)])
    else
      p
  }

  /** updateSkill keeps the invariant, whatever value is requested. */
  lemma UpdateSkillPreservesValid(p: Player, budget: Budget, i: int, requested: int)
    requires Valid(p, budget)
    ensures Valid(UpdateSkill(p, budget, i, requested), budget)
  {
    if 0 <= i < |p.skills| {
      var r := UpdateSkill(p, budget, i, requested);
      TotalReplace(p.skills, i, r.skills[i].value);
      assert r.skills == p.skills[i := p.skills[i].(value := r.skills[i].value)];
    }
  }

  /**
   * From a valid state, updateSkill stores the admissible value nearest to the
   * request: admissible values are those in the skill's bounds that keep the
   * sum within the budget.
   */
  lemma UpdateSkillNearest(p: Player, budget: Budget, i: int, requested: int, w: int)
    requires Valid(p, budget) && 0 <= i < |p.skills|
    requires EffMin(p.role, p.skills[i].name) <= w <= MaxSkill
    requires Total(p.skills) - p.skills[i].value + w <= budget
    ensures var v := UpdateSkill(p, budget, i, requested).skills[i].value;
            (if v <= requested then requested - v else v - requested)
              <= (if w <= requested then requested - w else w - requested)
  {
    var m := EffMin(p.role, p.skills[i].name);
    var cur := p.skills[i].value;
    var rem := RemainingPoints(p, budget);
    var upper := if cur + rem < MaxSkill then cur + rem else MaxSkill;
    ClampIsNearest(m, upper, requested, w);
  }

  /**
   * An increase beyond the remaining budget is cut to exactly use it up, or to
   * MAX_SKILL_POINTS if that comes first.
   */
  lemma UpdateSkillExhaustsBudget(p: Player, budget: Budget, i: int, requested: int)
    requires 0 <= i < |p.skills| && EffMin(p.role, p.skills[i].name) <= p.skills[i].value
    requires 0 <= RemainingPoints(p, budget) && p.skills[i].value + RemainingPoints(p, budget) < requested
    ensures var capped := p.skills[i].value + RemainingPoints(p, budget);
            UpdateSkill(p, budget, i, requested).skills[i].value == if capped <= MaxSkill then capped else MaxSkill
    ensures p.skills[i].value + RemainingPoints(p, budget) <= MaxSkill ==>
              Total(UpdateSkill(p, budget, i, requested).skills) == budget
  {
    var r := UpdateSkill(p, budget, i, requested);
    TotalReplace(p.skills, i, r.skills[i].value);
    assert r.skills == p.skills[i := p.skills[i].(value := r.skills[i].value)];
  }

  // ---------------------------------------------------------------------------
  // incrementSkill and decrementSkill
  // ---------------------------------------------------------------------------

  /** incrementSkill(index): one point up, guarded by the budget and the maximum. */
  function IncrementSkill(p: Player, budget: Budget, i: int): (r: Result<Player, Fault>)
    ensures Total(p.skills) >= budget ==> r == Ok(p)
    ensures r.Err? <==> Total(p.skills) < budget && !(0 <= i < |p.skills|)
    ensures 0 <= i < |p.skills| && p.skills[i].value >= MaxSkill ==> r == Ok(p)
    ensures Valid(p, budget) && 0 <= i < |p.skills| && Total(p.skills) < budget && p.skills[i].value < MaxSkill ==>
              r.Ok? && r.value.skills == p.skills[i := p.skills[i].(value := p.skills[i].value + 1)]
  {
    if Total(p.skills) < budget then
      if 0 <= i < |p.skills| then
        var current := p.skills[i];
        if current.value < MaxSkill then Ok(UpdateSkill(p, budget, i, current.value + 1)) else Ok(p)
      else
        Err(MissingSkill)
    else
      Ok(p)
  }

  /** decrementSkill(index): one point down, guarded by the effective minimum. */
  function DecrementSkill(p: Player, budget: Budget, i: int): (r: Result<Player, Fault>)
    ensures r.Err? <==> !(0 <= i < |p.skills|)
    ensures 0 <= i < |p.skills| && p.skills[i].value <= EffMin(p.role, p.skills[i].name) ==> r == Ok(p)
    ensures 0 <= i < |p.skills| && EffMin(p.role, p.skills[i].name) < p.skills[i].value <= MaxSkill + 1 ==>
              r.Ok? && r.value.skills == p.skills[i := p.skills[i].(value := p.skills[i].value - 1)]
  {
    if 0 <= i < |p.skills| then
      var current := p.skills[i];
      if current.value > EffMin(p.role, current.name) then Ok(UpdateSkill(p, budget, i, current.value - 1))
      else Ok(p)
    else
      Err(MissingSkill)
  }

  /** A step that succeeds keeps the invariant. */
  lemma StepsPreserveValid(p: Player, budget: Budget, i: int)
    requires Valid(p, budget)
    ensures IncrementSkill(p, budget, i).Ok? ==> Valid(IncrementSkill(p, budget, i).value, budget)
    ensures DecrementSkill(p, budget, i).Ok? ==> Valid(DecrementSkill(p, budget, i).value, budget)
  {
    if 0 <= i < |p.skills| {
      UpdateSkillPreservesValid(p, budget, i, p.skills[i].value + 1);
      UpdateSkillPreservesValid(p, budget, i, p.skills[i].value - 1);
    }
  }

  /** From a valid state, an increment adds at most one point and a decrement removes at most one. */
  lemma StepsMoveTotalByOne(p: Player, budget: Budget, i: int)
    requires Valid(p, budget)
    ensures IncrementSkill(p, budget, i).Ok? ==>
              Total(p.skills) <= Total(IncrementSkill(p, budget, i).value.skills) <= Total(p.skills) + 1
    ensures DecrementSkill(p, budget, i).Ok? ==>
              Total(p.skills) - 1 <= Total(DecrementSkill(p, budget, i).value.skills) <= Total(p.skills)
  {
    if 0 <= i < |p.skills| {
      TotalReplace(p.skills, i, p.skills[i].value + 1);
      TotalReplace(p.skills, i, p.skills[i].value - 1);
    }
  }

  /**
   * The increment guard is not needed for correctness: from a valid state, an
   * increment of an existing skill ends exactly where the unguarded updateSkill would.
   */
  lemma IncrementGuardRedundant(p: Player, budget: Budget, i: int)
    requires Valid(p, budget) && 0 <= i < |p.skills|
    ensures IncrementSkill(p, budget, i) == Ok(UpdateSkill(p, budget, i, p.skills[i].value + 1))
  {
    var s := p.skills[i];
    var m := EffMin(p.role, s.name);
    assert m <= s.value <= MaxSkill;
    if Total(p.skills) >= budget || s.value >= MaxSkill {
      var rem := RemainingPoints(p, budget);
      assert ValidatedValue(m, s.value, rem, s.value + 1) == s.value;
      assert p.skills[i := s.(value := s.value)] == p.skills;
    }
  }

  /** Likewise the decrement guard: the unguarded update from the minimum stays put. */
  lemma DecrementGuardRedundant(p: Player, budget: Budget, i: int)
    requires Valid(p, budget) && 0 <= i < |p.skills|
    ensures DecrementSkill(p, budget, i) == Ok(UpdateSkill(p, budget, i, p.skills[i].value - 1))
  {
    var s := p.skills[i];
    if s.value <= EffMin(p.role, s.name) {
      assert ValidatedValue(EffMin(p.role, s.name), s.value, RemainingPoints(p, budget), s.value - 1) == s.value;
      assert p.skills[i := s.(value := s.value)] == p.skills;
    }
  }

  // ---------------------------------------------------------------------------
  // resetSkills and randomizeSkills
  // ---------------------------------------------------------------------------

  /** The skills of `s` with every value at its effective minimum for `role`. */
  function AtMinimum(role: string, s: seq<Skill>): (t: seq<Skill>)
    ensures |t| == |s|
    ensures forall k :: 0 <= k < |s| ==> t[k].name == s[k].name
    ensures forall k :: 0 <= k < |s| ==> t[k].value == EffMin(role, s[k].name)
  {
    seq(|s|, k requires 0 <= k < |s| => s[k].(value := EffMin(role, s[k].name)))
  }

  /** resetSkills: every skill back to its effective minimum, nothing else touched. */
  function ResetSkills(p: Player): (r: Player)
    ensures r.id == p.id && r.name == p.name && r.role == p.role
    ensures |r.skills| == |p.skills|
    ensures forall k :: 0 <= k < |p.skills| ==> r.skills[k].name == p.skills[k].name
    ensures forall k :: 0 <= k < |p.skills| ==> r.skills[k].value == EffMin(p.role, p.skills[k].name)
    ensures InBounds(r)
  {
    p.(skills := AtMinimum(p.role, p.skills))
  }

  /** Resetting twice is resetting once. */
  lemma ResetIdempotent(p: Player)
    ensures ResetSkills(ResetSkills(p)) == ResetSkills(p)
  {
    assert ResetSkills(ResetSkills(p)).skills == ResetSkills(p).skills;
  }

  /**
   * The reset state is the least in-bounds state: every in-bounds character
   * with the same role and skill names is pointwise at or above it, so its
   * total is the smallest, and it is valid whenever any such state is.
   */
  lemma ResetIsLeast(p: Player, q: Player, budget: Budget)
    requires InBounds(q) && q.role == p.role && |q.skills| == |p.skills|
    requires forall k :: 0 <= k < |p.skills| ==> q.skills[k].name == p.skills[k].name
    ensures forall k :: 0 <= k < |p.skills| ==> ResetSkills(p).skills[k].value <= q.skills[k].value
    ensures Total(ResetSkills(p).skills) <= Total(q.skills)
    ensures Valid(q, budget) ==> Valid(ResetSkills(p), budget)
  {
    TotalMonotone(ResetSkills(p).skills, q.skills);
  }

  /** `skills` keeps the names of `p`'s skills and holds each within its bounds. */
  ghost predicate Distributed(p: Player, skills: seq<Skill>)
  {
    && |skills| == |p.skills|
    && (forall k :: 0 <= k < |skills| ==> skills[k].name == p.skills[k].name)
    && (forall k :: 0 <= k < |skills| ==> EffMin(p.role, skills[k].name) <= skills[k].value <= MaxSkill)
  }

  /** Raising one skill below MAX_SKILL_POINTS by a point keeps it distributed and adds one to the total. */
  lemma RaiseOne(p: Player, skills: seq<Skill>, i: int)
    requires Distributed(p, skills) && 0 <= i < |skills| && skills[i].value < MaxSkill
    ensures Distributed(p, skills[i := skills[i].(value := skills[i].value + 1)])
    ensures Total(skills[i := skills[i].(value := skills[i].value + 1)]) == Total(skills) + 1
  {
    TotalReplace(skills, i, skills[i].value + 1);
  }

  /**
   * randomizeSkills: reset, then hand out the rest of the budget one point at
   * a time to some skill still below MAX_SKILL_POINTS. The random index is an
   * arbitrary choice among those skills.
   */
  method RandomizeSkills(p: Player, budget: Budget) returns (r: Player)
    requires budget <= MaxSkill * |p.skills|
    ensures r.id == p.id && r.name == p.name && r.role == p.role
    ensures |r.skills| == |p.skills|
    ensures forall k :: 0 <= k < |p.skills| ==> r.skills[k].name == p.skills[k].name
    ensures InBounds(r)
    ensures Total(ResetSkills(p).skills) <= budget ==> Total(r.skills) == budget
    ensures budget < Total(ResetSkills(p).skills) ==> r == ResetSkills(p)
  {
    var skills := AtMinimum(p.role, p.skills);
    var points := budget - Total(skills);
    while points > 0
      invariant Distributed(p, skills)
      invariant Total(skills) + points == budget
      invariant points >= 0 || skills == AtMinimum(p.role, p.skills)
      decreases points
    {
      HeadroomWitness(skills);
      var i :| 0 <= i < |skills| && skills[i].value < MaxSkill;
      RaiseOne(p, skills, i);
      skills := skills[i := skills[i].(value := skills[i].value + 1)];
      points := points - 1;
    }
    r := p.(skills := skills);
  }

  // ---------------------------------------------------------------------------
  // Sequences of edits
  // ---------------------------------------------------------------------------

  /** One deterministic edit a user can make on the character sheet. */
  datatype Edit =
    | SetValue(index: int, requested: int)
    | Increment(index: int)
    | Decrement(index: int)
    | Reset

  /** Apply one edit; a TypeError is returned as its fault. */
  function ApplyEdit(p: Player, budget: Budget, e: Edit): Result<Player, Fault>
  {
    match e
    case SetValue(i, v) => Ok(UpdateSkill(p, budget, i, v))
    case Increment(i) => IncrementSkill(p, budget, i)
    case Decrement(i) => DecrementSkill(p, budget, i)
    case Reset => Ok(ResetSkills(p))
  }

  /** Apply edits in order; the model stops at the first fault. */
  function RunEdits(p: Player, budget: Budget, edits: seq<Edit>): Result<Player, Fault>
    decreases |edits|
  {
    if |edits| == 0 then Ok(p)
    else
      match ApplyEdit(p, budget, edits[0])
      case Ok(q) => RunEdits(q, budget, edits[1..])
      case Err(f) => Err(f)
  }

  /** A single edit from a valid state ends in a valid state, or in a fault. */
  lemma ApplyEditPreservesValid(p: Player, budget: Budget, e: Edit)
    requires Valid(p, budget)
    ensures ApplyEdit(p, budget, e).Ok? ==> Valid(ApplyEdit(p, budget, e).value, budget)
  {
    match e
    case SetValue(i, v) => UpdateSkillPreservesValid(p, budget, i, v);
    case Increment(i) => StepsPreserveValid(p, budget, i);
    case Decrement(i) => StepsPreserveValid(p, budget, i);
    case Reset => ResetIsLeast(p, p, budget);
  }

  /** Every sequence of edits from a valid state ends in a valid state, or in a fault. */
  lemma {:induction false} RunEditsPreservesValid(p: Player, budget: Budget, edits: seq<Edit>)
    requires Valid(p, budget)
    ensures RunEdits(p, budget, edits).Ok? ==> Valid(RunEdits(p, budget, edits).value, budget)
    decreases |edits|
  {
    if |edits| > 0 {
      var step := ApplyEdit(p, budget, edits[0]);
      ApplyEditPreservesValid(p, budget, edits[0]);
      if step.Ok? {
        RunEditsPreservesValid(step.value, budget, edits[1..]);
      }
    }
  }
}
