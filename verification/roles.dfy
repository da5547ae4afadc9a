/** The role catalog: one static table shared by the engine and by character creation. */
module Roles {
  import opened Wrappers
  import opened Types

  /** The six roles, each boosting a different skill. */
  const Catalog: seq<Role> := [
    Role("Warrior", "Strength"),
    Role("Rogue", "Agility"),
    Role("Sage", "Intelligence"),
    Role("Leader", "Charisma"),
    Role("Survivor", "Endurance"),
    Role("Gambler", "Luck")
  ]

  /** The six canonical skill names, in the order a new character lists them. */
  const SkillNames: seq<string> := ["Strength", "Agility", "Intelligence", "Charisma", "Endurance", "Luck"]

  /** The first role of `roles` called `name`, as `Array.prototype.find` returns it. */
  function FindRole(roles: seq<Role>, name: string): (r: Option<Role>)
    ensures r.None? <==> forall k :: 0 <= k < |roles| ==> roles[k].name != name
    ensures r.Some? ==> r.value.name == name
    ensures r.Some? ==> exists k :: 0 <= k < |roles| && roles[k] == r.value
                                    && forall j :: 0 <= j < k ==> roles[j].name != name
  {
    if |roles| == 0 then None
    else if roles[0].name == name then Some(roles[0])
    else
      var r := FindRole(roles[1..], name);
      assert forall k :: 0 <= k < |roles[1..]| ==> roles[1..][k] == roles[k + 1];
      r
  }

  /** The catalog names every role once and boosts only canonical skills. */
  lemma CatalogWellFormed()
    ensures DistinctNames(Catalog)
    ensures forall i :: 0 <= i < |Catalog| ==> Catalog[i].boostedSkill in SkillNames
  {
  }

  /** The skill boosted by the role called `role`; `None` for an unknown or empty role. */
  function BoostedSkill(role: string): (b: Option<string>)
    ensures b.Some? ==> b.value in SkillNames
  {
    var r := FindRole(Catalog, role);
    CatalogWellFormed();
    if r.Some? then Some(r.value.boostedSkill) else None
  }

  /** Role names of `roles` are pairwise distinct. */
  ghost predicate DistinctNames(roles: seq<Role>)
  {
    forall i, j :: 0 <= i < j < |roles| ==> roles[i].name != roles[j].name
  }

  /** With distinct names, `find` by name yields a role exactly when that role is listed. */
  lemma FindRoleUnique(roles: seq<Role>, name: string, skill: string)
    requires DistinctNames(roles)
    ensures FindRole(roles, name) == Some(Role(name, skill)) <==> Role(name, skill) in roles
  {
    var r := FindRole(roles, name);
    if Role(name, skill) in roles {
      var j :| 0 <= j < |roles| && roles[j] == Role(name, skill);
      var k :| 0 <= k < |roles| && roles[k] == r.value && forall i :: 0 <= i < k ==> roles[i].name != name;
      assert k == j;
    }
  }

  /** A role boosts exactly the skill the catalog pairs it with, and unknown roles boost nothing. */
  lemma BoostedSkillSpec(role: string, skill: string)
    ensures BoostedSkill(role) == Some(skill) <==> Role(role, skill) in Catalog
    ensures BoostedSkill(role).None? <==> forall k :: 0 <= k < |Catalog| ==> Catalog[k].name != role
  {
    CatalogWellFormed();
    FindRoleUnique(Catalog, role, skill);
  }
}
