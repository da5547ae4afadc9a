/** The records of the editor: skills, roles and players. */
module Types {

  /** One named skill and its current number of points. */
  datatype Skill = Skill(name: string, value: int)

  /** A role names the one skill whose minimum it raises. */
  datatype Role = Role(name: string, boostedSkill: string)

  /** A character: the role is held by name only, and may be empty or unknown. */
  datatype Player = Player(id: string, name: string, role: string, skills: seq<Skill>)

  /** The TypeErrors the editor throws when a lookup yields `undefined`. */
  datatype Fault =
    | MissingSkill   // `.value` read from a skill index that addresses no skill
    | MissingRole    // `.boostedSkill` read from a role name that is not in the catalog
}
