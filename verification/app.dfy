/**
 * The application shell around the engine: the player list, the creation of
 * a new character seeded at its role's minimums, and the replacement of an
 * edited character in the list.
 */
module App {
  import opened Wrappers
  import opened Types
  import opened Roles
  import opened PlayerSkills

  /** The list of players and the id of the selected one. */
  datatype AppState = AppState(players: seq<Player>, selectedId: Option<string>)

  /** The decimal digits of `n`, most significant first, as `${n}` prints it. */
  function NatToString(n: nat): (s: string)
    ensures |s| >= 1
    ensures forall k :: 0 <= k < |s| ==> '0' <= s[k] <= '9'
    decreases n
  {
    if n < 10 then ['0' + (n as char)]
    else NatToString(n / 10) + ['0' + ((n % 10) as char)]
  }

  /** Different numbers print differently. */
  lemma {:induction false} NatToStringInjective(a: nat, b: nat)
    requires NatToString(a) == NatToString(b)
    ensures a == b
  {
    var s := NatToString(a);
    if a < 10 && b < 10 {
      assert s[0] == '0' + (a as char) && s[0] == '0' + (b as char);
    } else if a >= 10 && b >= 10 {
      var x, y := NatToString(a / 10), NatToString(b / 10);
      assert s[|s| - 1] == '0' + ((a % 10) as char) && s[|s| - 1] == '0' + ((b % 10) as char);
      assert s[..|s| - 1] == x && s[..|s| - 1] == y;
      NatToStringInjective(a / 10, b / 10);
    }
  }

  /** The id given to the `n`-th player: "player-n". */
  function PlayerId(n: nat): (id: string)
    ensures |id| > 7 && id[..7] == "player-"
    ensures forall k :: 7 <= k < |id| ==> '0' <= id[k] <= '9'
  {
    "player-" + NatToString(n)
  }

  /** Ids of different positions differ. */
  lemma PlayerIdInjective(a: nat, b: nat)
    requires PlayerId(a) == PlayerId(b)
    ensures a == b
  {
    var prefix := "player-";
    assert PlayerId(a)[|prefix|..] == NatToString(a);
    assert PlayerId(b)[|prefix|..] == NatToString(b);
    NatToStringInjective(a, b);
  }

  /** The six skills of a new character whose role boosts `boosted`. */
  function SeedSkills(boosted: string): (s: seq<Skill>)
    ensures |s| == |SkillNames|
    ensures forall k :: 0 <= k < |s| ==> s[k].name == SkillNames[k]
    ensures forall k :: 0 <= k < |s| ==> s[k].value == if SkillNames[k] == boosted then 11 else 6
  {
    [ Skill("Strength", if boosted == "Strength" then 11 else 6),
      Skill("Agility", if boosted == "Agility" then 11 else 6),
      Skill("Intelligence", if boosted == "Intelligence" then 11 else 6),
      Skill("Charisma", if boosted == "Charisma" then 11 else 6),
      Skill("Endurance", if boosted == "Endurance" then 11 else 6),
      Skill("Luck", if boosted == "Luck" then 11 else 6) ]
  }

  /** The total of a six-skill list, spelled out. */
  lemma TotalOfSix(s: seq<Skill>)
    requires |s| == 6
    ensures Total(s) == s[0].value + s[1].value + s[2].value + s[3].value + s[4].value + s[5].value
  {
    assert s[..5][..4] == s[..4] && s[..4][..3] == s[..3] && s[..3][..2] == s[..2];
    assert s[..2][..1] == s[..1] && s[..1][..0] == [];
    assert Total(s[..1]) == s[0].value;
    assert Total(s[..2]) == Total(s[..1]) + s[1].value;
    assert Total(s[..3]) == Total(s[..2]) + s[2].value;
    assert Total(s[..4]) == Total(s[..3]) + s[3].value;
    assert Total(s[..5]) == Total(s[..4]) + s[4].value;
  }

  /**
   * handleModalSubmit(name, role): append a new character seeded at its role's
   * minimums and select it. A role missing from the catalog makes the source's
   * non-null assertion on `roles.find` fail when `boostedSkill` is read.
   */
  function SubmitPlayer(st: AppState, name: string, role: string): (r: Result<AppState, Fault>)
    ensures r.Err? <==> forall k :: 0 <= k < |Catalog| ==> Catalog[k].name != role
    ensures r.Ok? ==> |r.value.players| == |st.players| + 1
    ensures r.Ok? ==> r.value.players[..|st.players|] == st.players
    ensures r.Ok? ==>
              var np := r.value.players[|st.players|];
              && np.id == PlayerId(|st.players| + 1)
              && np.name == name && np.role == role
              && r.value.selectedId == Some(np.id)
    ensures r.Ok? ==>
              var np := r.value.players[|st.players|];
              && |np.skills| == |SkillNames|
              && (forall k :: 0 <= k < |SkillNames| ==> np.skills[k].name == SkillNames[k])
              && ResetSkills(np) == np
              && Total(np.skills) == 41
  {
    var newId := PlayerId(|st.players| + 1);
    var roleObj := FindRole(Catalog, role);
    if roleObj.None? then
      Err(MissingRole)
    else
      var skills := SeedSkills(roleObj.value.boostedSkill);
      var newPlayer := Player(newId, name, role, skills);
      SeedIsReset(newPlayer, roleObj.value.boostedSkill);
      SeedHolds41(newPlayer, roleObj.value.boostedSkill);
      Ok(AppState(st.players + [newPlayer], Some(newId)))
  }

  /** Seeding for a canonical boosted skill gives one 11 and five 6s: 41 points. */
  lemma SeedTotal(boosted: string)
    requires boosted in SkillNames
    ensures Total(SeedSkills(boosted)) == 41
  {
    var s := SeedSkills(boosted);
    TotalOfSix(s);
    var k :| 0 <= k < 6 && SkillNames[k] == boosted;
    assert s[k].value == 11;
    assert forall j :: 0 <= j < 6 && j != k ==> s[j].name != boosted;
  }

  /** A seeded character is at its reset state. */
  lemma SeedIsReset(np: Player, boosted: string)
    requires BoostedSkill(np.role) == Some(boosted) && np.skills == SeedSkills(boosted)
    ensures ResetSkills(np) == np
  {
    forall k | 0 <= k < |np.skills|
      ensures ResetSkills(np).skills[k] == np.skills[k]
    {
      EffMinOfBoosted(np.role, boosted, np.skills[k].name);
    }
    assert ResetSkills(np).skills == np.skills;
  }

  /** A character seeded for a catalog role holds 41 points. */
  lemma SeedHolds41(np: Player, boosted: string)
    requires BoostedSkill(np.role) == Some(boosted) && np.skills == SeedSkills(boosted)
    ensures Total(np.skills) == 41
  {
    CatalogWellFormed();
    BoostedSkillSpec(np.role, boosted);
    SeedTotal(boosted);
  }

  /** A freshly created character satisfies the engine's invariant for every budget. */
  lemma SubmittedPlayerValid(st: AppState, name: string, role: string, budget: Budget)
    requires SubmitPlayer(st, name, role).Ok?
    ensures Valid(SubmitPlayer(st, name, role).value.players[|st.players|], budget)
  {
    var np := SubmitPlayer(st, name, role).value.players[|st.players|];
    assert InBounds(ResetSkills(np));
  }

  /** handleUpdatePlayer(updated): replace every player carrying the updated player's id. */
  function UpdatePlayer(players: seq<Player>, updated: Player): (r: seq<Player>)
    ensures |r| == |players|
    ensures forall k :: 0 <= k < |players| ==> r[k].id == players[k].id
    ensures forall k :: 0 <= k < |players| && players[k].id != updated.id ==> r[k] == players[k]
    ensures forall k :: 0 <= k < |players| && players[k].id == updated.id ==> r[k] == updated
  {
    seq(|players|, k requires 0 <= k < |players| => if players[k].id == updated.id then updated else players[k])
  }

  /** `players.find(p => p.id === id)`: the first player with that id. */
  function FindPlayer(players: seq<Player>, id: string): (r: Option<Player>)
    ensures r.None? <==> forall k :: 0 <= k < |players| ==> players[k].id != id
    ensures r.Some? ==> r.value.id == id && r.value in players
    ensures r.Some? ==> exists k :: 0 <= k < |players| && players[k] == r.value
                                    && forall j :: 0 <= j < k ==> players[j].id != id
  {
    if |players| == 0 then None
    else if players[0].id == id then Some(players[0])
    else
      var r := FindPlayer(players[1..], id);
      assert forall k :: 0 <= k < |players[1..]| ==> players[1..][k] == players[k + 1];
      r
  }

  /** After an update, looking up its id yields the updated player, if the id was listed. */
  lemma {:induction false} UpdateThenFind(players: seq<Player>, updated: Player)
    ensures FindPlayer(UpdatePlayer(players, updated), updated.id)
              == if FindPlayer(players, updated.id).Some? then Some(updated) else None
  {
    if |players| > 0 && players[0].id != updated.id {
      UpdateThenFind(players[1..], updated);
      assert UpdatePlayer(players, updated)[1..] == UpdatePlayer(players[1..], updated);
    }
  }

  /** Every player's id is "player-" followed by its one-based position. */
  ghost predicate PositionalIds(players: seq<Player>)
  {
    forall k :: 0 <= k < |players| ==> players[k].id == PlayerId(k + 1)
  }

  /**
   * Creation and update both keep ids positional, so ids stay distinct and the
   * id of a new player is one no earlier player carries.
   */
  lemma PositionalIdsKept(st: AppState, name: string, role: string, updated: Player)
    requires PositionalIds(st.players)
    ensures PositionalIds(UpdatePlayer(st.players, updated))
    ensures SubmitPlayer(st, name, role).Ok? ==> PositionalIds(SubmitPlayer(st, name, role).value.players)
    ensures SubmitPlayer(st, name, role).Ok? ==>
              forall k :: 0 <= k < |st.players| ==> st.players[k].id != PlayerId(|st.players| + 1)
  {
    var r := SubmitPlayer(st, name, role);
    if r.Ok? {
      var ps := r.value.players;
      forall k | 0 <= k < |ps|
        ensures ps[k].id == PlayerId(k + 1)
      {
        if k < |st.players| {
          assert ps[k] == ps[..|st.players|][k];
        }
      }
      forall k | 0 <= k < |st.players|
        ensures st.players[k].id != PlayerId(|st.players| + 1)
      {
        if st.players[k].id == PlayerId(|st.players| + 1) {
          PlayerIdInjective(k + 1, |st.players| + 1);
        }
      }
    }
  }
}
