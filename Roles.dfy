/**
 * The role tags (`CustomRoles`) and the classification helpers that the
 * modelled files query: team, ghost-role and converted-add-on status.
 * The repository has hundreds of tags; the model names only those the core
 * files mention and folds every other tag into `Other`, whose fields carry
 * the classification the repository's role helpers would report for it.
 */
module Roles {
  /** A player identifier is a byte in the modelled code. */
  type PlayerId = b: int | 0 <= b < 256

  datatype Team = Crewmate | Impostor | Neutral | AddOn

  datatype Role =
    | NotAssigned
    | GM
    | Nemesis
    | Retributionist
    | Gravestone
    | Fool
    | Unlucky
    | SabotageMaster
    | Alchemist
    | Other(tag: nat, team: Team, ghostOnly: bool, converted: bool)

  function TeamOf(r: Role): Team
  {
    match r
    case NotAssigned => Neutral
    case GM => Neutral
    case Nemesis => Impostor
    case Retributionist => Crewmate
    case Gravestone => AddOn
    case Fool => AddOn
    case Unlucky => AddOn
    case SabotageMaster => Crewmate
    case Alchemist => Crewmate
    case Other(_, team, _, _) => team
  }

  predicate IsCrewmate(r: Role) { TeamOf(r) == Crewmate }

  predicate IsImpostor(r: Role) { TeamOf(r) == Impostor }

  /** Only roles folded into `Other` can be ghost roles; `NotAssigned` never is. */
  predicate IsGhostRole(r: Role) { r.Other? && r.ghostOnly }

  /** Converted add-ons (charmed, recruited, ...) mark a player as switched sides. */
  predicate IsConverted(r: Role) { r.Other? && r.converted }
}
