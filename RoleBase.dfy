/**
 * The neutral defaults every role inherits when it does not override a
 * hook: eligibility predicates, murder pre-checks, meeting and guess
 * checks, vote and flash defaults, and the default kill cooldown.
 *
 * A player reference that the default tests against null is an
 * `Option<PlayerView>`; a hook that dereferences its player takes a
 * `PlayerView` outright.
 */
module RoleBase {
  import opened Wrappers
  import opened Roles

  /** What the defaults look at: the player's id, whether their role type is Impostor, and liveness. */
  datatype PlayerView = PlayerView(id: PlayerId, isImpostorType: bool, alive: bool)

  // ---------------------------------------------------------------------------
  // Eligibility

  function CanUseKillButton(pc: PlayerView): (r: bool)
    ensures r <==> pc.isImpostorType && pc.alive
  {
    pc.isImpostorType && pc.alive
  }

  function CanUseImpostorVentButton(pc: PlayerView): (r: bool)
    ensures r <==> pc.isImpostorType && pc.alive
  {
    pc.isImpostorType && pc.alive
  }

  /** Unlike killing and venting, sabotage does not depend on being alive. */
  function CanUseSabotage(pc: PlayerView): (r: bool)
    ensures r <==> pc.isImpostorType
  {
    pc.isImpostorType
  }

  function OnSabotage(pc: Option<PlayerView>): (r: bool)
    ensures r <==> pc.Some?
  {
    pc.Some?
  }

  /** A player's movement component, known only by the player it belongs to. */
  datatype PlayerPhysics = PlayerPhysics(owner: PlayerId)

  /** `physics` is absent when the component no longer exists. */
  function CheckBootFromVent(physics: Option<PlayerPhysics>, ventId: int): (boot: bool)
    ensures boot <==> physics.None?
  {
    physics.None?
  }

  // ---------------------------------------------------------------------------
  // Murder pre-checks

  function ForcedCheckMurderAsKiller(killer: Option<PlayerView>, target: Option<PlayerView>): (r: bool)
    ensures r <==> killer.Some? && target.Some?
  {
    target.Some? && killer.Some?
  }

  function OnCheckMurderAsTarget(killer: Option<PlayerView>, target: Option<PlayerView>): (r: bool)
    ensures r <==> killer.Some? && target.Some?
  {
    target.Some? && killer.Some?
  }

  function CheckMurderOnOthersTarget(killer: Option<PlayerView>, target: Option<PlayerView>): (r: bool)
    ensures r <==> killer.Some? && target.Some?
  {
    target.Some? && killer.Some?
  }

  function OnCheckMurderAsKiller(killer: Option<PlayerView>, target: Option<PlayerView>): (r: bool)
    ensures r <==> killer.Some? && target.Some?
  {
    target.Some? && killer.Some?
  }

  function KillFlashCheck(killer: Option<PlayerView>, target: Option<PlayerView>, seer: Option<PlayerView>): (flash: bool)
    ensures !flash
  {
    false
  }

  // ---------------------------------------------------------------------------
  // Meetings and guessing

  function OnCheckStartMeeting(reporter: PlayerView): (r: bool)
    ensures r <==> reporter.alive
  {
    reporter.alive
  }

  /** The dead body and the killer play no part in the default. */
  function OnCheckReportDeadBody(reporter: PlayerView, deadBody: Option<PlayerId>, killer: Option<PlayerView>): (r: bool)
    ensures r <==> reporter.alive
  {
    reporter.alive
  }

  function GuessCheck(isUI: bool, guesser: Option<PlayerView>, target: Option<PlayerView>, role: Role): (r: bool)
    ensures r <==> target.None?
  {
    target.None?
  }

  /** Takes the target before the guesser, the reverse of `GuessCheck`. */
  function OnRoleGuess(isUI: bool, target: Option<PlayerView>, guesser: Option<PlayerView>, role: Role): (r: bool)
    ensures r <==> target.None?
  {
    target.None?
  }

  // ---------------------------------------------------------------------------
  // Votes and knowledge

  /** `votedPlayer` is the voter's area, identified by its player. */
  function HideVote(votedPlayer: PlayerId): (hidden: bool)
    ensures !hidden
  {
    false
  }

  function AddRealVotesNum(votedPlayer: PlayerId): (extra: int)
    ensures extra == 0
  {
    0
  }

  function KnowRoleTarget(seer: Option<PlayerView>, target: Option<PlayerView>): (r: bool)
    ensures !r
  {
    false
  }

  function PlayerKnowTargetColor(seer: Option<PlayerView>, target: Option<PlayerView>): (color: string)
    ensures |color| == 0
  {
    ""
  }

  function OthersKnowTargetRoleColor(seer: Option<PlayerView>, target: Option<PlayerView>): (r: bool)
    ensures !r
  {
    false
  }

  // ---------------------------------------------------------------------------
  // How the defaults relate

  /** The kill and vent defaults coincide, and each implies sabotage eligibility; only sabotage survives death. */
  lemma EligibilityOrdering(pc: PlayerView)
    ensures CanUseKillButton(pc) == CanUseImpostorVentButton(pc)
    ensures CanUseKillButton(pc) ==> CanUseSabotage(pc)
    ensures !pc.alive ==> !CanUseKillButton(pc) && !CanUseImpostorVentButton(pc)
    ensures !pc.alive && pc.isImpostorType ==> CanUseSabotage(pc)
  {
  }

  /** The four murder pre-checks agree with one another on every pair of references. */
  lemma MurderChecksAgree(killer: Option<PlayerView>, target: Option<PlayerView>)
    ensures ForcedCheckMurderAsKiller(killer, target) == OnCheckMurderAsTarget(killer, target)
    ensures OnCheckMurderAsTarget(killer, target) == CheckMurderOnOthersTarget(killer, target)
    ensures CheckMurderOnOthersTarget(killer, target) == OnCheckMurderAsKiller(killer, target)
    ensures OnCheckMurderAsKiller(killer, target) == OnCheckMurderAsKiller(target, killer)
  {
  }

  /** Reporting a body and calling a meeting are allowed to the same reporters. */
  lemma MeetingChecksAgree(reporter: PlayerView, deadBody: Option<PlayerId>, killer: Option<PlayerView>)
    ensures OnCheckReportDeadBody(reporter, deadBody, killer) == OnCheckStartMeeting(reporter)
  {
  }

  /** With the arguments placed as each declares them, the two guess defaults agree. */
  lemma GuessChecksAgree(isUI: bool, guesser: Option<PlayerView>, target: Option<PlayerView>, role: Role)
    ensures GuessCheck(isUI, guesser, target, role) == OnRoleGuess(isUI, target, guesser, role)
  {
  }

  // ---------------------------------------------------------------------------
  // Kill cooldowns

  /** `Main.AllPlayerKillCooldown`: seconds per player. */
  class KillCooldowns {
    var allPlayerKillCooldown: map<PlayerId, real>

    constructor ()
      ensures allPlayerKillCooldown == map[]
    {
      allPlayerKillCooldown := map[];
    }

    /** The default: this player's cooldown becomes the configured default; nobody else's moves. */
    method SetKillCooldown(id: PlayerId, defaultKillCooldown: real)
      modifies this
      ensures allPlayerKillCooldown == old(allPlayerKillCooldown)[id := defaultKillCooldown]
      ensures id in allPlayerKillCooldown && allPlayerKillCooldown[id] == defaultKillCooldown
      ensures forall other :: other in old(allPlayerKillCooldown) && other != id ==>
        other in allPlayerKillCooldown && allPlayerKillCooldown[other] == old(allPlayerKillCooldown)[other]
    {
      allPlayerKillCooldown := allPlayerKillCooldown[id := defaultKillCooldown];
    }
  }
}
