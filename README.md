# Ghost roles, ship-system gates and role defaults

A Dafny model of three pieces of the host-side game logic of an Among Us
mod:

- **Ghost-role assignment** (`GhostRoleAssign.dfy`). When a player dies, the
  host may promote them to a ghost role. The pool of ghost roles is filled at
  round start with a capacity per role. A per-team counter caps how many
  promotions each team gets. The role every dead player held is recorded so
  that a player is considered once. The round state is the class
  `GhostRoleAssign`, whose methods update it in place. `AssignStep` is the
  specification of one promotion on the value `AssignState`, and the lemmas
  state what one call and what a whole round of calls may do.
- **Ship-system gates** (`ShipStatusPatch.dfy`). The repair prefix is an
  ordered veto pipeline: host check, global sabotage switch, Fool, fast-fix
  dispatch, Airship light panels, Unlucky door roll. Then come the repair
  postfix (instant light fix), the door-range opener, the close-doors gate
  and the task-completion gate.
- **Role defaults** (`RoleBase.dfy`). These are the neutral answers every
  role inherits for a hook it does not override, plus the default
  kill-cooldown update.

`Roles.dfy` holds the role catalogue the three parts share, reduced to the
roles the code names plus `Other`, which stands for any other role by its
team, ghost-only flag and converted flag. `Wrappers.dfy` holds `Option`.

Randomness is an input. `rolls[i]` in [1, 99] is the acceptance roll of the
i-th configured ghost role, `choice % |list|` is the list index drawn, and
the Unlucky check's roll is a parameter in [1, 99]. Outbound calls whose
bodies are not part of this model are recorded as `Effect`s, in call order.
These are the Sabotage Master and Alchemist repairs, the camouflage
re-check and the self-murder RPC.

## Model

| member | source | states |
|---|---|---|
| GhostRoleAssignment.GetChance | Roles/Core/AssignManager/GhostRoleAssign.cs:20 | mode 100 always accepts; otherwise a roll in [1, 99] is accepted iff it is at most the mode, so mode 0 or below never accepts |
| GhostRoleAssignment.Candidates | Roles/Core/AssignManager/GhostRoleAssign.cs:45-67 | the candidate list of one team holds exactly the configured roles of that team with mode > 0, remaining capacity > 0 and a passed roll, each at most once |
| GhostRoleAssignment.AcceptedIndices | Roles/Core/AssignManager/GhostRoleAssign.cs:45-67 | the indices of the configured entries the loop accepts for one team: exactly the accepted ones among those scanned, strictly ascending |
| GhostRoleAssignment.CandidatesInTableOrder | Roles/Core/AssignManager/GhostRoleAssign.cs:45-67 | the candidate list is in table order: its k-th role is the role of the k-th accepted entry |
| GhostRoleAssignment.ScenarioCandidatesInOrder | Roles/Core/AssignManager/GhostRoleAssign.cs:45-67 | with two accepted crew entries A then B, the crew candidate list is exactly [A, B] |
| GhostRoleAssignment.BuildCandidateLists | Roles/Core/AssignManager/GhostRoleAssign.cs:39-67 | the loop over the configured roles builds the crew list and the impostor list, and each equals `Candidates` for its team |
| GhostRoleAssignment.CandidateFromTable | Roles/Core/AssignManager/GhostRoleAssign.cs:45-67 | every candidate comes from a configured entry whose mode is above zero, whose capacity is positive and whose roll passed |
| GhostRoleAssignment.TryAdd | Roles/Core/AssignManager/GhostRoleAssign.cs:37 | `Dictionary.TryAdd`: the key is present afterwards, an existing value is kept, no other entry changes |
| GhostRoleAssignment.Grant | Roles/Core/AssignManager/GhostRoleAssign.cs:69-108 | a non-empty all-ghost list always yields a grant; a grant is a ghost role from the list, takes one from that role's capacity, and adds one to the counter of the player's team only; no grant leaves the state as it was |
| GhostRoleAssignment.AssignStep | Roles/Core/AssignManager/GhostRoleAssign.cs:23-111 | a call exits early, changing nothing, exactly when one of the early-exit conditions holds; otherwise it records the player's previous role, even when nothing is granted; the capacity keys never change |
| GhostRoleAssignment.GrantedRoleMatchesTeam | Roles/Core/AssignManager/GhostRoleAssign.cs:69-108 | a granted role is a ghost role of the player's alignment that had capacity and a passed roll; its capacity drops by one and only that team's counter rises by one |
| GhostRoleAssignment.GrantedIffCandidates | Roles/Core/AssignManager/GhostRoleAssign.cs:69-108 | with only ghost roles configured, an eligible death of either team is granted a role iff that team's candidate list is non-empty |
| GhostRoleAssignment.SecondCallIsNoOp | Roles/Core/AssignManager/GhostRoleAssign.cs:25 | a second call for the same player exits early and changes nothing, whatever the rolls |
| GhostRoleAssignment.EitherCapBlocksBothTeams | Roles/Core/AssignManager/GhostRoleAssign.cs:35 | once either team's counter has reached its cap, every call exits early, for players of both teams |
| GhostRoleAssignment.ConvertedOptionBlocksAnySubRole | Roles/Core/AssignManager/GhostRoleAssign.cs:30-31 | with the converted-player option on, a player with any sub-role counts for neither team and is recorded without a grant |
| GhostRoleAssignment.StepKeepsBounds | Roles/Core/AssignManager/GhostRoleAssign.cs:80-81 | one call keeps every capacity non-negative, keeps each team counter within its cap, and raises each counter by at most one |
| GhostRoleAssignment.Run | Roles/Core/AssignManager/GhostRoleAssign.cs:23-111 | a round of deaths yields one outcome per death and keeps the set of pooled roles |
| GhostRoleAssignment.GrantCount | Roles/Core/AssignManager/GhostRoleAssign.cs:81 | the number of grants of a role never exceeds the number of outcomes |
| GhostRoleAssignment.StepConservesCapacity | Roles/Core/AssignManager/GhostRoleAssign.cs:81 | one death grants a role at most once, and the role's capacity drops by exactly the number of times it is granted; no capacity goes negative |
| GhostRoleAssignment.RunConservesCapacity | Roles/Core/AssignManager/GhostRoleAssign.cs:81 | over a round, the grants of a role plus its remaining capacity equal its capacity at the start, and no capacity goes negative |
| GhostRoleAssignment.GrantsBoundedByCapacity | Roles/Core/AssignManager/GhostRoleAssign.cs:81 | a role is granted at most as often as its starting capacity; a role with capacity 0 is never granted |
| GhostRoleAssignment.GrantCountPositive | Roles/Core/AssignManager/GhostRoleAssign.cs:81 | an outcome that grants a role makes that role's grant count positive |
| GhostRoleAssignment.FillPool | Roles/Core/AssignManager/GhostRoleAssign.cs:119-123 | after filling, the keys are the old keys plus the configured roles; old entries keep their value; new entries get the configured count |
| GhostRoleAssignment.PoolAfterReset | Roles/Core/AssignManager/GhostRoleAssign.cs:112-123 | filling an empty pool gives exactly the configured roles with their counts |
| GhostRoleAssignment.FillPoolIdempotent | Roles/Core/AssignManager/GhostRoleAssign.cs:119-123 | filling twice gives the same pool as filling once |
| GhostRoleAssignment.FilledPoolIsPooled | Roles/Core/AssignManager/GhostRoleAssign.cs:119-123 | a filled pool has an entry for every role the candidate loop looks up, and non-negative counts stay non-negative |
| GhostRoleAssignment.ScenarioPool | Roles/Core/AssignManager/GhostRoleAssign.cs:119-123 | with two crew ghost roles of count 1, the pool after the reset is exactly those two roles at 1 |
| GhostRoleAssignment.TwoCrewDeathsScenario | Roles/Core/AssignManager/GhostRoleAssign.cs:35-88 | with a crew cap of 1 and two crew ghost roles at mode 100, the first crew death gets one of them and the second is stopped by the cap |
| GhostRoleAssignment.GhostRoleAssign.constructor | Roles/Core/AssignManager/GhostRoleAssign.cs:16-22 | the static state starts with both counters at zero and both dictionaries empty |
| GhostRoleAssignment.GhostRoleAssign.Init | Roles/Core/AssignManager/GhostRoleAssign.cs:112-118 | afterwards both counters are zero and both dictionaries are empty |
| GhostRoleAssignment.GhostRoleAssign.Add | Roles/Core/AssignManager/GhostRoleAssign.cs:119-123 | the pool becomes `FillPool` of the old pool: each configured role is added only if absent; the counters and the previous-role record are unchanged |
| GhostRoleAssignment.GhostRoleAssign.GhostAssignPatch | Roles/Core/AssignManager/GhostRoleAssign.cs:23-111 | the new state and the outcome are those of `AssignStep` on the old state |
| GhostRoleAssignment.GhostRoleAssign.GrantFrom | Roles/Core/AssignManager/GhostRoleAssign.cs:71-86 | the new state and the outcome are those of `Grant` on the old state |
| ShipStatusPatch.FastFixEffects | Patches/ShipStatusPatch.cs:80-89 | a Sabotage Master issues its repair call with the system, amount and player id; an Alchemist with the fix-next flag issues its repair call with the system and amount; nobody else issues one |
| ShipStatusPatch.RepairVerdict | Patches/ShipStatusPatch.cs:60-110 | off the host the update always proceeds with no effect; on the host it proceeds iff no veto (sabotage switch, Fool, Airship panel, Unlucky roll) holds; a sabotage-switch or Fool veto comes before any role effect; otherwise the effects are the fast-fix call followed by the self-murder exactly when suicide happens; suicide happens iff, on the host, no earlier veto holds and the Unlucky veto does, and it always vetoes |
| ShipStatusPatch.RepairHost.RepairSystemPrefix | Patches/ShipStatusPatch.cs:48-111 | the result and the issued effects are those of `RepairVerdict`; the death reason becomes Suicide for the player exactly when `RepairVerdict` reports suicide; the fix-next flag takes the value supplied for "after the Alchemist's repair" exactly when that repair is called, and is otherwise unchanged |
| ShipStatusPatch.RepairHost.RepairSystemPostfix | Patches/ShipStatusPatch.cs:114-141 | the camouflage re-check is always issued; on active lights a Sabotage Master's switch repair is issued and the switch masks become those supplied for "after that repair", and an Alchemist with the fix-next flag zeroes both switch masks, which ends the lights sabotage, and clears the flag; otherwise the flag and the switch system are unchanged |
| ShipStatusPatch.RepairHost.MessageReaderUpdateSystem | Patches/ShipStatusPatch.cs:33-44 | the prefix's effects, death reason and fix-next flag apply, and its verdict is dropped. The host's own update then always runs and, for Electrical, leaves the supplied switch masks. The postfix acts on the flag the prefix left and on the lights as that update left them: it issues the camouflage re-check; on active lights it applies the Sabotage Master's repair, or the Alchemist's zeroing of both masks (ending the sabotage) and clearing of the flag; otherwise the switch system keeps the state the host's update left |
| ShipStatusPatch.ToByte | Patches/ShipStatusPatch.cs:156 | the `(byte)` cast keeps the value in 0..255 and agrees with it modulo 256 |
| ShipStatusPatch.CheckAndOpenDoors | Patches/ShipStatusPatch.cs:151-158 | no update when the amount is not a listed door; otherwise one update per listed door, in list order |
| ShipStatusPatch.CheckAndOpenDoorsRange | Patches/ShipStatusPatch.cs:142-150 | updates for every id from min to max in ascending order iff the amount lies in [min, max]; otherwise none |
| ShipStatusPatch.DoorRangeAscending | Patches/ShipStatusPatch.cs:142-158 | within the byte range the updated doors are exactly min..max, strictly ascending |
| ShipStatusPatch.CloseDoorsPrefix | Patches/ShipStatusPatch.cs:163-166 | closing doors proceeds iff the close-door option is off |
| ShipStatusPatch.CheckTaskCompletionPrefix | Patches/ShipStatusPatch.cs:239-247 | the check is replaced by "no win" iff task wins are disabled, the game cannot end, or there are no initial tasks |
| RoleBase.CanUseKillButton | Roles/Core/RoleBase.cs:38 | holds iff the player is impostor-typed and alive |
| RoleBase.CanUseImpostorVentButton | Roles/Core/RoleBase.cs:43 | holds iff the player is impostor-typed and alive |
| RoleBase.CanUseSabotage | Roles/Core/RoleBase.cs:48 | holds iff the player is impostor-typed, alive or not |
| RoleBase.OnSabotage | Roles/Core/RoleBase.cs:52 | holds iff the player is present |
| RoleBase.CheckBootFromVent | Roles/Core/RoleBase.cs:98 | boots iff the player's physics component is absent |
| RoleBase.ForcedCheckMurderAsKiller | Roles/Core/RoleBase.cs:124 | holds iff killer and target are both present |
| RoleBase.OnCheckMurderAsTarget | Roles/Core/RoleBase.cs:129 | holds iff killer and target are both present |
| RoleBase.CheckMurderOnOthersTarget | Roles/Core/RoleBase.cs:134 | holds iff killer and target are both present |
| RoleBase.OnCheckMurderAsKiller | Roles/Core/RoleBase.cs:138 | holds iff killer and target are both present |
| RoleBase.KillFlashCheck | Roles/Core/RoleBase.cs:158 | never flashes |
| RoleBase.OnCheckStartMeeting | Roles/Core/RoleBase.cs:169 | holds iff the reporter is alive |
| RoleBase.OnCheckReportDeadBody | Roles/Core/RoleBase.cs:173 | holds iff the reporter is alive, whatever the body and the killer |
| RoleBase.GuessCheck | Roles/Core/RoleBase.cs:183 | holds iff the target is absent |
| RoleBase.OnRoleGuess | Roles/Core/RoleBase.cs:187 | holds iff the target is absent |
| RoleBase.HideVote | Roles/Core/RoleBase.cs:245 | never hides a vote |
| RoleBase.AddRealVotesNum | Roles/Core/RoleBase.cs:255 | adds no votes |
| RoleBase.KnowRoleTarget | Roles/Core/RoleBase.cs:276 | never reveals the target's role |
| RoleBase.PlayerKnowTargetColor | Roles/Core/RoleBase.cs:277 | gives the empty colour string |
| RoleBase.OthersKnowTargetRoleColor | Roles/Core/RoleBase.cs:278 | never reveals the target's role colour |
| RoleBase.EligibilityOrdering | Roles/Core/RoleBase.cs:38-48 | kill and vent eligibility coincide and each implies sabotage eligibility; a dead player can neither kill nor vent but an impostor-typed one can still sabotage |
| RoleBase.MurderChecksAgree | Roles/Core/RoleBase.cs:124-138 | the four murder pre-checks agree on every pair of references, and are symmetric in killer and target |
| RoleBase.MeetingChecksAgree | Roles/Core/RoleBase.cs:169-173 | reporting a body and starting a meeting are allowed to the same reporters |
| RoleBase.GuessChecksAgree | Roles/Core/RoleBase.cs:183-187 | the two guess defaults agree once their swapped parameter order is accounted for |
| RoleBase.KillCooldowns.constructor | Roles/Core/RoleBase.cs:66 | the cooldown table starts empty |
| RoleBase.KillCooldowns.SetKillCooldown | Roles/Core/RoleBase.cs:66 | this player's cooldown becomes the configured default and every other entry is unchanged |

## Left out

- Randomness: `IRandom` is replaced by inputs. The acceptance test draws one roll per configured entry (`rolls[i]`) instead of consuming a stream only for entries that reach it. The outcome is the same, because an entry that does not reach its roll ignores it. The list index is `choice % |list|`.
- The grant's calls to set the player's role over the network and to register the player with the role class are represented only by the `Granted(role)` outcome.
- Logging, the in-game debug message and the `RepairSender` check (Patches/ShipStatusPatch.cs:53-58) have no effect on state and are left out.
- The Airship light-panel distances (a 2-unit radius around three fixed points) are abstracted into one "near this panel" flag per panel on `Actor`.
- The bodies of `SabotageMaster.RepairSystem`, `SabotageMaster.SwitchSystemRepair`, `Alchemist.RepairSystem`, `Camouflage.CheckCamouflage` and `RpcMurderPlayerV3` are not part of this model. Each is recorded as an `Effect`. What they do to state the model tracks is an input instead: the fix-next flag after `Alchemist.RepairSystem`, and the switch masks after `SabotageMaster.SwitchSystemRepair`. Any other change they make is not modelled. In particular, both repair calls in the prefix are taken to leave the Electrical switch masks alone, and `SabotageMaster.RepairSystem` is taken to leave the fix-next flag alone.
- The host game's own `ShipStatus.UpdateSystem` is not part of this model. On the message-reader route it always runs between the prefix and the postfix. Its effect on the Electrical switch masks is an input to `ShipStatusPatch.RepairHost.MessageReaderUpdateSystem`. It is taken to change nothing else the model tracks, and to leave the switch system alone when the update is for another system.
- `SwitchSystem.IsActive` belongs to the host game and is not part of this model's source. The model defines it as the game does: the lights sabotage is on exactly while the actual switch mask differs from the expected one.
- `RoleBase.CanUseKillButton`, `RoleBase.CanUseImpostorVentButton`, `RoleBase.CanUseSabotage`, `RoleBase.OnCheckStartMeeting` and `RoleBase.OnCheckReportDeadBody` take a present player. The source's parameters are nullable references, and the `Is`/`IsAlive` extension methods they call are not part of this model, so what these defaults do for a null player is not modelled.
- `RepairHost.RepairSystemPrefix`: the player's death-state entry is updated whether or not the player already has one. The source would throw when the entry is missing.
- `ShipStatusPatch.CheckAndOpenDoors`: the door update RPC is returned as the list of door ids sent, rather than sent.
- `ShipStatusPatch.CheckAndOpenDoorsRange`: the 32-bit loop counter is unbounded here, so a range ending at the largest 32-bit integer (where the source loop would not terminate) is not modelled.
- The frame-driven countdown patch on the ship's fixed update (Patches/ShipStatusPatch.cs:15-31) works on floating-point time with a NaN sentinel and is left out.
- The ship start, meeting start and game begin patches in the same file are left out. They do logging and one-off setup.
- The commented-out switch-system repair patch (Patches/ShipStatusPatch.cs:168-191) is dead code and is left out.
- The presentation hooks of the role defaults (button text, sprites, name, mark, lower text, suffix and progress strings; Roles/Core/RoleBase.cs:213, 257-273) and the hooks with empty bodies are left out. They change no state the model tracks.
- `Options.DefaultKillCooldown` is a float. It is modelled as a `real`, without rounding.
- Role classification (`IsCrewmate`, `IsImpostor`, `IsGhostRole`, `IsConverted`) is taken from the role's fields. The full role catalogue and its classification tables are not part of this model.
- `GhostRoleAssignment.GhostRoleAssign.GhostAssignPatch` requires every configured role with mode above zero and a team to have a pool entry (`Pooled`). The source would throw on a missing entry, and `FilledPoolIsPooled` shows that `Add` provides the entries.
- The dead removal branches inside the candidate loop (Roles/Core/AssignManager/GhostRoleAssign.cs:49-50, 59-60) can never fire, because a role enters a list at most once per call and only when its capacity is positive. The model shows this with an unreachable-branch assertion.
- With the converted-player option on, the source blocks any player holding any sub-role, because the option is joined into the sub-role predicate with `||`. The model keeps this behaviour as written (`ConvertedOptionBlocksAnySubRole`).
- An eligible death whose role belongs to neither team is recorded and granted nothing. In the source, such a call runs past both team branches and leaves at the end of the method.
