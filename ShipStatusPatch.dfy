/**
 * The host-side gates around ship systems: the repair prefix (an ordered
 * veto pipeline), the repair postfix (instant light fix), the door-range
 * opener, the close-doors gate and the task-completion gate.
 *
 * Outbound calls whose bodies are elsewhere (the Sabotage Master and
 * Alchemist repairs, the camouflage re-check, the self-murder RPC) are
 * recorded as `Effect`s in call order. The player's distance to each
 * Airship light panel is abstracted into a "near this panel" flag, and the
 * random roll of the Unlucky check is an input in [1, 99].
 */
module ShipStatusPatch {
  import opened Roles

  type Byte = b: int | 0 <= b < 256

  datatype SystemType =
    | Reactor | Laboratory | HeliSabotage | LifeSupp | Comms | Electrical | Doors | Sabotage
    | OtherSystem(code: nat)

  /** The acting player: roles, liveness and whether they stand within reach of each Airship light panel. */
  datatype Actor = Actor(
    id: PlayerId,
    role: Role,
    subRoles: seq<Role>,
    alive: bool,
    nearViewingDeckPanel: bool,
    nearGapRoomPanel: bool,
    nearCargoPanel: bool)

  /** `player.Is(role)`: the main role or one of the sub-roles. */
  predicate Is(p: Actor, r: Role)
  {
    p.role == r || r in p.subRoles
  }

  datatype RepairOptions = RepairOptions(
    disableSabotage: bool,
    disableViewingDeckLightsPanel: bool,
    disableGapRoomLightsPanel: bool,
    disableCargoLightsPanel: bool,
    unluckySabotageSuicideChance: int)

  /** What the session reports: whether this client is the host, whether a meeting runs, the map. */
  datatype Session = Session(amHost: bool, meetingIsStarted: bool, mapId: int)

  const AirshipMapId := 4

  datatype DeathReason = Etc | Kill | Suicide | OtherReason(code: nat)

  datatype Effect =
    | SabotageMasterRepairSystem(system: SystemType, amount: Byte, player: PlayerId)
    | AlchemistRepairSystem(system: SystemType, amount: Byte)
    | MurderSelf(player: PlayerId)
    | CheckCamouflage
    | SabotageMasterSwitchRepair(amount: Byte, player: PlayerId)

  // ---------------------------------------------------------------------------
  // The stages of the repair prefix, each stated on its own

  predicate SabotageVeto(opts: RepairOptions, system: SystemType)
  {
    opts.disableSabotage && system == Sabotage
  }

  /** The Fool may not fix critical systems outside a meeting. */
  predicate FoolVeto(session: Session, p: Actor, system: SystemType)
  {
    && Is(p, Fool)
    && !session.meetingIsStarted
    && system != Sabotage
    && system in {Reactor, Laboratory, HeliSabotage, LifeSupp, Comms, Electrical}
  }

  /** A light switch on the Airship operated at a disabled panel. */
  predicate PanelVeto(session: Session, opts: RepairOptions, p: Actor, system: SystemType, amount: Byte)
  {
    && system == Electrical && 0 <= amount <= 4 && session.mapId == AirshipMapId
    && (|| (opts.disableViewingDeckLightsPanel && p.nearViewingDeckPanel)
        || (opts.disableGapRoomLightsPanel && p.nearGapRoomPanel)
        || (opts.disableCargoLightsPanel && p.nearCargoPanel))
  }

  /** An alive Unlucky player touching a door whose roll falls below the suicide chance. */
  predicate UnluckyVeto(opts: RepairOptions, p: Actor, system: SystemType, roll: int)
  {
    Is(p, Unlucky) && p.alive && system == Doors && roll < opts.unluckySabotageSuicideChance
  }

  /** The fast-fix dispatch on the main role. */
  function FastFixEffects(p: Actor, fixNextSabo: bool, system: SystemType, amount: Byte): (effects: seq<Effect>)
    ensures p.role == SabotageMaster ==> effects == [SabotageMasterRepairSystem(system, amount, p.id)]
    ensures p.role == Alchemist && fixNextSabo ==> effects == [AlchemistRepairSystem(system, amount)]
    ensures effects != [] <==> p.role == SabotageMaster || (p.role == Alchemist && fixNextSabo)
  {
    match p.role
    case SabotageMaster => [SabotageMasterRepairSystem(system, amount, p.id)]
    case Alchemist => if fixNextSabo then [AlchemistRepairSystem(system, amount)] else []
    case _ => []
  }

  /** The decision of the repair prefix and its side effects, in pipeline terms. */
  datatype Verdict = Verdict(proceed: bool, effects: seq<Effect>, suicide: bool)

  /**
   * The pipeline: on the host, the global sabotage switch, then the Fool,
   * then the fast-fix dispatch, then the Airship panels, then the Unlucky
   * door roll; the original update proceeds only when no stage vetoes.
   */
  function RepairVerdict(
    session: Session, opts: RepairOptions, fixNextSabo: bool, system: SystemType, p: Actor, amount: Byte, roll: int)
    : (v: Verdict)
    ensures !session.amHost ==> v == Verdict(true, [], false)
    ensures v.proceed <==>
      !session.amHost
      || !(SabotageVeto(opts, system) || FoolVeto(session, p, system)
           || PanelVeto(session, opts, p, system, amount) || UnluckyVeto(opts, p, system, roll))
    ensures SabotageVeto(opts, system) || FoolVeto(session, p, system) ==> v.effects == [] && !v.suicide
    ensures v.suicide <==>
      && session.amHost
      && !SabotageVeto(opts, system) && !FoolVeto(session, p, system) && !PanelVeto(session, opts, p, system, amount)
      && UnluckyVeto(opts, p, system, roll)
    ensures v.suicide ==> !v.proceed
    ensures session.amHost && !SabotageVeto(opts, system) && !FoolVeto(session, p, system) ==>
      v.effects == FastFixEffects(p, fixNextSabo, system, amount) + (if v.suicide then [MurderSelf(p.id)] else [])
  {
    if !session.amHost then Verdict(true, [], false)
    else if SabotageVeto(opts, system) || FoolVeto(session, p, system) then Verdict(false, [], false)
    else
      var fix := FastFixEffects(p, fixNextSabo, system, amount);
      if PanelVeto(session, opts, p, system, amount) then Verdict(false, fix, false)
      else if UnluckyVeto(opts, p, system, roll) then Verdict(false, fix + [MurderSelf(p.id)], true)
      else Verdict(true, fix, false)
  }

  /** The Alchemist's repair is called by the prefix (after both global vetoes passed). */
  predicate AlchemistRepairRuns(session: Session, opts: RepairOptions, fixNextSabo: bool, system: SystemType, p: Actor)
  {
    session.amHost && !SabotageVeto(opts, system) && !FoolVeto(session, p, system)
    && p.role == Alchemist && fixNextSabo
  }

  /** A lights update the postfix acts on: Electrical, a switch index 0..4, the switch system active. */
  predicate LightsFix(system: SystemType, amount: Byte, active: bool)
  {
    system == Electrical && 0 <= amount <= 4 && active
  }

  /** The two switch masks of the Electrical system. */
  datatype SwitchMasks = SwitchMasks(actual: int, expected: int)

  /** The Electrical switch system of the ship. */
  class SwitchSystem {
    var actualSwitches: int
    var expectedSwitches: int

    constructor (actual: int, expected: int)
      ensures actualSwitches == actual && expectedSwitches == expected
    {
      actualSwitches := actual;
      expectedSwitches := expected;
    }

    /** The lights sabotage is on exactly while the switches differ from the expected setting. */
    predicate IsActive()
      reads this
    {
      actualSwitches != expectedSwitches
    }
  }

  /**
   * The host-side state the repair patches touch.
   *
   * The Sabotage Master and Alchemist repair calls have bodies outside this
   * model; what they do to tracked state is supplied by the caller: the
   * fix-next flag after the Alchemist's repair, and the switch masks after
   * the Sabotage Master's switch repair.
   */
  class RepairHost {
    /** `Alchemist.FixNextSabo`. */
    var fixNextSabo: bool
    /** `Main.PlayerStates[id].deathReason`. */
    var deathReason: map<PlayerId, DeathReason>
    /** Outbound calls, in order. */
    var effects: seq<Effect>

    constructor (fixNext: bool, reasons: map<PlayerId, DeathReason>)
      ensures fixNextSabo == fixNext && deathReason == reasons && effects == []
    {
      fixNextSabo := fixNext;
      deathReason := reasons;
      effects := [];
    }

    /** The repair prefix; the result says whether the original update proceeds. */
    method RepairSystemPrefix(
      session: Session, opts: RepairOptions, system: SystemType, p: Actor, amount: Byte, roll: int,
      flagAfterAlchemistRepair: bool)
      returns (proceed: bool)
      requires 1 <= roll <= 99
      modifies this
      ensures var v := RepairVerdict(session, opts, old(fixNextSabo), system, p, amount, roll);
        && proceed == v.proceed
        && effects == old(effects) + v.effects
        && deathReason == (if v.suicide then old(deathReason)[p.id := Suicide] else old(deathReason))
        && fixNextSabo == (if AlchemistRepairRuns(session, opts, old(fixNextSabo), system, p)
                           then flagAfterAlchemistRepair else old(fixNextSabo))
    {
      if !session.amHost {
        return true;
      }
      if opts.disableSabotage && system == Sabotage {
        return false;
      }
      if Is(p, Fool) && !session.meetingIsStarted && system != Sabotage
        && (system == Reactor || system == Laboratory || system == HeliSabotage
            || system == LifeSupp || system == Comms || system == Electrical)
      {
        return false;
      }

      ghost var v := RepairVerdict(session, opts, fixNextSabo, system, p, amount, roll);
      ghost var fix := FastFixEffects(p, fixNextSabo, system, amount);
      assert v.effects == fix + (if v.suicide then [MurderSelf(p.id)] else []);
      if p.role == SabotageMaster {
        effects := effects + [SabotageMasterRepairSystem(system, amount, p.id)];
      } else if p.role == Alchemist && fixNextSabo {
        effects := effects + [AlchemistRepairSystem(system, amount)];
        fixNextSabo := flagAfterAlchemistRepair;
      }
      assert effects == old(effects) + fix;

      if system == Electrical && 0 <= amount && amount <= 4 && session.mapId == AirshipMapId {
        if opts.disableViewingDeckLightsPanel && p.nearViewingDeckPanel {
          return false;
        }
        if opts.disableGapRoomLightsPanel && p.nearGapRoomPanel {
          return false;
        }
        if opts.disableCargoLightsPanel && p.nearCargoPanel {
          return false;
        }
      }

      if Is(p, Unlucky) && p.alive && system == Doors {
        if roll < opts.unluckySabotageSuicideChance {
          effects := effects + [MurderSelf(p.id)];
          deathReason := deathReason[p.id := Suicide];
          return false;
        }
      }
      return true;
    }

    /** The repair postfix: the camouflage re-check, then the instant fix of active lights. */
    method RepairSystemPostfix(
      system: SystemType, p: Actor, amount: Byte, sw: SwitchSystem?, afterSabotageMasterRepair: SwitchMasks)
      modifies this`fixNextSabo, this`effects, sw
      ensures var lights := sw != null && LightsFix(system, amount, old(sw.IsActive()));
        && effects == old(effects) + [CheckCamouflage]
             + (if lights && p.role == SabotageMaster then [SabotageMasterSwitchRepair(amount, p.id)] else [])
        && (lights && p.role == SabotageMaster ==>
              && sw.actualSwitches == afterSabotageMasterRepair.actual
              && sw.expectedSwitches == afterSabotageMasterRepair.expected
              && fixNextSabo == old(fixNextSabo))
        && (lights && p.role == Alchemist && old(fixNextSabo) ==>
              sw.actualSwitches == 0 && sw.expectedSwitches == 0 && !fixNextSabo && !sw.IsActive())
        && (!(lights && (p.role == SabotageMaster || (p.role == Alchemist && old(fixNextSabo)))) ==>
              fixNextSabo == old(fixNextSabo) && (sw != null ==> unchanged(sw)))
    {
      effects := effects + [CheckCamouflage];
      if system == Electrical && 0 <= amount && amount <= 4 {
        if sw != null && sw.IsActive() {
          if p.role == SabotageMaster {
            effects := effects + [SabotageMasterSwitchRepair(amount, p.id)];
            sw.actualSwitches := afterSabotageMasterRepair.actual;
            sw.expectedSwitches := afterSabotageMasterRepair.expected;
          } else if p.role == Alchemist && fixNextSabo {
            sw.actualSwitches := 0;
            sw.expectedSwitches := 0;
            fixNextSabo := false;
          }
        }
      }
    }

    /**
     * The message-reader overload: it runs the repair prefix for its side
     * effects only (its verdict is dropped, so the update is never vetoed
     * on this route), then the host's own update of the system, then the
     * postfix on the state that update left. The host's update is outside
     * this model: for Electrical, the switch masks it leaves are an input.
     */
    method MessageReaderUpdateSystem(
      session: Session, opts: RepairOptions, system: SystemType, p: Actor, amount: Byte, roll: int, sw: SwitchSystem?,
      flagAfterAlchemistRepair: bool, afterHostUpdate: SwitchMasks, afterSabotageMasterRepair: SwitchMasks)
      requires 1 <= roll <= 99
      modifies this, sw
      ensures var v := RepairVerdict(session, opts, old(fixNextSabo), system, p, amount, roll);
        var flag := if AlchemistRepairRuns(session, opts, old(fixNextSabo), system, p)
                    then flagAfterAlchemistRepair else old(fixNextSabo);
        var lights := sw != null && LightsFix(system, amount, afterHostUpdate.actual != afterHostUpdate.expected);
        && deathReason == (if v.suicide then old(deathReason)[p.id := Suicide] else old(deathReason))
        && effects == old(effects) + v.effects + [CheckCamouflage]
             + (if lights && p.role == SabotageMaster then [SabotageMasterSwitchRepair(amount, p.id)] else [])
        && (lights && p.role == SabotageMaster ==>
              && sw.actualSwitches == afterSabotageMasterRepair.actual
              && sw.expectedSwitches == afterSabotageMasterRepair.expected
              && fixNextSabo == flag)
        && (lights && p.role == Alchemist && flag ==>
              sw.actualSwitches == 0 && sw.expectedSwitches == 0 && !fixNextSabo && !sw.IsActive())
        && (!(lights && (p.role == SabotageMaster || (p.role == Alchemist && flag))) ==>
              && fixNextSabo == flag
              && (sw != null && system == Electrical ==>
                    sw.actualSwitches == afterHostUpdate.actual && sw.expectedSwitches == afterHostUpdate.expected)
              && (sw != null && system != Electrical ==> unchanged(sw)))
    {
      var _ := RepairSystemPrefix(session, opts, system, p, amount, roll, flagAfterAlchemistRepair);
      if sw != null && system == Electrical {
        sw.actualSwitches := afterHostUpdate.actual;
        sw.expectedSwitches := afterHostUpdate.expected;
      }
      RepairSystemPostfix(system, p, amount, sw, afterSabotageMasterRepair);
    }
  }

  // ---------------------------------------------------------------------------
  // Doors

  /** The unchecked `(byte)` cast: keep the low eight bits. */
  function ToByte(i: int): (b: Byte)
    ensures 0 <= i < 256 ==> b == i
    ensures (b - i) % 256 == 0
  {
    i % 256
  }

  /** Issues one door update per listed door, in order, when the amount is one of the listed doors. */
  method CheckAndOpenDoors(amount: int, doorIds: seq<int>) returns (updates: seq<Byte>)
    ensures amount !in doorIds ==> updates == []
    ensures amount in doorIds ==>
      |updates| == |doorIds| && forall k :: 0 <= k < |doorIds| ==> updates[k] == ToByte(doorIds[k])
  {
    updates := [];
    if amount !in doorIds {
      return;
    }
    for k := 0 to |doorIds|
      invariant |updates| == k
      invariant forall j :: 0 <= j < k ==> updates[j] == ToByte(doorIds[j])
    {
      updates := updates + [ToByte(doorIds[k])];
    }
  }

  /** Lists the door ids from `min` to `max` and opens them all when `amount` lies in that range. */
  method CheckAndOpenDoorsRange(amount: int, min: int, max: int) returns (updates: seq<Byte>)
    ensures !(min <= amount <= max) ==> updates == []
    ensures min <= amount <= max ==>
      |updates| == max - min + 1 && forall k :: 0 <= k < |updates| ==> updates[k] == ToByte(min + k)
  {
    var ids: seq<int> := [];
    var i := min;
    while i <= max
      invariant min <= i && (i <= max + 1 || i == min)
      invariant |ids| == i - min
      invariant forall k :: 0 <= k < |ids| ==> ids[k] == min + k
    {
      ids := ids + [i];
      i := i + 1;
    }
    assert amount in ids <==> min <= amount <= max by {
      assert |ids| == (if min <= max then max - min + 1 else 0);
      if min <= amount <= max {
        assert ids[amount - min] == amount;
      }
      if amount in ids {
        var k :| 0 <= k < |ids| && ids[k] == amount;
        assert amount == min + k;
      }
    }
    updates := CheckAndOpenDoors(amount, ids);
  }

  /** Within the byte range the opened doors are exactly `min`, `min + 1`, ..., `max`, strictly ascending. */
  lemma DoorRangeAscending(min: int, max: int, updates: seq<Byte>)
    requires 0 <= min && max < 256
    requires |updates| == max - min + 1 && forall k :: 0 <= k < |updates| ==> updates[k] == ToByte(min + k)
    ensures forall k :: 0 <= k < |updates| ==> updates[k] == min + k
    ensures forall a, b :: 0 <= a < b < |updates| ==> updates[a] < updates[b]
  {
  }

  // ---------------------------------------------------------------------------
  // Boolean gates

  /** Closing doors runs the original only while the option that disables it is off. */
  function CloseDoorsPrefix(disableCloseDoor: bool): (runOriginal: bool)
    ensures runOriginal <==> !disableCloseDoor
  {
    !disableCloseDoor
  }

  /** Either let the original check run, or skip it and report the given result. */
  datatype Interception = RunOriginal | Replace(result: bool)

  /** The task-win check is replaced by "no win" when task wins cannot end the game. */
  function CheckTaskCompletionPrefix(disableTaskWin: bool, noGameEnd: bool, initialTotalTasks: int)
    : (r: Interception)
    ensures r.Replace? <==> disableTaskWin || noGameEnd || initialTotalTasks == 0
    ensures r.Replace? ==> !r.result
  {
    if disableTaskWin || noGameEnd || initialTotalTasks == 0 then Replace(false) else RunOriginal
  }
}
