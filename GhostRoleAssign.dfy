/**
 * Ghost-role assignment: when a player dies, the host may promote them to a
 * ghost role drawn from a pool whose per-role capacity is set at round start.
 *
 * The round state (two team counters, the remaining capacity per ghost role
 * and the role each dead player held) lives in the class `GhostRoleAssign`,
 * whose methods update it in place. `AssignStep` is the specification of one
 * promotion on the value `AssignState`; the lemmas below it state what one
 * call and what a whole round of calls may do to the state.
 *
 * Randomness is supplied by the caller: `rolls[i]` is the acceptance roll in
 * [1, 99] for the i-th configured ghost role, and `choice` picks the list
 * index `choice % |list|`, which reaches every index below the list length.
 */
module GhostRoleAssignment {
  import opened Wrappers
  import opened Roles

  /** One entry of the ghost-role options: the role, its spawn percentage (mode) and its count. */
  datatype GhostOption = GhostOption(role: Role, mode: int, count: int)

  /** The options the assignment reads; `table` is the configured-ghost-role dictionary in enumeration order. */
  datatype GhostConfig = GhostConfig(
    table: seq<GhostOption>,
    maxImpGhost: int,
    maxCrewGhost: int,
    convertedCanBecomeGhost: bool)

  /** The dying player as the assignment sees it. */
  datatype Player = Player(id: PlayerId, role: Role, subRoles: seq<Role>, disconnected: bool)

  /** Skipped: an early exit, nothing recorded. NoneGranted: previous role recorded, no ghost role. */
  datatype Outcome = Skipped | NoneGranted | Granted(role: Role)

  /** The two candidate lists. */
  datatype Alignment = CrewAligned | ImpAligned

  datatype AssignState = AssignState(
    impCount: int,
    crewCount: int,
    getCount: map<Role, int>,
    previousRole: map<PlayerId, Role>)

  /** Dictionary keys are distinct. */
  predicate DistinctRoles(table: seq<GhostOption>)
  {
    forall i, j :: 0 <= i < j < |table| ==> table[i].role != table[j].role
  }

  lemma DistinctPrefix(table: seq<GhostOption>, n: nat)
    requires DistinctRoles(table) && n <= |table|
    ensures DistinctRoles(table[..n])
  {
    forall i, j | 0 <= i < j < n ensures table[..n][i].role != table[..n][j].role {
      assert table[..n][i] == table[i] && table[..n][j] == table[j];
    }
  }

  predicate ValidRolls(rolls: seq<int>, n: nat)
  {
    |rolls| == n && forall i :: 0 <= i < n ==> 1 <= rolls[i] <= 99
  }

  /** Every capacity the candidate loop looks up is present: `Add` ran for the configured roles. */
  predicate Pooled(table: seq<GhostOption>, getCount: map<Role, int>)
  {
    forall i :: 0 <= i < |table| && table[i].mode > 0 && (IsCrewmate(table[i].role) || IsImpostor(table[i].role))
      ==> table[i].role in getCount
  }

  predicate NonNegative(getCount: map<Role, int>)
  {
    forall r :: r in getCount ==> getCount[r] >= 0
  }

  predicate Aligned(r: Role, side: Alignment)
  {
    match side
    case CrewAligned => IsCrewmate(r)
    case ImpAligned => IsImpostor(r)
  }

  /** The acceptance roll: mode 100 accepts without rolling, otherwise the roll must not exceed the mode. */
  function GetChance(mode: int, roll: int): (accepted: bool)
    ensures 1 <= roll <= 99 ==> (accepted <==> roll <= mode)
    ensures 1 <= roll && mode <= 0 ==> !accepted
    ensures roll <= 99 && mode >= 99 ==> accepted
  {
    mode == 100 || roll <= mode
  }

  /** A configured entry enters the candidate list of `side`. */
  predicate Accepts(o: GhostOption, getCount: map<Role, int>, roll: int, side: Alignment)
  {
    o.mode > 0 && Aligned(o.role, side) && o.role in getCount && getCount[o.role] > 0 && GetChance(o.mode, roll)
  }

  /**
   * The candidate list built by the loop over the first `n` configured ghost
   * roles: the accepted entries in table order, each once. Only an accepted
   * entry among the first `n` can supply an element, and every such entry
   * does (`CandidateFromTable` adds that each element has an entry).
   */
  function Candidates(table: seq<GhostOption>, getCount: map<Role, int>, rolls: seq<int>, side: Alignment, n: nat)
    : (list: seq<Role>)
    requires DistinctRoles(table) && ValidRolls(rolls, |table|) && n <= |table|
    ensures forall k :: 0 <= k < |list| ==> Aligned(list[k], side) && list[k] in getCount && getCount[list[k]] > 0
    ensures forall k, j :: 0 <= k < |list| && 0 <= j < |table| && table[j].role == list[k] ==>
      j < n && Accepts(table[j], getCount, rolls[j], side)
    ensures forall i :: 0 <= i < n && Accepts(table[i], getCount, rolls[i], side) ==> table[i].role in list
    ensures forall a, b :: 0 <= a < b < |list| ==> list[a] != list[b]
  {
    if n == 0 then []
    else
      var prev := Candidates(table, getCount, rolls, side, n - 1);
      if Accepts(table[n - 1], getCount, rolls[n - 1], side) then prev + [table[n - 1].role] else prev
  }

  /** The indices of the entries among the first `n` that the loop accepts, ascending. */
  function AcceptedIndices(table: seq<GhostOption>, getCount: map<Role, int>, rolls: seq<int>, side: Alignment, n: nat)
    : (idx: seq<nat>)
    requires ValidRolls(rolls, |table|) && n <= |table|
    ensures forall k :: 0 <= k < |idx| ==> idx[k] < n && Accepts(table[idx[k]], getCount, rolls[idx[k]], side)
    ensures forall i :: 0 <= i < n && Accepts(table[i], getCount, rolls[i], side) ==> i in idx
    ensures forall a, b :: 0 <= a < b < |idx| ==> idx[a] < idx[b]
  {
    if n == 0 then []
    else
      var prev := AcceptedIndices(table, getCount, rolls, side, n - 1);
      if Accepts(table[n - 1], getCount, rolls[n - 1], side) then prev + [n - 1] else prev
  }

  /**
   * The candidate list is in table order: its k-th element is the role of
   * the k-th accepted entry, and the accepted entries ascend. This is the
   * order `choice % |list|` indexes.
   */
  lemma {:induction false} CandidatesInTableOrder(
    table: seq<GhostOption>, getCount: map<Role, int>, rolls: seq<int>, side: Alignment, n: nat)
    requires DistinctRoles(table) && ValidRolls(rolls, |table|) && n <= |table|
    ensures var list := Candidates(table, getCount, rolls, side, n);
      var idx := AcceptedIndices(table, getCount, rolls, side, n);
      && |idx| == |list|
      && (forall k :: 0 <= k < |list| ==> table[idx[k]].role == list[k])
  {
    if n > 0 {
      CandidatesInTableOrder(table, getCount, rolls, side, n - 1);
      var prev := Candidates(table, getCount, rolls, side, n - 1);
      var prevIdx := AcceptedIndices(table, getCount, rolls, side, n - 1);
      var accepted := Accepts(table[n - 1], getCount, rolls[n - 1], side);
      var list := Candidates(table, getCount, rolls, side, n);
      var idx := AcceptedIndices(table, getCount, rolls, side, n);
      assert list == if accepted then prev + [table[n - 1].role] else prev;
      assert idx == if accepted then prevIdx + [n - 1] else prevIdx;
      forall k | 0 <= k < |list| ensures table[idx[k]].role == list[k] {
        if k < |prev| {
          assert list[k] == prev[k] && idx[k] == prevIdx[k];
        }
      }
    }
  }

  /** `IsAnySubRole(x => x.IsConverted() || ConvertedCanBecomeGhost)`: with the option on, any sub-role at all. */
  predicate ConvertedBlocks(p: Player, cfg: GhostConfig)
  {
    exists k :: 0 <= k < |p.subRoles| && (IsConverted(p.subRoles[k]) || cfg.convertedCanBecomeGhost)
  }

  /** The player counts as crew (or impostor) for the assignment. */
  predicate CountsAs(p: Player, cfg: GhostConfig, side: Alignment)
  {
    Aligned(p.role, side) && !ConvertedBlocks(p, cfg)
  }

  predicate HasGhostOrGravestone(p: Player)
  {
    exists k :: 0 <= k < |p.subRoles| && (IsGhostRole(p.subRoles[k]) || p.subRoles[k] == Gravestone)
  }

  /** The early exits, in source order; none of them changes any state. */
  predicate Skips(s: AssignState, cfg: GhostConfig, hideNSeek: bool, player: Option<Player>)
  {
    || hideNSeek
    || player.None?
    || player.value.disconnected
    || player.value.id in s.previousRole
    || player.value.role in {GM, Nemesis, Retributionist}
    || IsGhostRole(player.value.role)
    || HasGhostOrGravestone(player.value)
    || |cfg.table| <= 0
    || s.impCount >= cfg.maxImpGhost
    || s.crewCount >= cfg.maxCrewGhost
  }

  predicate WellFormed(cfg: GhostConfig)
  {
    DistinctRoles(cfg.table)
  }

  /** `Dictionary.TryAdd`: an existing entry is kept. */
  function TryAdd<K, V>(m: map<K, V>, k: K, v: V): (r: map<K, V>)
    ensures k in r && r[k] == (if k in m then m[k] else v)
    ensures r.Keys == m.Keys + {k}
    ensures forall x :: x in m ==> r[x] == m[x]
  {
    if k in m then m else m[k := v]
  }

  /** Picks from the list (if any) and grants the pick when it is a ghost role. */
  function Grant(s: AssignState, list: seq<Role>, choice: nat, side: Alignment): (r: (AssignState, Outcome))
    requires forall k :: 0 <= k < |list| ==> list[k] in s.getCount
    ensures r.0.previousRole == s.previousRole && r.0.getCount.Keys == s.getCount.Keys
    ensures r.1 != Skipped
    ensures r.1.NoneGranted? ==> r.0 == s
    ensures |list| > 0 && (forall k :: 0 <= k < |list| ==> IsGhostRole(list[k])) ==> r.1.Granted?
    ensures r.1.Granted? ==> r.1.role in list && IsGhostRole(r.1.role)
    ensures r.1.Granted? ==> r.0.getCount == s.getCount[r.1.role := s.getCount[r.1.role] - 1]
    ensures r.1.Granted? && side == CrewAligned ==> r.0.crewCount == s.crewCount + 1 && r.0.impCount == s.impCount
    ensures r.1.Granted? && side == ImpAligned ==> r.0.impCount == s.impCount + 1 && r.0.crewCount == s.crewCount
  {
    var chosen := if |list| > 0 then list[choice % |list|] else NotAssigned;
    if IsGhostRole(chosen) then
      var counts := s.getCount[chosen := s.getCount[chosen] - 1];
      match side
      case CrewAligned => (s.(crewCount := s.crewCount + 1, getCount := counts), Granted(chosen))
      case ImpAligned => (s.(impCount := s.impCount + 1, getCount := counts), Granted(chosen))
    else (s, NoneGranted)
  }

  /** One call of the assignment for a dying player. */
  function AssignStep(s: AssignState, cfg: GhostConfig, hideNSeek: bool, player: Option<Player>, rolls: seq<int>, choice: nat)
    : (r: (AssignState, Outcome))
    requires WellFormed(cfg) && ValidRolls(rolls, |cfg.table|) && Pooled(cfg.table, s.getCount)
    ensures r.1 == Skipped <==> Skips(s, cfg, hideNSeek, player)
    ensures r.1 == Skipped ==> r.0 == s
    ensures r.1 != Skipped ==> r.0.previousRole == s.previousRole[player.value.id := player.value.role]
    ensures r.0.getCount.Keys == s.getCount.Keys
    ensures r.1.NoneGranted? ==> r.0.getCount == s.getCount && r.0.impCount == s.impCount && r.0.crewCount == s.crewCount
  {
    if Skips(s, cfg, hideNSeek, player) then (s, Skipped)
    else
      var p := player.value;
      var recorded := s.(previousRole := TryAdd(s.previousRole, p.id, p.role));
      if CountsAs(p, cfg, CrewAligned) then
        Grant(recorded, Candidates(cfg.table, s.getCount, rolls, CrewAligned, |cfg.table|), choice, CrewAligned)
      else if CountsAs(p, cfg, ImpAligned) then
        Grant(recorded, Candidates(cfg.table, s.getCount, rolls, ImpAligned, |cfg.table|), choice, ImpAligned)
      else (recorded, NoneGranted)
  }

  /** `Add`: each configured role gets its count unless it already has an entry. */
  function FillPool(getCount: map<Role, int>, table: seq<GhostOption>): (r: map<Role, int>)
    requires DistinctRoles(table)
    ensures forall x :: x in r <==> x in getCount || exists i :: 0 <= i < |table| && table[i].role == x
    ensures forall x :: x in getCount ==> r[x] == getCount[x]
    ensures forall i :: 0 <= i < |table| && table[i].role !in getCount ==> r[table[i].role] == table[i].count
    decreases |table|
  {
    if |table| == 0 then getCount
    else
      DistinctPrefix(table, |table| - 1);
      var prev := FillPool(getCount, table[..|table| - 1]);
      FillPoolStep(getCount, table, prev);
      TryAdd(prev, table[|table| - 1].role, table[|table| - 1].count)
  }

  /** One step of `FillPool`: adding the last entry to the pool built from the others. */
  lemma FillPoolStep(getCount: map<Role, int>, table: seq<GhostOption>, prev: map<Role, int>)
    requires DistinctRoles(table) && |table| > 0
    requires var front := table[..|table| - 1];
      && (forall x :: x in prev <==> x in getCount || exists i :: 0 <= i < |front| && front[i].role == x)
      && (forall x :: x in getCount ==> prev[x] == getCount[x])
      && (forall i :: 0 <= i < |front| && front[i].role !in getCount ==> prev[front[i].role] == front[i].count)
    ensures var r := TryAdd(prev, table[|table| - 1].role, table[|table| - 1].count);
      && (forall x :: x in r <==> x in getCount || exists i :: 0 <= i < |table| && table[i].role == x)
      && (forall x :: x in getCount ==> r[x] == getCount[x])
      && (forall i :: 0 <= i < |table| && table[i].role !in getCount ==> r[table[i].role] == table[i].count)
  {
    var n := |table| - 1;
    var front := table[..n];
    assert forall i :: 0 <= i < n ==> front[i] == table[i];
    var r := TryAdd(prev, table[n].role, table[n].count);
    forall x | x in r
      ensures x in getCount || exists i :: 0 <= i < |table| && table[i].role == x
    {
      if x !in prev {
        assert table[n].role == x;
      }
    }
    forall i | 0 <= i < |table| && table[i].role !in getCount
      ensures r[table[i].role] == table[i].count
    {
      if i < n {
        assert front[i].role == table[i].role;
      }
    }
  }

  /** The entry at `n` is not yet in the list built from the entries before it. */
  lemma NotYetListed(table: seq<GhostOption>, getCount: map<Role, int>, rolls: seq<int>, side: Alignment, n: nat)
    requires DistinctRoles(table) && ValidRolls(rolls, |table|) && n < |table|
    ensures table[n].role !in Candidates(table, getCount, rolls, side, n)
  {
    var list := Candidates(table, getCount, rolls, side, n);
    forall k | 0 <= k < |list| ensures list[k] != table[n].role {
    }
  }

  /**
   * The loop that builds both candidate lists from the configured ghost
   * roles with mode above zero, remaining capacity and a passed roll.
   */
  method BuildCandidateLists(table: seq<GhostOption>, getCount: map<Role, int>, rolls: seq<int>)
    returns (hauntedList: seq<Role>, impHauntedList: seq<Role>)
    requires DistinctRoles(table) && ValidRolls(rolls, |table|) && Pooled(table, getCount)
    ensures hauntedList == Candidates(table, getCount, rolls, CrewAligned, |table|)
    ensures impHauntedList == Candidates(table, getCount, rolls, ImpAligned, |table|)
  {
    hauntedList := [];
    impHauntedList := [];
    var i := 0;
    while i < |table|
      invariant 0 <= i <= |table|
      invariant hauntedList == Candidates(table, getCount, rolls, CrewAligned, i)
      invariant impHauntedList == Candidates(table, getCount, rolls, ImpAligned, i)
    {
      var o := table[i];
      NotYetListed(table, getCount, rolls, CrewAligned, i);
      NotYetListed(table, getCount, rolls, ImpAligned, i);
      assert Candidates(table, getCount, rolls, CrewAligned, i + 1)
        == if Accepts(o, getCount, rolls[i], CrewAligned) then hauntedList + [o.role] else hauntedList;
      assert Candidates(table, getCount, rolls, ImpAligned, i + 1)
        == if Accepts(o, getCount, rolls[i], ImpAligned) then impHauntedList + [o.role] else impHauntedList;
      if o.mode > 0 {
        if IsCrewmate(o.role) {
          var remaining := getCount[o.role];
          // The list is fresh and the keys are distinct, so a role is never already in it.
          if o.role in hauntedList && remaining <= 0 {
            assert false;
          }
          if o.role in hauntedList || remaining <= 0 {
            i := i + 1;
            continue;
          }
          if GetChance(o.mode, rolls[i]) {
            hauntedList := hauntedList + [o.role];
          }
        }
        if IsImpostor(o.role) {
          var remaining := getCount[o.role];
          if o.role in impHauntedList && remaining <= 0 {
            assert false;
          }
          if o.role in impHauntedList || remaining <= 0 {
            i := i + 1;
            continue;
          }
          if GetChance(o.mode, rolls[i]) {
            impHauntedList := impHauntedList + [o.role];
          }
        }
      }
      i := i + 1;
    }
  }

  // ---------------------------------------------------------------------------
  // Properties of one call

  /** Every candidate is the role of an accepted configured entry. */
  lemma {:induction false} CandidateFromTable(
    table: seq<GhostOption>, getCount: map<Role, int>, rolls: seq<int>, side: Alignment, n: nat, k: nat)
    requires DistinctRoles(table) && ValidRolls(rolls, |table|) && n <= |table|
    requires k < |Candidates(table, getCount, rolls, side, n)|
    ensures exists i ::
      && 0 <= i < n
      && table[i].role == Candidates(table, getCount, rolls, side, n)[k]
      && Accepts(table[i], getCount, rolls[i], side)
  {
    var prev := Candidates(table, getCount, rolls, side, n - 1);
    if k < |prev| {
      CandidateFromTable(table, getCount, rolls, side, n - 1, k);
      var i :| 0 <= i < n - 1 && table[i].role == prev[k] && Accepts(table[i], getCount, rolls[i], side);
      assert Candidates(table, getCount, rolls, side, n)[k] == prev[k];
    } else {
      assert Candidates(table, getCount, rolls, side, n)[k] == table[n - 1].role;
      assert Accepts(table[n - 1], getCount, rolls[n - 1], side);
    }
  }

  /** Every configured role is a ghost role (the options only list ghost roles). */
  predicate AllGhostRoles(cfg: GhostConfig)
  {
    forall i :: 0 <= i < |cfg.table| ==> IsGhostRole(cfg.table[i].role)
  }

  /**
   * A grant goes to a player of the matching alignment, picks a ghost role
   * of that alignment with remaining capacity and a passed roll, charges
   * exactly that role by one and bumps exactly that team's counter by one.
   */
  lemma GrantedRoleMatchesTeam(
    s: AssignState, cfg: GhostConfig, hideNSeek: bool, player: Option<Player>, rolls: seq<int>, choice: nat)
    requires WellFormed(cfg) && ValidRolls(rolls, |cfg.table|) && Pooled(cfg.table, s.getCount)
    requires AssignStep(s, cfg, hideNSeek, player, rolls, choice).1.Granted?
    ensures var (t, o) := AssignStep(s, cfg, hideNSeek, player, rolls, choice);
      && IsGhostRole(o.role)
      && o.role in s.getCount && s.getCount[o.role] > 0
      && t.getCount == s.getCount[o.role := s.getCount[o.role] - 1]
      && (exists i :: 0 <= i < |cfg.table| && cfg.table[i].role == o.role && cfg.table[i].mode > 0
            && GetChance(cfg.table[i].mode, rolls[i]))
      && (CountsAs(player.value, cfg, CrewAligned) ==>
            IsCrewmate(o.role) && t.crewCount == s.crewCount + 1 && t.impCount == s.impCount)
      && (!CountsAs(player.value, cfg, CrewAligned) ==>
            CountsAs(player.value, cfg, ImpAligned) && IsImpostor(o.role)
            && t.impCount == s.impCount + 1 && t.crewCount == s.crewCount)
  {
    var (t, o) := AssignStep(s, cfg, hideNSeek, player, rolls, choice);
    var side := if CountsAs(player.value, cfg, CrewAligned) then CrewAligned else ImpAligned;
    var list := Candidates(cfg.table, s.getCount, rolls, side, |cfg.table|);
    var k :| 0 <= k < |list| && list[k] == o.role;
    CandidateFromTable(cfg.table, s.getCount, rolls, side, |cfg.table|, k);
  }

  /**
   * With only ghost roles configured, an eligible crew (impostor) death is
   * granted a role exactly when the crew (impostor) candidate list is not empty.
   */
  lemma GrantedIffCandidates(
    s: AssignState, cfg: GhostConfig, hideNSeek: bool, player: Option<Player>, rolls: seq<int>, choice: nat, side: Alignment)
    requires WellFormed(cfg) && ValidRolls(rolls, |cfg.table|) && Pooled(cfg.table, s.getCount) && AllGhostRoles(cfg)
    requires !Skips(s, cfg, hideNSeek, player) && CountsAs(player.value, cfg, side)
    ensures AssignStep(s, cfg, hideNSeek, player, rolls, choice).1.Granted?
      <==> |Candidates(cfg.table, s.getCount, rolls, side, |cfg.table|)| > 0
  {
    var list := Candidates(cfg.table, s.getCount, rolls, side, |cfg.table|);
    forall k | 0 <= k < |list| ensures IsGhostRole(list[k]) {
      CandidateFromTable(cfg.table, s.getCount, rolls, side, |cfg.table|, k);
    }
    if side == ImpAligned {
      assert !CountsAs(player.value, cfg, CrewAligned);
    }
  }

  /** A second call for the same player changes nothing and grants nothing. */
  lemma SecondCallIsNoOp(
    s: AssignState, cfg: GhostConfig, hideNSeek: bool, p: Player,
    rolls: seq<int>, choice: nat, rolls2: seq<int>, choice2: nat)
    requires WellFormed(cfg) && ValidRolls(rolls, |cfg.table|) && ValidRolls(rolls2, |cfg.table|)
    requires Pooled(cfg.table, s.getCount)
    ensures var t := AssignStep(s, cfg, hideNSeek, Some(p), rolls, choice).0;
      AssignStep(t, cfg, hideNSeek, Some(p), rolls2, choice2) == (t, Skipped)
  {
  }

  /** Either team's cap blocks every player, whatever their alignment. */
  lemma EitherCapBlocksBothTeams(
    s: AssignState, cfg: GhostConfig, hideNSeek: bool, player: Option<Player>, rolls: seq<int>, choice: nat)
    requires WellFormed(cfg) && ValidRolls(rolls, |cfg.table|) && Pooled(cfg.table, s.getCount)
    requires s.impCount >= cfg.maxImpGhost || s.crewCount >= cfg.maxCrewGhost
    ensures AssignStep(s, cfg, hideNSeek, player, rolls, choice) == (s, Skipped)
  {
  }

  /**
   * As written, the converted-player option joins the sub-role test by `||`:
   * with it on, a player holding any sub-role at all counts for neither
   * team, so an eligible death is recorded and granted nothing.
   */
  lemma ConvertedOptionBlocksAnySubRole(
    s: AssignState, cfg: GhostConfig, hideNSeek: bool, p: Player, rolls: seq<int>, choice: nat)
    requires WellFormed(cfg) && ValidRolls(rolls, |cfg.table|) && Pooled(cfg.table, s.getCount)
    requires cfg.convertedCanBecomeGhost && |p.subRoles| > 0 && !Skips(s, cfg, hideNSeek, Some(p))
    ensures AssignStep(s, cfg, hideNSeek, Some(p), rolls, choice)
      == (s.(previousRole := s.previousRole[p.id := p.role]), NoneGranted)
  {
    assert ConvertedBlocks(p, cfg) by {
      assert IsConverted(p.subRoles[0]) || cfg.convertedCanBecomeGhost;
    }
  }

  /** The remaining capacities stay non-negative and the team counters stay within their caps. */
  lemma StepKeepsBounds(
    s: AssignState, cfg: GhostConfig, hideNSeek: bool, player: Option<Player>, rolls: seq<int>, choice: nat)
    requires WellFormed(cfg) && ValidRolls(rolls, |cfg.table|) && Pooled(cfg.table, s.getCount)
    requires NonNegative(s.getCount)
    ensures var t := AssignStep(s, cfg, hideNSeek, player, rolls, choice).0;
      && NonNegative(t.getCount)
      && (s.crewCount <= cfg.maxCrewGhost ==> t.crewCount <= cfg.maxCrewGhost)
      && (s.impCount <= cfg.maxImpGhost ==> t.impCount <= cfg.maxImpGhost)
      && s.crewCount <= t.crewCount <= s.crewCount + 1
      && s.impCount <= t.impCount <= s.impCount + 1
  {
    var (t, o) := AssignStep(s, cfg, hideNSeek, player, rolls, choice);
    if o.Granted? {
      GrantedRoleMatchesTeam(s, cfg, hideNSeek, player, rolls, choice);
    }
  }

  // ---------------------------------------------------------------------------
  // A round: the deaths processed between two calls of Init

  /** One death grants `role` at most once, and exactly as often as its capacity drops. */
  lemma StepConservesCapacity(
    s: AssignState, cfg: GhostConfig, hideNSeek: bool, player: Option<Player>, rolls: seq<int>, choice: nat, role: Role)
    requires WellFormed(cfg) && ValidRolls(rolls, |cfg.table|) && Pooled(cfg.table, s.getCount)
    requires NonNegative(s.getCount) && role in s.getCount
    ensures var (t, o) := AssignStep(s, cfg, hideNSeek, player, rolls, choice);
      && NonNegative(t.getCount)
      && role in t.getCount
      && (if o == Granted(role) then 1 else 0) + t.getCount[role] == s.getCount[role]
  {
    var (t, o) := AssignStep(s, cfg, hideNSeek, player, rolls, choice);
    StepKeepsBounds(s, cfg, hideNSeek, player, rolls, choice);
    if o.Granted? {
      GrantedRoleMatchesTeam(s, cfg, hideNSeek, player, rolls, choice);
    }
  }

  datatype Death = Death(hideNSeek: bool, player: Option<Player>, rolls: seq<int>, choice: nat)

  predicate ValidDeaths(deaths: seq<Death>, n: nat)
  {
    forall d :: 0 <= d < |deaths| ==> ValidRolls(deaths[d].rolls, n)
  }

  /** The state and the outcomes after processing the deaths in order. */
  function Run(s: AssignState, cfg: GhostConfig, deaths: seq<Death>): (r: (AssignState, seq<Outcome>))
    requires WellFormed(cfg) && Pooled(cfg.table, s.getCount) && ValidDeaths(deaths, |cfg.table|)
    ensures |r.1| == |deaths|
    ensures r.0.getCount.Keys == s.getCount.Keys
    decreases |deaths|
  {
    if |deaths| == 0 then (s, [])
    else
      var d := deaths[0];
      var (t, o) := AssignStep(s, cfg, d.hideNSeek, d.player, d.rolls, d.choice);
      assert ValidDeaths(deaths[1..], |cfg.table|) by {
        forall e | 0 <= e < |deaths[1..]| ensures ValidRolls(deaths[1..][e].rolls, |cfg.table|) {
          assert deaths[1..][e] == deaths[e + 1];
        }
      }
      var (u, os) := Run(t, cfg, deaths[1..]);
      (u, [o] + os)
  }

  /** How many times the outcomes grant `role`. */
  function GrantCount(outcomes: seq<Outcome>, role: Role): (c: nat)
    ensures c <= |outcomes|
  {
    if |outcomes| == 0 then 0
    else (if outcomes[0] == Granted(role) then 1 else 0) + GrantCount(outcomes[1..], role)
  }

  /**
   * Over a round, the grants of a role plus its remaining capacity equal its
   * capacity at the start, and the capacity never goes below zero.
   */
  lemma {:induction false} RunConservesCapacity(s: AssignState, cfg: GhostConfig, deaths: seq<Death>, role: Role)
    requires WellFormed(cfg) && Pooled(cfg.table, s.getCount) && ValidDeaths(deaths, |cfg.table|)
    requires NonNegative(s.getCount) && role in s.getCount
    ensures var (t, outcomes) := Run(s, cfg, deaths);
      && NonNegative(t.getCount)
      && GrantCount(outcomes, role) + t.getCount[role] == s.getCount[role]
    decreases |deaths|
  {
    if |deaths| > 0 {
      var d := deaths[0];
      var (t, o) := AssignStep(s, cfg, d.hideNSeek, d.player, d.rolls, d.choice);
      StepConservesCapacity(s, cfg, d.hideNSeek, d.player, d.rolls, d.choice, role);
      assert ValidDeaths(deaths[1..], |cfg.table|) by {
        forall e | 0 <= e < |deaths[1..]| ensures ValidRolls(deaths[1..][e].rolls, |cfg.table|) {
          assert deaths[1..][e] == deaths[e + 1];
        }
      }
      RunConservesCapacity(t, cfg, deaths[1..], role);
      var (u, rest) := Run(t, cfg, deaths[1..]);
      var outcomes := [o] + rest;
      assert Run(s, cfg, deaths) == (u, outcomes);
      assert outcomes[0] == o && outcomes[1..] == rest;
      assert GrantCount(outcomes, role) == (if o == Granted(role) then 1 else 0) + GrantCount(rest, role);
    }
  }

  /** A role is granted at most as often as its capacity, so an exhausted role is never granted again. */
  lemma GrantsBoundedByCapacity(s: AssignState, cfg: GhostConfig, deaths: seq<Death>, role: Role)
    requires WellFormed(cfg) && Pooled(cfg.table, s.getCount) && ValidDeaths(deaths, |cfg.table|)
    requires NonNegative(s.getCount) && role in s.getCount
    ensures GrantCount(Run(s, cfg, deaths).1, role) <= s.getCount[role]
    ensures s.getCount[role] == 0 ==> Granted(role) !in Run(s, cfg, deaths).1
  {
    RunConservesCapacity(s, cfg, deaths, role);
    var outcomes := Run(s, cfg, deaths).1;
    if s.getCount[role] == 0 && Granted(role) in outcomes {
      var k :| 0 <= k < |outcomes| && outcomes[k] == Granted(role);
      GrantCountPositive(outcomes, role, k);
    }
  }

  lemma {:induction false} GrantCountPositive(outcomes: seq<Outcome>, role: Role, k: nat)
    requires k < |outcomes| && outcomes[k] == Granted(role)
    ensures GrantCount(outcomes, role) > 0
    decreases k
  {
    if k > 0 {
      GrantCountPositive(outcomes[1..], role, k - 1);
    }
  }

  // ---------------------------------------------------------------------------
  // Filling the pool

  /** Right after the reset, the pool holds exactly the configured roles with their counts. */
  lemma PoolAfterReset(table: seq<GhostOption>)
    requires DistinctRoles(table)
    ensures var pool := FillPool(map[], table);
      && (forall i :: 0 <= i < |table| ==> table[i].role in pool && pool[table[i].role] == table[i].count)
      && (forall r :: r in pool ==> exists i :: 0 <= i < |table| && table[i].role == r)
  {
  }

  /** Filling twice is filling once: the second pass finds every entry present. */
  lemma FillPoolIdempotent(getCount: map<Role, int>, table: seq<GhostOption>)
    requires DistinctRoles(table)
    ensures FillPool(FillPool(getCount, table), table) == FillPool(getCount, table)
  {
    var once := FillPool(getCount, table);
    var twice := FillPool(once, table);
    assert twice.Keys == once.Keys;
  }

  /** A filled pool can serve every later call of the assignment, and non-negative counts stay non-negative. */
  lemma FilledPoolIsPooled(getCount: map<Role, int>, table: seq<GhostOption>)
    requires DistinctRoles(table)
    ensures Pooled(table, FillPool(getCount, table))
    ensures NonNegative(getCount) && (forall i :: 0 <= i < |table| ==> table[i].count >= 0)
      ==> NonNegative(FillPool(getCount, table))
  {
    var pool := FillPool(getCount, table);
    if NonNegative(getCount) && (forall i :: 0 <= i < |table| ==> table[i].count >= 0) {
      forall r | r in pool ensures pool[r] >= 0 {
        if r !in getCount {
          var i :| 0 <= i < |table| && table[i].role == r;
        }
      }
    }
  }

  // ---------------------------------------------------------------------------
  // A round with two crew ghost roles

  const ScenarioA := Other(1, Crewmate, true, false)
  const ScenarioB := Other(2, Crewmate, true, false)
  const ScenarioConfig := GhostConfig([GhostOption(ScenarioA, 100, 1), GhostOption(ScenarioB, 100, 1)], 1, 1, false)

  function ScenarioCrewPlayer(id: PlayerId): Player
  {
    Player(id, Other(10, Crewmate, false, false), [], false)
  }

  /** The pool right after the reset for the scenario configuration. */
  lemma ScenarioPool()
    ensures FillPool(map[], ScenarioConfig.table) == map[ScenarioA := 1, ScenarioB := 1]
  {
    var pool := FillPool(map[], ScenarioConfig.table);
    PoolAfterReset(ScenarioConfig.table);
    assert pool.Keys == {ScenarioA, ScenarioB};
  }

  /** With both entries accepted, the crew candidate list is A then B, as configured. */
  lemma ScenarioCandidatesInOrder(rolls: seq<int>)
    requires ValidRolls(rolls, 2)
    ensures Candidates(ScenarioConfig.table, map[ScenarioA := 1, ScenarioB := 1], rolls, CrewAligned, 2)
      == [ScenarioA, ScenarioB]
  {
    var table := ScenarioConfig.table;
    var pool := map[ScenarioA := 1, ScenarioB := 1];
    assert Accepts(table[0], pool, rolls[0], CrewAligned) && Accepts(table[1], pool, rolls[1], CrewAligned);
    var none := Candidates(table, pool, rolls, CrewAligned, 0);
    var first := Candidates(table, pool, rolls, CrewAligned, 1);
    assert first == none + [table[0].role];
    assert Candidates(table, pool, rolls, CrewAligned, 2) == first + [table[1].role];
  }

  /**
   * Crew cap 1, two crew ghost roles A and B at mode 100 with one slot each:
   * the first eligible crew death receives A or B, the second hits the crew
   * cap and is skipped without being recorded.
   */
  lemma TwoCrewDeathsScenario(rolls1: seq<int>, choice1: nat, rolls2: seq<int>, choice2: nat)
    requires ValidRolls(rolls1, 2) && ValidRolls(rolls2, 2)
    ensures var s0 := AssignState(0, 0, map[ScenarioA := 1, ScenarioB := 1], map[]);
      var (s1, o1) := AssignStep(s0, ScenarioConfig, false, Some(ScenarioCrewPlayer(1)), rolls1, choice1);
      && (o1 == Granted(ScenarioA) || o1 == Granted(ScenarioB))
      && s1.crewCount == 1
      && AssignStep(s1, ScenarioConfig, false, Some(ScenarioCrewPlayer(2)), rolls2, choice2) == (s1, Skipped)
  {
    var cfg := ScenarioConfig;
    var pool := map[ScenarioA := 1, ScenarioB := 1];
    var s0 := AssignState(0, 0, pool, map[]);
    var first := ScenarioCrewPlayer(1);
    ScenarioCandidatesInOrder(rolls1);
    assert !Skips(s0, cfg, false, Some(first));
    assert CountsAs(first, cfg, CrewAligned);
    var recorded := s0.(previousRole := TryAdd(s0.previousRole, first.id, first.role));
    var (s1, o1) := AssignStep(s0, cfg, false, Some(first), rolls1, choice1);
    assert (s1, o1) == Grant(recorded, [ScenarioA, ScenarioB], choice1, CrewAligned);
    EitherCapBlocksBothTeams(s1, cfg, false, Some(ScenarioCrewPlayer(2)), rolls2, choice2);
  }

  /** The round state held in four pieces of static state. */
  class GhostRoleAssign {
    var impCount: int
    var crewCount: int
    var getCount: map<Role, int>
    var ghostGetPreviousRole: map<PlayerId, Role>

    function State(): AssignState
      reads this
    {
      AssignState(impCount, crewCount, getCount, ghostGetPreviousRole)
    }

    /** The static initialisers. */
    constructor ()
      ensures State() == AssignState(0, 0, map[], map[])
    {
      impCount := 0;
      crewCount := 0;
      getCount := map[];
      ghostGetPreviousRole := map[];
    }

    /** Round reset: both counters zero, both dictionaries empty. */
    method Init()
      modifies this
      ensures State() == AssignState(0, 0, map[], map[])
    {
      crewCount := 0;
      impCount := 0;
      getCount := map[];
      ghostGetPreviousRole := map[];
    }

    /** Fills the pool from the configured ghost roles without overwriting existing entries. */
    method Add(table: seq<GhostOption>)
      requires DistinctRoles(table)
      modifies this
      ensures getCount == FillPool(old(getCount), table)
      ensures impCount == old(impCount) && crewCount == old(crewCount)
      ensures ghostGetPreviousRole == old(ghostGetPreviousRole)
    {
      var i := 0;
      while i < |table|
        invariant 0 <= i <= |table|
        invariant getCount == FillPool(old(getCount), table[..i])
        invariant impCount == old(impCount) && crewCount == old(crewCount)
        invariant ghostGetPreviousRole == old(ghostGetPreviousRole)
      {
        DistinctPrefix(table, i + 1);
        assert table[..i + 1][..i] == table[..i] && table[..i + 1][i] == table[i];
        assert FillPool(old(getCount), table[..i + 1]) == TryAdd(getCount, table[i].role, table[i].count);
        getCount := TryAdd(getCount, table[i].role, table[i].count);
        i := i + 1;
      }
      assert table[..i] == table;
    }

    /** Called for a player who just died. */
    method GhostAssignPatch(cfg: GhostConfig, hideNSeek: bool, player: Option<Player>, rolls: seq<int>, choice: nat)
      returns (outcome: Outcome)
      requires WellFormed(cfg) && ValidRolls(rolls, |cfg.table|) && Pooled(cfg.table, getCount)
      modifies this
      ensures (State(), outcome) == AssignStep(old(State()), cfg, hideNSeek, player, rolls, choice)
    {
      if hideNSeek || player.None? || player.value.disconnected || player.value.id in ghostGetPreviousRole {
        return Skipped;
      }
      var p := player.value;
      var role := p.role;
      if role == GM || role == Nemesis || role == Retributionist {
        return Skipped;
      }
      var isCrewmate := CountsAs(p, cfg, CrewAligned);
      var isImpostor := CountsAs(p, cfg, ImpAligned);

      if IsGhostRole(role) || HasGhostOrGravestone(p) || |cfg.table| <= 0 {
        return Skipped;
      }
      if impCount >= cfg.maxImpGhost || crewCount >= cfg.maxCrewGhost {
        return Skipped;
      }
      assert !Skips(State(), cfg, hideNSeek, player);

      ghostGetPreviousRole := TryAdd(ghostGetPreviousRole, p.id, role);

      var hauntedList, impHauntedList := BuildCandidateLists(cfg.table, getCount, rolls);

      if isCrewmate {
        outcome := GrantFrom(hauntedList, choice, CrewAligned);
        return;
      }
      if isImpostor {
        outcome := GrantFrom(impHauntedList, choice, ImpAligned);
        return;
      }
      return NoneGranted;
    }

    /** Picks a candidate and, when it is a ghost role, grants it and charges the pool and the team counter. */
    method GrantFrom(list: seq<Role>, choice: nat, side: Alignment) returns (outcome: Outcome)
      requires forall k :: 0 <= k < |list| ==> list[k] in getCount
      modifies this
      ensures (State(), outcome) == Grant(old(State()), list, choice, side)
    {
      var chosen := NotAssigned;
      if |list| > 0 {
        chosen := list[choice % |list|];
      }
      if IsGhostRole(chosen) {
        if side == CrewAligned {
          crewCount := crewCount + 1;
        } else {
          impCount := impCount + 1;
        }
        getCount := getCount[chosen := getCount[chosen] - 1];
        return Granted(chosen);
      }
      return NoneGranted;
    }
  }
}
