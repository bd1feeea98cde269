/** `CityflowEnv`: the batched environment. One action entry per controllable
    intersection, where the value equal to the intersection's phase count means
    "keep the current phase"; each step issues only the phase changes that
    differ from the stored phase table, then advances the engine ten ticks. */
module Cityflow {
  import opened Roadnet
  import opened Spaces
  import opened Replay
  import opened CityflowEngine

  /** Upper bound of every observation entry. */
  const LaneMaxVehicleCount: int := 1000

  /** Ticks the engine advances per `step`. */
  const TicksPerStep: nat := 10

  // ----- Phase table -----

  /** The phase table right after construction: every controllable
      intersection's id maps to phase 0. */
  function ZeroPhases(xs: seq<Intersection>): (t: map<string, int>)
    ensures forall k :: k in t <==> exists i :: 0 <= i < |xs| && xs[i].id == k
    ensures forall k :: k in t ==> t[k] == 0
  {
    if xs == [] then map[]
    else
      var init := xs[..|xs| - 1];
      assert forall i :: 0 <= i < |xs| - 1 ==> init[i] == xs[i];
      ZeroPhases(init)[xs[|xs| - 1].id := 0]
  }

  lemma ZeroPhasesSnoc(xs: seq<Intersection>, x: Intersection)
    ensures ZeroPhases(xs + [x]) == ZeroPhases(xs)[x.id := 0]
  {
    assert (xs + [x])[..|xs|] == xs;
  }

  /** An action entry commands a phase change when it names a real phase
      (below the phase count) that differs from the stored one. */
  predicate IsPhaseChange(a: int, count: nat, stored: int)
  {
    a < count && a != stored
  }

  /** The commands issued and the phase table left behind. */
  datatype PhaseUpdate = PhaseUpdate(commands: seq<PhaseCommand>, table: map<string, int>)

  /** The first `n` iterations of the loop over the controllable
      intersections, in index order, starting from phase table `table`. */
  function ApplyPhaseActions(ids: seq<string>, counts: seq<nat>, action: seq<int>,
                             table: map<string, int>, n: nat): (r: PhaseUpdate)
    requires n <= |ids| && n <= |counts| && n <= |action|
    requires forall i :: 0 <= i < n ==> ids[i] in table
    ensures r.table.Keys == table.Keys
    ensures |r.commands| <= n
    decreases n
  {
    if n == 0 then PhaseUpdate([], table)
    else
      var prev := ApplyPhaseActions(ids, counts, action, table, n - 1);
      var id, a := ids[n - 1], action[n - 1];
      if IsPhaseChange(a, counts[n - 1], prev.table[id])
      then PhaseUpdate(prev.commands + [PhaseCommand(id, a)], prev.table[id := a])
      else prev
  }

  /** One more intersection of the phase loop: a command and a table update
      exactly when its entry is a phase change against the table so far. */
  lemma ApplyPhaseActionsStep(ids: seq<string>, counts: seq<nat>, action: seq<int>,
                              table: map<string, int>, n: nat)
    requires n < |ids| && n < |counts| && n < |action|
    requires forall i :: 0 <= i <= n ==> ids[i] in table
    ensures var prev := ApplyPhaseActions(ids, counts, action, table, n);
            ids[n] in prev.table &&
            ApplyPhaseActions(ids, counts, action, table, n + 1) ==
              if IsPhaseChange(action[n], counts[n], prev.table[ids[n]])
              then PhaseUpdate(prev.commands + [PhaseCommand(ids[n], action[n])], prev.table[ids[n] := action[n]])
              else prev
  {
  }

  /** Reference definition: the commands for the first `n` intersections
      when every comparison is made against the table as it was before the
      step. */
  function IssuedAgainst(ids: seq<string>, counts: seq<nat>, action: seq<int>,
                         table: map<string, int>, n: nat): seq<PhaseCommand>
    requires n <= |ids| && n <= |counts| && n <= |action|
    requires forall i :: 0 <= i < n ==> ids[i] in table
  {
    if n == 0 then []
    else
      IssuedAgainst(ids, counts, action, table, n - 1) +
      (if IsPhaseChange(action[n - 1], counts[n - 1], table[ids[n - 1]])
       then [PhaseCommand(ids[n - 1], action[n - 1])] else [])
  }

  /** With distinct ids, the loop issues exactly the reference commands, and
      afterwards intersection i holds `action[i]` if a command was issued for
      it and its old phase otherwise; no other entry changes. */
  lemma {:induction false} ApplyMatchesReference(ids: seq<string>, counts: seq<nat>, action: seq<int>,
                                                 table: map<string, int>, n: nat)
    requires n <= |ids| && n <= |counts| && n <= |action|
    requires forall i :: 0 <= i < n ==> ids[i] in table
    requires Distinct(ids)
    ensures ApplyPhaseActions(ids, counts, action, table, n).commands == IssuedAgainst(ids, counts, action, table, n)
    ensures forall i :: 0 <= i < n ==>
              ApplyPhaseActions(ids, counts, action, table, n).table[ids[i]] ==
                if IsPhaseChange(action[i], counts[i], table[ids[i]]) then action[i] else table[ids[i]]
    ensures forall k :: k in table && (forall i :: 0 <= i < n ==> ids[i] != k) ==>
              ApplyPhaseActions(ids, counts, action, table, n).table[k] == table[k]
  {
    if n > 0 {
      ApplyMatchesReference(ids, counts, action, table, n - 1);
      var prev := ApplyPhaseActions(ids, counts, action, table, n - 1);
      var id := ids[n - 1];
      assert prev.table[id] == table[id];
    }
  }

  /** Every reference command belongs to an intersection whose entry names
      a real phase different from the stored one, and carries that entry. */
  lemma {:induction false} IssuedSound(ids: seq<string>, counts: seq<nat>, action: seq<int>,
                                       table: map<string, int>, n: nat, c: PhaseCommand)
    requires n <= |ids| && n <= |counts| && n <= |action|
    requires forall i :: 0 <= i < n ==> ids[i] in table
    requires c in IssuedAgainst(ids, counts, action, table, n)
    ensures exists i :: 0 <= i < n && c == PhaseCommand(ids[i], action[i]) &&
                        IsPhaseChange(action[i], counts[i], table[ids[i]])
  {
    var prefix := IssuedAgainst(ids, counts, action, table, n - 1);
    if c in prefix {
      IssuedSound(ids, counts, action, table, n - 1, c);
    }
  }

  /** Every intersection whose entry is a real, different phase gets its command. */
  lemma {:induction false} IssuedComplete(ids: seq<string>, counts: seq<nat>, action: seq<int>,
                                          table: map<string, int>, n: nat, i: nat)
    requires n <= |ids| && n <= |counts| && n <= |action|
    requires forall j :: 0 <= j < n ==> ids[j] in table
    requires i < n && IsPhaseChange(action[i], counts[i], table[ids[i]])
    ensures PhaseCommand(ids[i], action[i]) in IssuedAgainst(ids, counts, action, table, n)
  {
    if i < n - 1 {
      IssuedComplete(ids, counts, action, table, n - 1, i);
    }
  }

  /** Command minimality: with distinct ids, a step issues a command for
      intersection i if and only if `action[i]` is a real phase that differs
      from the stored phase, and that command sets `action[i]`. */
  lemma CommandIffPhaseChange(ids: seq<string>, counts: seq<nat>, action: seq<int>,
                              table: map<string, int>, i: nat)
    requires |ids| == |counts| <= |action|
    requires forall j :: 0 <= j < |ids| ==> ids[j] in table
    requires Distinct(ids) && i < |ids|
    ensures var r := ApplyPhaseActions(ids, counts, action, table, |ids|);
            (exists c :: c in r.commands && c.intersectionId == ids[i])
              <==> IsPhaseChange(action[i], counts[i], table[ids[i]])
    ensures var r := ApplyPhaseActions(ids, counts, action, table, |ids|);
            forall c :: c in r.commands && c.intersectionId == ids[i] ==> c.phase == action[i]
  {
    var n := |ids|;
    ApplyMatchesReference(ids, counts, action, table, n);
    var r := ApplyPhaseActions(ids, counts, action, table, n);
    if IsPhaseChange(action[i], counts[i], table[ids[i]]) {
      IssuedComplete(ids, counts, action, table, n, i);
    }
    forall c | c in r.commands && c.intersectionId == ids[i]
      ensures c == PhaseCommand(ids[i], action[i]) && IsPhaseChange(action[i], counts[i], table[ids[i]])
    {
      IssuedSound(ids, counts, action, table, n, c);
      var j :| 0 <= j < n && c == PhaseCommand(ids[j], action[j]) &&
               IsPhaseChange(action[j], counts[j], table[ids[j]]);
      assert j == i;
    }
  }

  /** No-op: when every entry is at or above its phase count, no command is
      issued and the table is untouched. */
  lemma {:induction false} SentinelIssuesNothing(ids: seq<string>, counts: seq<nat>, action: seq<int>,
                                                 table: map<string, int>, n: nat)
    requires n <= |ids| && n <= |counts| && n <= |action|
    requires forall i :: 0 <= i < n ==> ids[i] in table
    requires forall i :: 0 <= i < n ==> action[i] >= counts[i]
    ensures ApplyPhaseActions(ids, counts, action, table, n) == PhaseUpdate([], table)
  {
    if n > 0 {
      SentinelIssuesNothing(ids, counts, action, table, n - 1);
    }
  }

  /** Two intersections with 3 and 2 phases, both stored at phase 0: the
      all-sentinel action [3, 2] issues nothing, and [1, 0] issues exactly one
      command, for the first intersection. */
  lemma TwoIntersectionScenario(a: string, b: string)
    requires a != b
    ensures var table := map[a := 0, b := 0];
            ApplyPhaseActions([a, b], [3, 2], [3, 2], table, 2) == PhaseUpdate([], table)
    ensures var table := map[a := 0, b := 0];
            ApplyPhaseActions([a, b], [3, 2], [1, 0], table, 2) ==
            PhaseUpdate([PhaseCommand(a, 1)], map[a := 1, b := 0])
  {
  }

  /** A stored phase is either the initial 0 or a real phase of its
      intersection. */
  predicate StoredPhasesInRange(ids: seq<string>, counts: seq<nat>, table: map<string, int>)
    requires |ids| == |counts|
  {
    forall i :: 0 <= i < |ids| ==>
      ids[i] in table && 0 <= table[ids[i]] && (table[ids[i]] == 0 || table[ids[i]] < counts[i])
  }

  /** A step with non-negative entries keeps every stored phase in range. */
  lemma ApplyKeepsPhasesInRange(ids: seq<string>, counts: seq<nat>, action: seq<int>, table: map<string, int>)
    requires |ids| == |counts| <= |action|
    requires Distinct(ids)
    requires forall i :: 0 <= i < |ids| ==> 0 <= action[i]
    requires StoredPhasesInRange(ids, counts, table)
    ensures StoredPhasesInRange(ids, counts, ApplyPhaseActions(ids, counts, action, table, |ids|).table)
  {
    ApplyMatchesReference(ids, counts, action, table, |ids|);
  }

  /** The phase part of consecutive steps, one action vector per step. */
  function RunSteps(ids: seq<string>, counts: seq<nat>, actions: seq<seq<int>>,
                    table: map<string, int>): (r: PhaseUpdate)
    requires |ids| == |counts|
    requires forall t :: 0 <= t < |actions| ==> |ids| <= |actions[t]|
    requires forall i :: 0 <= i < |ids| ==> ids[i] in table
    ensures r.table.Keys == table.Keys
    decreases |actions|
  {
    if actions == [] then PhaseUpdate([], table)
    else
      var first := ApplyPhaseActions(ids, counts, actions[0], table, |ids|);
      var rest := RunSteps(ids, counts, actions[1..], first.table);
      PhaseUpdate(first.commands + rest.commands, rest.table)
  }

  /** No-op idempotence over a run: steps whose every entry is the sentinel
      (or above) never issue a command and leave the table as it was. */
  lemma {:induction false} SentinelRunIssuesNothing(ids: seq<string>, counts: seq<nat>,
                                                    actions: seq<seq<int>>, table: map<string, int>)
    requires |ids| == |counts|
    requires forall t :: 0 <= t < |actions| ==> |ids| <= |actions[t]|
    requires forall i :: 0 <= i < |ids| ==> ids[i] in table
    requires forall t, i :: 0 <= t < |actions| && 0 <= i < |ids| ==> actions[t][i] >= counts[i]
    ensures RunSteps(ids, counts, actions, table) == PhaseUpdate([], table)
  {
    if actions != [] {
      SentinelIssuesNothing(ids, counts, actions[0], table, |ids|);
      SentinelRunIssuesNothing(ids, counts, actions[1..], table);
    }
  }

  // ----- Spaces -----

  /** `MultiDiscrete([phase + 1 for phase in intersection_phases])` */
  function ActionSpace(counts: seq<nat>): (r: MultiDiscrete)
    ensures |r.nvec| == |counts|
    ensures forall i :: 0 <= i < |counts| ==> r.nvec[i] == counts[i] + 1
  {
    MultiDiscrete(seq(|counts|, i requires 0 <= i < |counts| => counts[i] + 1))
  }

  /** An action is in the space iff it has one entry per intersection and
      entry i lies in 0 .. counts[i], the top value being the keep-phase sentinel. */
  lemma ActionSpaceBounds(counts: seq<nat>, action: seq<int>)
    ensures InMultiDiscrete(ActionSpace(counts), action) <==>
            |action| == |counts| && forall i :: 0 <= i < |counts| ==> 0 <= action[i] <= counts[i]
  {
  }

  /** The all-sentinel action is a member of the action space and issues no command. */
  lemma SentinelActionIsNoOp(ids: seq<string>, counts: seq<nat>, table: map<string, int>)
    requires |ids| == |counts|
    requires forall i :: 0 <= i < |ids| ==> ids[i] in table
    ensures InMultiDiscrete(ActionSpace(counts), counts)
    ensures ApplyPhaseActions(ids, counts, counts, table, |ids|) == PhaseUpdate([], table)
  {
    SentinelIssuesNothing(ids, counts, counts, table, |ids|);
  }

  /** `Box(low=0, high=1000, shape=(lane_count + non_peripheral_intersection_count,))` */
  function ObservationSpace(laneCount: nat, controllable: nat): (b: Box)
    ensures BoxShape(b) == laneCount + controllable
  {
    UniformBox(0, LaneMaxVehicleCount, laneCount + controllable)
  }

  // ----- Construction helpers (the two loops of `__init__`) -----

  /** The intersection loop: keeps the non-virtual intersections, their phase
      counts and a phase table initialised to 0. */
  method FilterTopology(intersections: seq<Intersection>)
    returns (kept: seq<Intersection>, phases: seq<nat>, table: map<string, int>)
    ensures kept == NonVirtual(intersections)
    ensures phases == PhaseCounts(kept)
    ensures table == ZeroPhases(kept)
  {
    kept, phases, table := [], [], map[];
    var i := 0;
    while i < |intersections|
      invariant 0 <= i <= |intersections|
      invariant kept == NonVirtual(intersections[..i])
      invariant phases == PhaseCounts(kept)
      invariant table == ZeroPhases(kept)
    {
      var x := intersections[i];
      NonVirtualPrefixStep(intersections, i);
      if !x.isVirtual {
        PhaseCountsSnoc(kept, x);
        ZeroPhasesSnoc(kept, x);
        kept := kept + [x];
        phases := phases + [|x.lightphases|];
        table := table[x.id := 0];
      }
      i := i + 1;
    }
    assert intersections[..i] == intersections;
  }

  /** The road loop: `_roads_data[road["id"]] = {"lanes": road["lanes"]}`. */
  method IndexRoads(roads: seq<Road>) returns (m: map<string, seq<Lane>>)
    ensures m == RoadsMap(roads)
  {
    m := map[];
    var i := 0;
    while i < |roads|
      invariant 0 <= i <= |roads|
      invariant m == RoadsMap(roads[..i])
    {
      assert roads[..i + 1][..i] == roads[..i];
      m := m[roads[i].id := roads[i].lanes];
      i := i + 1;
    }
    assert roads[..i] == roads;
  }

  class CityflowEnv {
    const engine: Engine
    const envName: string
    const maxTimesteps: int
    var currentTimestep: int
    var currentEpisode: nat
    const replayFilesDirPath: string
    const nonPeripheralIntersections: seq<Intersection>
    const intersectionPhases: seq<nat>
    var currentPhases: map<string, int>
    const roadsData: map<string, seq<Lane>>
    const observationSpace: Box
    const actionSpace: MultiDiscrete
    var lastObservation: seq<int>
    var lastAction: seq<int>

    ghost predicate Valid()
      reads this, engine
    {
      engine.Valid() &&
      intersectionPhases == PhaseCounts(nonPeripheralIntersections) &&
      (forall i :: 0 <= i < |nonPeripheralIntersections| ==> nonPeripheralIntersections[i].id in currentPhases) &&
      observationSpace == ObservationSpace(engine.laneCount, |nonPeripheralIntersections|) &&
      actionSpace == ActionSpace(intersectionPhases)
    }

    ghost function ControlledIds(): seq<string>
      reads this
    {
      Ids(nonPeripheralIntersections)
    }

    /** `__init__`: the road network and the engine come from the
        configuration files; `cwd` and `timestamp` stand for the working
        directory and the clock reading that name this run's replay folder. */
    constructor (roadnet: RoadnetData, cwd: string, timestamp: string, envName: string, maxTimesteps: int)
      ensures Valid() && fresh(engine)
      ensures this.envName == envName && this.maxTimesteps == maxTimesteps
      ensures currentTimestep == 1 && currentEpisode == 0
      ensures replayFilesDirPath == ReplayDir(cwd, envName, timestamp)
      ensures engine.replayFile == ReplayPath(replayFilesDirPath, 0)
      ensures engine.commands == [] && engine.ticks == 0
      ensures nonPeripheralIntersections == NonVirtual(roadnet.intersections)
      ensures intersectionPhases == PhaseCounts(nonPeripheralIntersections)
      ensures currentPhases == ZeroPhases(nonPeripheralIntersections)
      ensures roadsData == RoadsMap(roadnet.roads)
      ensures BoxShape(observationSpace) == engine.laneCount + |nonPeripheralIntersections|
      ensures lastObservation == Zeros(BoxShape(observationSpace))
      ensures lastAction == Zeros(|nonPeripheralIntersections|)
    {
      var e := new Engine(roadnet);
      engine := e;
      this.envName := envName;
      this.maxTimesteps := maxTimesteps;
      currentTimestep := 1;
      currentEpisode := 0;
      replayFilesDirPath := ReplayDir(cwd, envName, timestamp);
      var kept, phases, table := FilterTopology(roadnet.intersections);
      nonPeripheralIntersections := kept;
      intersectionPhases := phases;
      currentPhases := table;
      var roads := IndexRoads(roadnet.roads);
      roadsData := roads;
      observationSpace := ObservationSpace(e.laneCount, |kept|);
      lastObservation := Zeros(e.laneCount + |kept|);
      lastAction := Zeros(|kept|);
      actionSpace := ActionSpace(phases);
      new;
      engine.SetReplayFile(ReplayPath(replayFilesDirPath, currentEpisode));
    }

    /** The loop at the head of `step` over the controllable intersections,
        in order: a command for each entry that names a real phase different
        from the stored one. `complete` is false when the action runs out
        before the intersections do, where Python raises `IndexError`. */
    method IssuePhaseChanges(action: seq<int>) returns (complete: bool)
      requires Valid()
      modifies this`currentPhases, engine
      ensures Valid()
      ensures complete <==> |action| >= |nonPeripheralIntersections|
      ensures var u := ApplyPhaseActions(ControlledIds(), intersectionPhases, action, old(currentPhases),
                                         Min(|action|, |nonPeripheralIntersections|));
              currentPhases == u.table && engine.commands == old(engine.commands) + u.commands
      ensures engine.ticks == old(engine.ticks) && engine.waiting == old(engine.waiting) &&
                engine.vehicleCount == old(engine.vehicleCount)
      ensures engine.replayFile == old(engine.replayFile)
    {
      var ids := Ids(nonPeripheralIntersections);
      var counts := intersectionPhases;
      ghost var table0 := currentPhases;
      ghost var commands0 := engine.commands;
      var ind := 0;
      ghost var done := PhaseUpdate([], table0);
      while ind < |ids|
        invariant 0 <= ind <= |ids| && ind <= |action|
        invariant done == ApplyPhaseActions(ids, counts, action, table0, ind)
        invariant currentPhases == done.table && engine.commands == commands0 + done.commands
        invariant engine.Valid() && engine.replayFile == old(engine.replayFile)
        invariant engine.ticks == old(engine.ticks) && engine.waiting == old(engine.waiting) &&
                  engine.vehicleCount == old(engine.vehicleCount)
      {
        if ind >= |action| {
          return false;
        }
        var id := ids[ind];
        ApplyPhaseActionsStep(ids, counts, action, table0, ind);
        done := ApplyPhaseActions(ids, counts, action, table0, ind + 1);
        if action[ind] < counts[ind] && action[ind] != currentPhases[id] {
          engine.SetTlPhase(id, action[ind]);
          currentPhases := currentPhases[id := action[ind]];
        }
        ind := ind + 1;
      }
      return true;
    }

    /** `step(action)`: phase changes, ten ticks, observation, termination.
        Each tick's reward term is the mean vehicle speed, so a tick that ends
        with no vehicle in the network stops the step with `ZeroDivisionError`
        after the ticks already run and before the timestep or the stored
        observation move on. */
    method Step(action: seq<int>) returns (outcome: StepOutcome)
      requires Valid()
      modifies this, engine
      ensures Valid()
      ensures lastAction == action && currentEpisode == old(currentEpisode)
      ensures engine.replayFile == old(engine.replayFile)
      ensures var u := ApplyPhaseActions(ControlledIds(), intersectionPhases, action, old(currentPhases),
                                         Min(|action|, |nonPeripheralIntersections|));
              currentPhases == u.table && engine.commands == old(engine.commands) + u.commands
      ensures |action| < |nonPeripheralIntersections| ==>
                outcome == IndexError &&
                engine.ticks == old(engine.ticks) && engine.waiting == old(engine.waiting) &&
                engine.vehicleCount == old(engine.vehicleCount) &&
                currentTimestep == old(currentTimestep) && lastObservation == old(lastObservation)
      ensures |action| >= |nonPeripheralIntersections| ==> outcome.Stepped? || outcome.ZeroDivisionError?
      ensures outcome.ZeroDivisionError? ==>
                old(engine.ticks) < engine.ticks <= old(engine.ticks) + TicksPerStep &&
                engine.vehicleCount == 0 &&
                currentTimestep == old(currentTimestep) && lastObservation == old(lastObservation)
      ensures outcome.Stepped? ==>
                engine.ticks == old(engine.ticks) + TicksPerStep &&
                engine.vehicleCount > 0 &&
                currentTimestep == old(currentTimestep) + 1 &&
                outcome == Stepped(engine.LaneWaitingVehicleCount() + action, old(currentTimestep) >= maxTimesteps, false) &&
                lastObservation == outcome.observation
      ensures outcome.Stepped? && |action| == |nonPeripheralIntersections| ==>
                |lastObservation| == BoxShape(observationSpace)
      ensures Distinct(ControlledIds()) && InMultiDiscrete(actionSpace, action) &&
              old(StoredPhasesInRange(ControlledIds(), intersectionPhases, currentPhases)) ==>
                StoredPhasesInRange(ControlledIds(), intersectionPhases, currentPhases)
    {
      lastAction := action;
      ghost var table0 := currentPhases;
      var complete := IssuePhaseChanges(action);
      if Distinct(ControlledIds()) && InMultiDiscrete(actionSpace, action) &&
         StoredPhasesInRange(ControlledIds(), intersectionPhases, table0) {
        ActionSpaceBounds(intersectionPhases, action);
        ApplyKeepsPhasesInRange(ControlledIds(), intersectionPhases, action, table0);
      }
      if !complete {
        return IndexError;
      }
      ghost var commands1 := engine.commands;
      for t := 0 to TicksPerStep
        invariant engine.Valid()
        invariant engine.ticks == old(engine.ticks) + t
        invariant t > 0 ==> engine.vehicleCount > 0
        invariant engine.commands == commands1 && engine.replayFile == old(engine.replayFile)
        modifies engine
      {
        engine.NextStep();
        // the average speed of this tick divides by the number of vehicles
        if engine.vehicleCount == 0 {
          return ZeroDivisionError;
        }
      }
      var terminated := currentTimestep >= maxTimesteps;
      var lanes: seq<int> := engine.LaneWaitingVehicleCount();
      var observation := lanes + action;
      lastObservation := observation;
      currentTimestep := currentTimestep + 1;
      outcome := Stepped(observation, terminated, false);
    }

    /** `reset()`: next episode, timestep back to 1, a fresh replay file; the
        phase table is kept and the last observation is handed back. */
    method Reset() returns (observation: seq<int>)
      requires Valid()
      modifies this, engine
      ensures Valid()
      ensures currentEpisode == old(currentEpisode) + 1 && currentTimestep == 1
      ensures currentPhases == old(currentPhases)
      ensures lastAction == old(lastAction) && lastObservation == old(lastObservation)
      ensures observation == lastObservation
      ensures engine.ticks == 0 && engine.commands == old(engine.commands)
      ensures engine.vehicleCount == 0 && forall i :: 0 <= i < |engine.waiting| ==> engine.waiting[i] == 0
      ensures engine.replayFile == ReplayPath(replayFilesDirPath, currentEpisode)
      ensures forall e: nat :: e < currentEpisode ==> engine.replayFile != ReplayPath(replayFilesDirPath, e)
    {
      engine.Reset();
      currentEpisode := currentEpisode + 1;
      currentTimestep := 1;
      engine.SetReplayFile(ReplayPath(replayFilesDirPath, currentEpisode));
      observation := lastObservation;
      forall e: nat | e < currentEpisode
        ensures engine.replayFile != ReplayPath(replayFilesDirPath, e)
      {
        ReplayPathsDistinct(replayFilesDirPath, currentEpisode, e);
      }
    }
  }
}
