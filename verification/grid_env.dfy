/** `Grid1x1DemoEnv`: the one-tick environment. Its action is boxed to the
    real phases 0 .. phases-1 of each controllable intersection, every entry
    is sent to the engine unfiltered, and the observation is the lane
    waiting counts alone. */
module Grid1x1Demo {
  import opened Roadnet
  import opened Spaces
  import opened Replay
  import opened CityflowEngine

  const EnvName: string := "Grid1x1DemoEnv"

  /** `np.iinfo(np.int64).max`, the upper bound of every observation entry. */
  const Int64Max: int := 0x7FFF_FFFF_FFFF_FFFF

  /** `high_value_arr`: the highest phase index of each intersection. */
  function HighValues(xs: seq<Intersection>): (r: seq<int>)
    ensures |r| == |xs|
    ensures forall i :: 0 <= i < |xs| ==> r[i] + 1 == |xs[i].lightphases|
  {
    seq(|xs|, i requires 0 <= i < |xs| => |xs[i].lightphases| - 1)
  }

  lemma HighValuesSnoc(xs: seq<Intersection>, x: Intersection)
    ensures HighValues(xs + [x]) == HighValues(xs) + [|x.lightphases| - 1]
  {
  }

  /** `Box(low=zeros, high=high_value_arr, shape=(len(high_value_arr),))` */
  function ActionSpace(xs: seq<Intersection>): (b: Box)
    ensures BoxShape(b) == |xs|
  {
    Box(Zeros(|xs|), HighValues(xs))
  }

  /** An action is in the box iff it names a real phase of every
      controllable intersection: no keep-phase sentinel here. */
  lemma ActionSpaceIsRealPhases(xs: seq<Intersection>, action: seq<int>)
    ensures InBox(ActionSpace(xs), action) <==>
            |action| == |xs| && forall i :: 0 <= i < |xs| ==> 0 <= action[i] < |xs[i].lightphases|
  {
  }

  /** `Box(low=0, high=int64 max, shape=(lane count,))` */
  function ObservationSpace(laneCount: nat): (b: Box)
    ensures BoxShape(b) == laneCount
  {
    UniformBox(0, Int64Max, laneCount)
  }

  /** The commands of the first `n` entries: entry i goes, as it is, to the
      i-th controllable intersection. */
  function UnfilteredCommands(ids: seq<string>, action: seq<int>, n: nat): (r: seq<PhaseCommand>)
    requires n <= |ids| && n <= |action|
    ensures |r| == n
    ensures forall i :: 0 <= i < n ==> r[i].intersectionId == ids[i] && r[i].phase == action[i]
  {
    seq(n, i requires 0 <= i < n => PhaseCommand(ids[i], action[i]))
  }

  /** An action from the action space yields one command per intersection,
      each naming a real phase of the intersection it addresses. */
  lemma InBoxActionCommandsRealPhases(xs: seq<Intersection>, action: seq<int>)
    requires InBox(ActionSpace(xs), action)
    ensures var cs := UnfilteredCommands(Ids(xs), action, |action|);
            |cs| == |xs| &&
            forall i :: 0 <= i < |xs| ==>
              cs[i].intersectionId == xs[i].id && 0 <= cs[i].phase < |xs[i].lightphases|
  {
  }

  /** The intersection loop of `__init__`: the non-virtual intersections and
      their highest phase index. */
  method FilterTopology(intersections: seq<Intersection>)
    returns (kept: seq<Intersection>, high: seq<int>)
    ensures kept == NonVirtual(intersections)
    ensures high == HighValues(kept)
  {
    kept, high := [], [];
    var i := 0;
    while i < |intersections|
      invariant 0 <= i <= |intersections|
      invariant kept == NonVirtual(intersections[..i])
      invariant high == HighValues(kept)
    {
      var x := intersections[i];
      NonVirtualPrefixStep(intersections, i);
      if !x.isVirtual {
        HighValuesSnoc(kept, x);
        kept := kept + [x];
        high := high + [|x.lightphases| - 1];
      }
      i := i + 1;
    }
    assert intersections[..i] == intersections;
  }

  class Grid1x1DemoEnv {
    const engine: Engine
    const maxTimesteps: int
    var currentTimestep: int
    var currentEpisode: nat
    const replayFilesDirPath: string
    const nonPeripheralIntersections: seq<Intersection>
    const actionSpace: Box
    const observationSpaceLength: nat
    const observationSpace: Box

    ghost predicate Valid()
      reads this, engine
    {
      engine.Valid() &&
      actionSpace == ActionSpace(nonPeripheralIntersections) &&
      observationSpaceLength == engine.laneCount &&
      observationSpace == ObservationSpace(observationSpaceLength)
    }

    /** `__init__`: `cwd` and `timestamp` stand for the working directory and
        the clock reading that name this run's replay folder. */
    constructor (roadnet: RoadnetData, cwd: string, timestamp: string, maxTimesteps: int)
      ensures Valid() && fresh(engine)
      ensures this.maxTimesteps == maxTimesteps
      ensures currentTimestep == 0 && currentEpisode == 0
      ensures replayFilesDirPath == ReplayDir(cwd, EnvName, timestamp)
      ensures engine.replayFile == ReplayPath(replayFilesDirPath, 0)
      ensures engine.commands == [] && engine.ticks == 0
      ensures nonPeripheralIntersections == NonVirtual(roadnet.intersections)
      ensures actionSpace.high == HighValues(nonPeripheralIntersections)
      ensures BoxShape(actionSpace) == |nonPeripheralIntersections|
      ensures observationSpaceLength == engine.laneCount == BoxShape(observationSpace)
    {
      var e := new Engine(roadnet);
      engine := e;
      this.maxTimesteps := maxTimesteps;
      currentTimestep := 0;
      currentEpisode := 0;
      replayFilesDirPath := ReplayDir(cwd, EnvName, timestamp);
      var kept, high := FilterTopology(roadnet.intersections);
      nonPeripheralIntersections := kept;
      actionSpace := Box(Zeros(|high|), high);
      observationSpaceLength := |e.LaneWaitingVehicleCount()|;
      observationSpace := ObservationSpace(|e.LaneWaitingVehicleCount()|);
      new;
      engine.SetReplayFile(ReplayPath(replayFilesDirPath, currentEpisode));
    }

    /** `step(action)`: every entry sent to its intersection, one tick,
        termination, the lane waiting counts as observation. */
    method Step(action: seq<int>) returns (outcome: StepOutcome)
      requires Valid()
      modifies this, engine
      ensures Valid()
      ensures currentEpisode == old(currentEpisode) && engine.replayFile == old(engine.replayFile)
      ensures engine.commands ==
                old(engine.commands) +
                UnfilteredCommands(Ids(nonPeripheralIntersections), action, Min(|action|, |nonPeripheralIntersections|))
      ensures |action| > |nonPeripheralIntersections| ==>
                outcome == IndexError &&
                engine.ticks == old(engine.ticks) && engine.waiting == old(engine.waiting) &&
                engine.vehicleCount == old(engine.vehicleCount) &&
                currentTimestep == old(currentTimestep)
      ensures |action| <= |nonPeripheralIntersections| ==>
                engine.ticks == old(engine.ticks) + 1 &&
                currentTimestep == old(currentTimestep) + 1 &&
                outcome == Stepped(engine.LaneWaitingVehicleCount(), old(currentTimestep) >= maxTimesteps, false) &&
                |outcome.observation| == BoxShape(observationSpace)
    {
      var ids := Ids(nonPeripheralIntersections);
      ghost var commands0 := engine.commands;
      var ind := 0;
      while ind < |action|
        invariant 0 <= ind <= |action| && ind <= |nonPeripheralIntersections|
        invariant engine.Valid()
        invariant engine.commands == commands0 + UnfilteredCommands(ids, action, ind)
        invariant engine.ticks == old(engine.ticks) && engine.waiting == old(engine.waiting) &&
                engine.vehicleCount == old(engine.vehicleCount)
        invariant engine.replayFile == old(engine.replayFile)
        invariant currentTimestep == old(currentTimestep) && currentEpisode == old(currentEpisode)
      {
        if ind >= |nonPeripheralIntersections| {
          return IndexError;
        }
        engine.SetTlPhase(ids[ind], action[ind]);
        assert UnfilteredCommands(ids, action, ind + 1) ==
               UnfilteredCommands(ids, action, ind) + [PhaseCommand(ids[ind], action[ind])];
        ind := ind + 1;
      }
      engine.NextStep();
      var terminated := currentTimestep >= maxTimesteps;
      var observation: seq<int> := engine.LaneWaitingVehicleCount();
      currentTimestep := currentTimestep + 1;
      outcome := Stepped(observation, terminated, false);
    }

    /** `reset()`: next episode, timestep back to 0, a fresh replay file, and
        the current lane waiting counts as observation. */
    method Reset() returns (observation: seq<int>)
      requires Valid()
      modifies this, engine
      ensures Valid()
      ensures currentEpisode == old(currentEpisode) + 1 && currentTimestep == 0
      ensures engine.ticks == 0 && engine.commands == old(engine.commands)
      ensures engine.vehicleCount == 0 && forall i :: 0 <= i < |engine.waiting| ==> engine.waiting[i] == 0
      ensures engine.replayFile == ReplayPath(replayFilesDirPath, currentEpisode)
      ensures forall e: nat :: e < currentEpisode ==> engine.replayFile != ReplayPath(replayFilesDirPath, e)
      ensures observation == engine.LaneWaitingVehicleCount()
      ensures |observation| == BoxShape(observationSpace)
    {
      engine.Reset();
      currentEpisode := currentEpisode + 1;
      currentTimestep := 0;
      engine.SetReplayFile(ReplayPath(replayFilesDirPath, currentEpisode));
      observation := engine.LaneWaitingVehicleCount();
      forall e: nat | e < currentEpisode
        ensures engine.replayFile != ReplayPath(replayFilesDirPath, e)
      {
        ReplayPathsDistinct(replayFilesDirPath, currentEpisode, e);
      }
    }
  }
}
