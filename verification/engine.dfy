/** The CityFlow engine as the environments see it: a fixed set of lanes with
    their current waiting-vehicle counts, the number of vehicles in the
    network, the log of `set_tl_phase` commands it has received, its tick
    counter and its current replay file. The traffic dynamics themselves are
    not modelled: a tick may change every waiting count and the vehicle
    count, but never the number of lanes. */
module CityflowEngine {
  import opened Roadnet

  /** One `set_tl_phase(intersection_id, phase)` call. */
  datatype PhaseCommand = PhaseCommand(intersectionId: string, phase: int)

  class Engine {
    const laneCount: nat
    var waiting: seq<nat>
    /** `len(get_vehicle_speed())`: the vehicles currently in the network. */
    var vehicleCount: nat
    var commands: seq<PhaseCommand>
    var ticks: nat
    var replayFile: string

    ghost predicate Valid()
      reads this
    {
      |waiting| == laneCount
    }

    /** `cityflow.Engine(config_file, thread_num)` over a roadnet: one lane
        per lane of every road, no vehicles yet. */
    constructor (roadnet: RoadnetData)
      ensures Valid()
      ensures laneCount == TotalLanes(roadnet.roads)
      ensures forall i :: 0 <= i < |waiting| ==> waiting[i] == 0
      ensures vehicleCount == 0
      ensures commands == [] && ticks == 0 && replayFile == ""
    {
      laneCount := TotalLanes(roadnet.roads);
      waiting := seq(TotalLanes(roadnet.roads), _ => 0);
      vehicleCount := 0;
      commands := [];
      ticks := 0;
      replayFile := "";
    }

    /** `get_lane_waiting_vehicle_count().values()` */
    function LaneWaitingVehicleCount(): (r: seq<nat>)
      reads this
      requires Valid()
      ensures |r| == laneCount
    {
      waiting
    }

    method SetTlPhase(id: string, phase: int)
      requires Valid()
      modifies this
      ensures Valid()
      ensures commands == old(commands) + [PhaseCommand(id, phase)]
      ensures waiting == old(waiting) && vehicleCount == old(vehicleCount)
      ensures ticks == old(ticks) && replayFile == old(replayFile)
    {
      commands := commands + [PhaseCommand(id, phase)];
    }

    /** Advances simulated time by one tick; the new waiting counts and the
        new number of vehicles are whatever the simulation produces. */
    method NextStep()
      requires Valid()
      modifies this
      ensures Valid()
      ensures ticks == old(ticks) + 1
      ensures commands == old(commands) && replayFile == old(replayFile)
    {
      ticks := ticks + 1;
      var next: seq<nat> :| |next| == laneCount;
      var vehicles: nat :| true;
      waiting := next;
      vehicleCount := vehicles;
    }

    /** Restores the simulated world to its initial state: no vehicles. */
    method Reset()
      requires Valid()
      modifies this
      ensures Valid()
      ensures ticks == 0
      ensures forall i :: 0 <= i < |waiting| ==> waiting[i] == 0
      ensures vehicleCount == 0
      ensures commands == old(commands) && replayFile == old(replayFile)
    {
      ticks := 0;
      waiting := seq(laneCount, _ => 0);
      vehicleCount := 0;
    }

    method SetReplayFile(path: string)
      requires Valid()
      modifies this
      ensures Valid()
      ensures replayFile == path
      ensures waiting == old(waiting) && vehicleCount == old(vehicleCount)
      ensures commands == old(commands) && ticks == old(ticks)
    {
      replayFile := path;
    }
  }
}
