# CityFlow traffic-signal environment adapter, modelled in Dafny

This project models the environment adapter that connects a reinforcement-learning agent to the CityFlow traffic simulator. The adapter comes in two variants:

- `CityflowEnv` (`gym_cityflow/env.py`) has one action entry per controllable intersection. An entry equal to the intersection's phase count is a "keep the current phase" sentinel. The adapter keeps a per-intersection phase table, issues `set_tl_phase` only when the requested phase is real and differs from the stored one, and advances the engine ten ticks per step. Its observation is the lane waiting counts followed by the action.
- `Grid1x1DemoEnv` (`gym_cityflow/envs/grid_1x1/grid_1x1_demo_env/env.py`) boxes every action entry to `0 .. phases-1`. It sends every entry to the engine unfiltered, advances one tick per step, and observes the lane waiting counts alone.

The two environments become Dafny classes whose methods update their fields in place, as the Python objects do. The CityFlow engine becomes an abstract class, `CityflowEngine.Engine`. It holds the lanes' waiting counts, the log of `set_tl_phase` commands it has received, a tick counter and the current replay file. The parsed `roadnet.json` is an input value (`Roadnet.RoadnetData`). The working directory and the clock reading that name a run's replay folder are constructor parameters.

The modules are:

- `roadnet.dfy` holds `Roadnet`: the road-network records, the non-virtual filter, phase counts and the road table.
- `spaces.dfy` holds `Spaces`: the bounds of the `Box` and `MultiDiscrete` spaces, and the outcome of `step`.
- `replay.dfy` holds `Replay`: decimal formatting of episode numbers and replay paths.
- `engine.dfy` holds `CityflowEngine`: the abstract engine.
- `cityflow_env.dfy` holds `Cityflow`: the phase-table fold, its lemmas and the class `CityflowEnv`.
- `grid_env.dfy` holds `Grid1x1Demo`: the class `Grid1x1DemoEnv`.

Behaviour of the code that is easy to misread:

- **Arity checks.** Neither variant checks the action's length up front.
  - `CityflowEnv.step` indexes `action[ind]` once for each controllable intersection. A shorter action raises `IndexError` after the earlier intersections' commands have been issued. A longer action is accepted, and its extra entries appear in the observation.
  - `Grid1x1DemoEnv.step` loops over the action. A longer action raises `IndexError` after one command per intersection. A shorter action is accepted.
  - Both behaviours are modelled through `Spaces.StepOutcome.IndexError`, with the partial side effects.
- **Replay file.** `reset` sets the replay file unconditionally. It does not depend on `save_replay`.
- **Zero lanes.** A roadnet with no lanes is not rejected.
- **Empty network.** `CityflowEnv.step` averages the vehicle speeds of each tick by dividing by the number of vehicles, with no zero guard. A tick that ends with no vehicle raises `ZeroDivisionError` after that tick has run, before the timestep grows and before `_last_observation` is replaced. This is modelled as `Spaces.StepOutcome.ZeroDivisionError`.
- **`CityflowEnv.reset`.** It keeps the phase table and returns the previous `_last_observation`. It does not return a fresh observation.
- **Episode length.** The two variants count timesteps differently. `CityflowEnv` starts an episode at timestep 1, so its step k sees timestep k and the max_timesteps-th step is the first to report `terminated`. `Grid1x1DemoEnv` starts at 0, so it reports `terminated` first on step max_timesteps + 1. Both facts follow from the `Step` and `Reset` contracts.

## Model

| member | source | states |
|---|---|---|
| Roadnet.NonVirtual | gym_cityflow/env.py:62-64 | There are never more controllable intersections than roadnet intersections. |
| Roadnet.NonVirtualAppend | gym_cityflow/env.py:62-64 | Filtering distributes over concatenation, so the kept intersections appear in roadnet order. |
| Roadnet.NonVirtualMembership | gym_cityflow/env.py:62-64 | An intersection is kept if and only if it occurs in the roadnet and is not virtual. |
| Roadnet.NonVirtualCount | gym_cityflow/env.py:77 | The number of controllable intersections equals the size of the set of positions of non-virtual roadnet entries. |
| Roadnet.NonVirtualKeepsAll | gym_cityflow/envs/grid_1x1/grid_1x1_demo_env/env.py:42-44 | A roadnet with no virtual intersections is kept whole, in order. |
| Roadnet.PhaseCounts | gym_cityflow/env.py:65 | `intersection_phases[i]` is the number of light phases of the i-th controllable intersection. |
| Roadnet.RoadsMap | gym_cityflow/env.py:68-72 | The road table has exactly the roadnet's road ids as keys. |
| Roadnet.RoadsMapLookup | gym_cityflow/env.py:68-72 | When road ids are distinct, each road's lanes are recorded under its id. |
| Roadnet.TotalLanes | gym_cityflow/env.py:78 | The engine's lane count is 0 for a roadnet without roads and is at least the lane count of every single road. |
| Roadnet.TotalLanesAppend | gym_cityflow/env.py:78 | The lanes of two road lists together are the lanes of each list added up. |
| Replay.DecimalString | gym_cityflow/env.py:144 | The episode number in the file name is a non-empty string of decimal digits, with exactly one digit below 10, at least two digits from 10 on, and no leading zero for a positive number. |
| Replay.DecimalRoundTrip | gym_cityflow/env.py:144 | Parsing the formatted episode number gives back the number. |
| Replay.ReplayPathEpisode | gym_cityflow/env.py:144 | The episode number can be read back from `{dir}/replay_{episode}.txt`. |
| Replay.ReplayDir | gym_cityflow/env.py:51 | The run folder is `{cwd}/replay_files/{env_name}/{timestamp}`: it starts with the working directory, then `/replay_files/` and the environment name, and ends with `/` and the timestamp. |
| Replay.ReplayFileName | gym_cityflow/env.py:52 | The file name is `replay_`, then only decimal digits that read back as the episode, then `.txt`. |
| Replay.ReplayPath | gym_cityflow/env.py:144 | The path is the run folder, a `/`, and the episode's file name. |
| Replay.ReplayPathsDistinct | gym_cityflow/env.py:139-144 | Two different episodes never get the same replay path. |
| CityflowEngine.Engine.constructor | gym_cityflow/env.py:44 | A new engine has one waiting count per roadnet lane, all zero, and no vehicles. It has no commands, no ticks and no replay file yet. |
| CityflowEngine.Engine.LaneWaitingVehicleCount | gym_cityflow/env.py:78 | It returns one waiting count per lane. |
| CityflowEngine.Engine.SetTlPhase | gym_cityflow/env.py:102 | It appends exactly one command to the log and changes nothing else. |
| CityflowEngine.Engine.NextStep | gym_cityflow/env.py:109 | It advances exactly one tick and keeps the lane count, the command log and the replay file. The waiting counts and the vehicle count are left to the simulation. |
| CityflowEngine.Engine.Reset | gym_cityflow/env.py:139 | It sets the tick counter back to 0, every waiting count to 0 and the vehicle count to 0, and keeps the command log and the replay file. |
| CityflowEngine.Engine.SetReplayFile | gym_cityflow/env.py:52 | It sets the replay file and nothing else. |
| Cityflow.ZeroPhases | gym_cityflow/env.py:60-66 | The initial phase table maps exactly the controllable ids, each to phase 0. |
| Cityflow.ApplyPhaseActions | gym_cityflow/env.py:97-103 | The phase loop never adds or removes table keys and issues at most `n` commands over the first `n` intersections. |
| Cityflow.ApplyMatchesReference | gym_cityflow/env.py:97-103 | With distinct ids, the loop issues exactly the commands computed against the pre-step table. Afterwards entry i holds `action[i]` if a command was issued for it, and its old phase otherwise. Other entries do not change. |
| Cityflow.IssuedSound | gym_cityflow/env.py:101-102 | Every reference command carries `action[i]` for an intersection whose entry is a real phase that differs from the stored one. |
| Cityflow.IssuedComplete | gym_cityflow/env.py:101-102 | Every intersection whose entry is a real phase that differs from the stored one gets its command. |
| Cityflow.CommandIffPhaseChange | gym_cityflow/env.py:101-103 | Command minimality: a command is issued for intersection i if and only if `action[i] < phases[i]` and `action[i] != stored phase`. Any such command carries `action[i]`. |
| Cityflow.SentinelIssuesNothing | gym_cityflow/env.py:101 | An action whose entries are all at or above the phase count issues no command and leaves the table unchanged. |
| Cityflow.TwoIntersectionScenario | gym_cityflow/env.py:97-103 | With phase counts `[3, 2]` and both stored phases 0, the action `[3, 2]` issues nothing. The action `[1, 0]` issues exactly `set_tl_phase(first, 1)` and leaves the second intersection at 0. |
| Cityflow.ApplyKeepsPhasesInRange | gym_cityflow/env.py:101-103 | A step with non-negative entries keeps every stored phase either the initial 0 or below its phase count. |
| Cityflow.RunSteps | gym_cityflow/env.py:97-103 | Over consecutive steps, the phase table keeps its keys. |
| Cityflow.SentinelRunIssuesNothing | gym_cityflow/env.py:97-103 | Any number of all-sentinel steps issue no command and leave the phase table unchanged. |
| Cityflow.ActionSpace | gym_cityflow/env.py:90 | The action space has one dimension per controllable intersection, with one more value than the intersection has phases: the extra top value is the keep-phase sentinel. |
| Cityflow.ActionSpaceBounds | gym_cityflow/env.py:90 | An action is in `MultiDiscrete([p + 1 ...])` if and only if it has one entry per intersection and entry i lies in `0 .. phases[i]`. |
| Cityflow.SentinelActionIsNoOp | gym_cityflow/env.py:90 | The all-sentinel action belongs to the action space and issues no command. |
| Cityflow.ObservationSpace | gym_cityflow/env.py:84 | The declared observation length is the lane count plus the controllable count. |
| Cityflow.FilterTopology | gym_cityflow/env.py:58-66 | The constructor's loop yields the non-virtual intersections in order, their phase counts and a zero phase table. |
| Cityflow.IndexRoads | gym_cityflow/env.py:68-72 | The road loop builds the road table. |
| Cityflow.CityflowEnv.constructor | gym_cityflow/env.py:44-90 | It sets timestep 1, episode 0 and the replay file for episode 0. Topology, phase table and spaces come from the roadnet. `_last_observation` is all zeros and exactly as long as the declared observation. |
| Cityflow.CityflowEnv.IssuePhaseChanges | gym_cityflow/env.py:97-103 | The loop leaves the table and command log described by `ApplyPhaseActions`. It stops early exactly when the action is too short. |
| Cityflow.CityflowEnv.Step | gym_cityflow/env.py:94-134 | It does the phase updates, then exactly 10 ticks. `terminated` is the timestep test made before the increment, `truncated` is false and the timestep grows by 1. The observation is the lane counts followed by the action, and has the declared length for a well-sized action. For an action in the action space, distinct intersection ids and a table in range before the step, the stored-phase range is preserved. A too-short action gives `IndexError` with no tick. A tick that ends with no vehicle gives `ZeroDivisionError` after 1 to 10 ticks, with the timestep and `_last_observation` unchanged; a completed step ends with vehicles in the network. |
| Cityflow.CityflowEnv.Reset | gym_cityflow/env.py:137-151 | The episode increases by 1, the timestep becomes 1 and the phase table is untouched. The engine is back at tick 0 with no vehicles and zero waiting counts. The replay file is `replay_{episode}.txt`, different from every earlier episode's. It returns the last observation. |
| Grid1x1Demo.HighValues | gym_cityflow/envs/grid_1x1/grid_1x1_demo_env/env.py:45 | `high_value_arr` has one entry per controllable intersection, one less than its number of light phases. |
| Grid1x1Demo.ActionSpace | gym_cityflow/envs/grid_1x1/grid_1x1_demo_env/env.py:52-57 | The action box has one dimension per controllable intersection. |
| Grid1x1Demo.ActionSpaceIsRealPhases | gym_cityflow/envs/grid_1x1/grid_1x1_demo_env/env.py:45-57 | An action is in the box if and only if entry i lies in `0 .. len(lightphases)-1`. |
| Grid1x1Demo.ObservationSpace | gym_cityflow/envs/grid_1x1/grid_1x1_demo_env/env.py:60-67 | The observation box is as long as the engine's lane count. |
| Grid1x1Demo.UnfilteredCommands | gym_cityflow/envs/grid_1x1/grid_1x1_demo_env/env.py:72-73 | The first `n` action entries give `n` commands, command i sending entry i, as it is, to the i-th controllable intersection. |
| Grid1x1Demo.InBoxActionCommandsRealPhases | gym_cityflow/envs/grid_1x1/grid_1x1_demo_env/env.py:72-73 | An in-box action yields one command per intersection, in order, each naming a real phase of its intersection. |
| Grid1x1Demo.FilterTopology | gym_cityflow/envs/grid_1x1/grid_1x1_demo_env/env.py:39-45 | The constructor's loop yields the non-virtual intersections in order and `len(lightphases)-1` for each. |
| Grid1x1Demo.Grid1x1DemoEnv.constructor | gym_cityflow/envs/grid_1x1/grid_1x1_demo_env/env.py:11-67 | It sets timestep 0, episode 0 and the replay file for episode 0. The action bounds come from the topology and the observation length is the lane count. |
| Grid1x1Demo.Grid1x1DemoEnv.Step | gym_cityflow/envs/grid_1x1/grid_1x1_demo_env/env.py:70-89 | Every entry is sent unfiltered, in index order, to its intersection. Then comes exactly one tick. `terminated` is the timestep test made before the increment, `truncated` is false and the timestep grows by 1. The observation is the lane waiting counts at the declared length. A too-long action gives `IndexError` with no tick. |
| Grid1x1Demo.Grid1x1DemoEnv.Reset | gym_cityflow/envs/grid_1x1/grid_1x1_demo_env/env.py:92-103 | The episode increases by 1 and the timestep becomes 0. The replay file is `replay_{episode}.txt`, different from every earlier episode's. The engine is back at tick 0 with no vehicles, so the observation is the lane waiting counts, all zero. |

## Left out

- The CityFlow engine itself is not modelled; it is native code. Its traffic dynamics are abstract: a tick may change every lane's waiting count and the number of vehicles, but not the number of lanes. After `reset` the waiting counts and the vehicle count are zero. Its own traffic-light state is not modelled, so whether it agrees with the adapter's phase table after `reset` is not captured.
- Rewards are not modelled, because they are floating-point arithmetic over engine metrics. This covers the value of `CityflowEnv`'s ten-tick average speed (`env.py:110`, `:116`) and the `_reward_func_10` helper; only the division's failure on an empty network is modelled. It also covers the grid's travel-time and waiting penalty, and the unused travel-time reads. `_last_reward` is left out with them.
- Directory creation, the timestamp, and reading and rewriting `config.json` are file-system I/O and are not modelled. The working directory and the timestamp string are parameters. `save_replay` and `thread_num` only feed that configuration, so they are left out too.
- `os.path.join` is modelled as joining with `/`. Its handling of absolute later components and trailing separators is not modelled.
- `render`, `close`, `terminal_logs` and the class-level `metadata` only print or do nothing, so they are not modelled.
- `super().reset(seed=seed)` seeds Gymnasium's random generator, which the model does not have. The `seed` and `options` parameters and the empty `info` dict are left out.
- Gymnasium's `Box` and `MultiDiscrete` objects are reduced to their bounds. Their `dtype` and sampling are not modelled.
- Cityflow.ApplyKeepsPhasesInRange: the stored-phase bound is `0 <= p && (p == 0 || p < count)`, not `p < count`. An intersection with no light phases keeps its initial 0. The lemma also assumes distinct intersection ids and non-negative action entries, which the source never checks.
- Cityflow.CommandIffPhaseChange: holds only for distinct intersection ids. With a repeated id both entries share one table slot, and `Cityflow.ApplyPhaseActions` models that sequential behaviour as written.
- `simulation_comparison.py`, `train_ppo.py`, `generate_replay.py` and `generate_model_simulation_replay.py` are not part of this model. They are plotting, training and inference scripts.
