# Microgrid component graph, EV-charger status and logging configuration in Dafny

This project models three pieces of the Frequenz SDK for Python.

- **The microgrid component graph** (`_MicrogridComponentGraph`). It stores the
  components of a site (grid connection point, meters, inverters, batteries, EV
  chargers, CHP plants) and the directed connections between them. It answers
  queries and replaces its whole content atomically (`refresh_from`). Before a
  content becomes current, it must pass a five-stage validator. The model also
  covers the classifier predicates (grid meter, PV/battery/EV/CHP inverter, meter
  and chain) and the two searches (`dfs`, `find_first_descendant_component`).
- **The EV-charger status tracker**. It turns data samples, set-power results
  and the missing-data timer into WORKING / NOT_WORKING / UNCERTAIN. A status is
  sent only when it changes.
- **The logging configuration actor**. It applies a `LoggingConfig` to the
  process's logger levels.

Modules, one per file:

| file | module | models |
|---|---|---|
| `wrappers.dfy` | `Wrappers` | `Option` and `Result` |
| `collections.dfy` | `Collections` | element choice from sets and maps, cardinality, minimum |
| `components.dfy` | `Components` | `Component`, `ComponentCategory`, `InverterType`, `Connection` |
| `digraph.dfy` | `Digraph` | predecessor/successor ids, walks, reachability, cycles; an executable acyclicity test proved equal to "no closed walk" |
| `graph.dfy` | `Graph` | the graph value, the error kinds, `components`, `connections`, `predecessors`, `successors` |
| `validation.dfy` | `Validation` | `validate` and its five `_validate_*` stages, each proved equivalent to a declarative rule |
| `refresh.dfy` | `Refresh` | `refresh_from` with the correction hook, and `__init__` |
| `classifiers.dfy` | `Classifiers` | the `is_*` predicates |
| `search.dfy` | `Search` | `dfs` and `find_first_descendant_component` |
| `ev_charger_status.dfy` | `EvChargerStatus` | the status tracker's decisions and its event loop |
| `logging_config.dfy` | `LoggingConfig` | `LoggerConfig`, `LoggingConfig`, `_update_logging`, the `None` handling in `_run` |

How the model represents the system:

- **Graph value.** A graph is a value `DiGraph(ids, data, edges)`. A connection
  whose endpoint no component has still creates a node (as networkx `add_edge`
  does). Such a node has no data, so `data` may cover fewer ids than `ids`.
  - `Staging` is a candidate graph.
  - `ComponentGraph` is a graph that may be current: the empty graph, or one in
    which every node carries its component.
- **Errors.** Every operation that can raise returns a `Result`. The error says
  which exception is raised: `InvalidGraphError` with its reason, `KeyError`,
  the two `ValueError`s, or an exception escaping the correction hook.
- **Acyclicity.** networkx `is_directed_acyclic_graph` is modelled by
  repeatedly removing nodes that have no predecessor. `Digraph.IsDagCorrect`
  proves this test equal to "no closed walk along connections".
- **Refresh.** `refresh_from` is a pure function from the current graph and the
  input to a new graph plus an optional error. On any error the new graph is the
  current one.
  - The input component set is given as a sequence, in its iteration order. Two
    components with the same id but different fields then leave the last one as
    the node's data.
  - The correction hook is a function from the candidate graph to the corrected
    graph, or to `None` when it raises.
- **Logger names.** As Python's `logging.getLogger` does (Python 3.9 and
  later), the names `""` and `"root"` both mean the root logger.

## Model

| member | source | states |
|---|---|---|
| `Digraph.IsDagCorrect` | src/frequenz/sdk/microgrid/component_graph.py:912-913 | The acyclicity test the validator uses holds exactly when no walk along connections returns to its start (both directions). |
| `Graph.FilterComponents` | src/frequenz/sdk/microgrid/component_graph.py:387-415 | A component is returned iff it is in the graph, its id is among the requested ids (if given) and its category among the requested categories (if given); unknown ids are ignored. |
| `Graph.FilterConnections` | src/frequenz/sdk/microgrid/component_graph.py:417-446 | A connection is returned iff it is in the graph, leaves one of `start` (if given) and enters one of `end` (if given); with both filters this is the intersection. |
| `Graph.Predecessors` | src/frequenz/sdk/microgrid/component_graph.py:448-470 | Fails with KeyError exactly for an id not in the graph; otherwise returns exactly the components with a connection into the id. |
| `Graph.Successors` | src/frequenz/sdk/microgrid/component_graph.py:472-494 | Fails with KeyError exactly for an id not in the graph; otherwise returns exactly the components with a connection out of the id. |
| `Graph.SuccessorsCount` | src/frequenz/sdk/microgrid/component_graph.py:448-494 | The sets returned by `predecessors` and `successors` have one component per neighbouring id, so their sizes are the in- and out-degrees. |
| `Validation.ValidateGraph` | src/frequenz/sdk/microgrid/component_graph.py:899-940 | Passes iff there is a node and a connection, there is no cycle, every node carries its component and no node is isolated; reports "not a tree" exactly for a non-empty graph with a cycle. |
| `Validation.ValidateRoot` | src/frequenz/sdk/microgrid/component_graph.py:942-972 | Passes iff exactly one NONE/GRID node has no predecessor and it has a successor; "no valid root" and "multiple roots" are reported exactly when there are zero or several such nodes. |
| `Validation.ValidateGridEndpoint` | src/frequenz/sdk/microgrid/component_graph.py:974-1004 | Passes iff there is at most one GRID node and any GRID node has no predecessor and some successor; "multiple grids" exactly when two GRID nodes exist. |
| `Validation.ValidateIntermediaries` | src/frequenz/sdk/microgrid/component_graph.py:1006-1030 | Passes iff every INVERTER has a predecessor; successors are not required. |
| `Validation.ValidateLeaves` | src/frequenz/sdk/microgrid/component_graph.py:1032-1072 | Passes iff every BATTERY and EV_CHARGER has a predecessor and no successor. |
| `Validation.Validate` | src/frequenz/sdk/microgrid/component_graph.py:580-586 | The five stages in order pass iff the graph satisfies all five declarative rules; a passing graph has data on every node. |
| `Refresh.BuildNodes` | src/frequenz/sdk/microgrid/component_graph.py:526-527 | Adding the components as nodes gives exactly the components' ids as nodes, each keyed by its own component's id. |
| `Refresh.BuildNodesFrom` | src/frequenz/sdk/microgrid/component_graph.py:526-527 | Every node's data is one of the input components. |
| `Refresh.BuildNodesLastWins` | src/frequenz/sdk/microgrid/component_graph.py:526-527 | When several input components share an id, the last one added is that node's data. |
| `Refresh.BuildNodesDistinct` | src/frequenz/sdk/microgrid/component_graph.py:526-527 | With distinct ids, the stored components are exactly the input components. |
| `Refresh.RefreshFrom` | src/frequenz/sdk/microgrid/component_graph.py:496-558 | On any error the current graph is unchanged; on success the new graph is valid. Invalid components/connections are refused first (iff). Without a hook, or when the candidate is already valid, the refresh succeeds iff the input is valid and the candidate passes validation, and then the candidate becomes current. Otherwise it succeeds iff the hook returns a graph that passes validation, and that graph becomes current. |
| `Refresh.NewGraph` | src/frequenz/sdk/microgrid/component_graph.py:354-385 | No arguments give the empty graph; a missing or empty component set, or a missing or empty connection set, is refused; otherwise construction succeeds iff a refresh from the empty graph succeeds, and the result is valid and equals the candidate graph. |
| `Refresh.Candidate` | src/frequenz/sdk/microgrid/component_graph.py:526-535 | The candidate's connections are exactly the input; its nodes are exactly the input component ids plus every connection endpoint, since adding an edge creates missing nodes; the nodes with data are exactly the component ids, each holding one of the input components, and the last input component with a given id is the one stored. |
| `Refresh.CandidateRoundTrip` | src/frequenz/sdk/microgrid/component_graph.py:525-533 | A candidate graph built from components with distinct ids, in which every node carries data, returns exactly the input components from `components()` and exactly the input connections from `connections()`. |
| `Refresh.RefreshRoundTrip` | src/frequenz/sdk/microgrid/component_graph.py:387-446 | After a successful refresh from valid input with distinct ids, `components()` returns exactly the input components and `connections()` exactly the input connections, whatever the hook. |
| `Refresh.UnknownEndpointRejected` | src/frequenz/sdk/microgrid/component_graph.py:915-925 | A connection that names an id no component has makes the refresh (without a hook) fail and keep the current graph. |
| `Classifiers.IsKind` | src/frequenz/sdk/microgrid/component_graph.py:614-626 | (also `is_battery_inverter`, `is_ev_charger`, `is_chp` at lines 665-674, 710-722, 758-767.) Only inverters, EV chargers and CHPs are of a kind; an inverter is a PV or battery inverter exactly when its type is known and is SOLAR or BATTERY respectively; an EV charger or a CHP is of its own kind only. |
| `Classifiers.KindsExclusive` | src/frequenz/sdk/microgrid/component_graph.py:614-626 | A component is at most one of PV inverter, battery inverter, EV charger and CHP. |
| `Classifiers.IsGridMeter` | src/frequenz/sdk/microgrid/component_graph.py:588-612 | A non-METER is never a grid meter; raises exactly for a METER not in the graph; otherwise true iff the meter's only predecessor is a GRID whose only successor is the meter. |
| `Classifiers.IsMeterOf` | src/frequenz/sdk/microgrid/component_graph.py:628-649 | (also the battery, EV-charger and CHP meters at lines 676-694, 724-742, 769-787.) Raises exactly when the id is not in the graph, any category included; otherwise true iff the component is a METER, not the grid meter, has a successor, and all its successors are of the kind. |
| `Classifiers.IsChain` | src/frequenz/sdk/microgrid/component_graph.py:651-663 | (also lines 696-708, 744-756, 789-800.) True iff the component is of the kind or a meter of it; a component of the kind is accepted without a graph lookup, so raises only for other components not in the graph. |
| `Classifiers.MixedSuccessorsNoMeter` | src/frequenz/sdk/microgrid/component_graph.py:628-649 | A meter with successors of two different kinds is a meter of no kind. |
| `Classifiers.MeterKindsExclusive` | src/frequenz/sdk/microgrid/component_graph.py:628-649 | A meter is a meter of at most one kind. |
| `Classifiers.GridMeterAndLeafMeterInNoChain` | src/frequenz/sdk/microgrid/component_graph.py:628-649 | The grid meter and a meter without successors are meters of no kind. |
| `Search.Dfs` | src/frequenz/sdk/microgrid/component_graph.py:802-836 | A visited start yields nothing; a start meeting the condition yields just itself and is marked visited; raises exactly when the start is unvisited, fails the condition and is not in the graph. The visited set only grows, and only by graph nodes and the start. Of the newly visited components, those meeting the condition are exactly the ones found, each reachable from the start; each one failing the condition has all its successors visited; and each one but the start is a successor of a newly visited one failing the condition, so the search never goes below a match. |
| `Search.StopsAtMatch` | src/frequenz/sdk/microgrid/component_graph.py:811-829 | In a search that never goes below a match, a component other than the start whose newly visited predecessors all meet the condition is not visited (for S -> A -> B with A a match, B is not). |
| `Search.FirstDescendant` | src/frequenz/sdk/microgrid/component_graph.py:878-897 | For a root, returns an immediate successor whose category is the earliest listed category any successor has, with the smallest id among those; returns nothing exactly when no successor has any listed category. |
| `Search.FirstDescendantUnique` | src/frequenz/sdk/microgrid/component_graph.py:878-892 | At most one component satisfies the first-descendant description, so the choice is deterministic once the root is fixed. |
| `Search.FindFirstDescendantComponent` | src/frequenz/sdk/microgrid/component_graph.py:838-897 | Fails with "root not found" exactly when no component has the root category; otherwise the result is the first descendant of some component of that category, or "not found" when that root has no successor of a listed category. |
| `EvChargerStatus.NewTracker` | src/frequenz/sdk/microgrid/_power_distributing/_component_status/_ev_charger_status_tracker.py:69-78 | A new tracker's last status is NOT_WORKING. |
| `EvChargerStatus.IsWorking` | src/frequenz/sdk/microgrid/_power_distributing/_component_status/_ev_charger_status_tracker.py:87-96 | A sample shows a working charger iff its (cable, component) state pair is one of the six listed pairs. |
| `EvChargerStatus.IsStale` | src/frequenz/sdk/microgrid/_power_distributing/_component_status/_ev_charger_status_tracker.py:98-102 | A sample is stale iff its timestamp is before now minus the maximum age; an age equal to the maximum is fresh, and with a non-negative maximum a sample not older than now is fresh. |
| `EvChargerStatus.StaleStaysStale` | src/frequenz/sdk/microgrid/_power_distributing/_component_status/_ev_charger_status_tracker.py:98-102 | A stale sample stays stale at every later time. |
| `EvChargerStatus.HandleEvData` | src/frequenz/sdk/microgrid/_power_distributing/_component_status/_ev_charger_status_tracker.py:98-131 | Never UNCERTAIN; stale data (older than the maximum age) gives NOT_WORKING whatever its states; WORKING iff the data is fresh and shows a working charger. |
| `EvChargerStatus.EvDataIgnoresLastStatus` | src/frequenz/sdk/microgrid/_power_distributing/_component_status/_ev_charger_status_tracker.py:104-131 | Handling a sample gives the same status whatever the last status was. |
| `EvChargerStatus.HandleSetPowerResult` | src/frequenz/sdk/microgrid/_power_distributing/_component_status/_ev_charger_status_tracker.py:133-147 | WORKING iff the charger is among the succeeded ids; otherwise UNCERTAIN, and blocking is requested exactly then. |
| `EvChargerStatus.Decide` | src/frequenz/sdk/microgrid/_power_distributing/_component_status/_ev_charger_status_tracker.py:164-175 | A timer event gives NOT_WORKING; a sample and a set-power result give what their handlers give; only a failed set-power result requests blocking. |
| `EvChargerStatus.Override` | src/frequenz/sdk/microgrid/_power_distributing/_component_status/_ev_charger_status_tracker.py:178-182 | While blocked every status but NOT_WORKING becomes UNCERTAIN; NOT_WORKING is never overridden; nothing changes when not blocked. |
| `EvChargerStatus.Step` | src/frequenz/sdk/microgrid/_power_distributing/_component_status/_ev_charger_status_tracker.py:161-194 | The new last status is the overridden decision; a status is sent iff it differs from the previous last status, and it is the new last status. |
| `EvChargerStatus.FailedRequestUncertain` | src/frequenz/sdk/microgrid/_power_distributing/_component_status/_ev_charger_status_tracker.py:133-182 | A failed set-power request yields UNCERTAIN and a block request, whether or not the tracker is seen as blocked. |
| `EvChargerStatus.Run` | src/frequenz/sdk/microgrid/_power_distributing/_component_status/_ev_charger_status_tracker.py:161-194 | Over any sequence of events, no status sent repeats the one sent just before it, the first differs from the starting status, and the last sent is the final last status; after a non-empty sequence the last status is what the last event yields after the blocking override. |
| `EvChargerStatus.RunSendsChanges` | src/frequenz/sdk/microgrid/_power_distributing/_component_status/_ev_charger_status_tracker.py:161-194 | The statuses sent are exactly those of the per-event statuses (each event's decision after the blocking override) that differ from the status before them, starting from the tracker's last status. |
| `EvChargerStatus.Track` | src/frequenz/sdk/microgrid/_power_distributing/_component_status/_ev_charger_status_tracker.py:156-194 | The output of one call of `_run` on a new tracker starts with NOT_WORKING and never sends the same status twice in a row. |
| `EvChargerStatus.TrackSendsChanges` | src/frequenz/sdk/microgrid/_power_distributing/_component_status/_ev_charger_status_tracker.py:156-194 | The output of one call of `_run` on a new tracker is NOT_WORKING followed by exactly the changes in the per-event statuses, starting from NOT_WORKING. |
| `EvChargerStatus.QuietRun` | src/frequenz/sdk/microgrid/_power_distributing/_component_status/_ev_charger_status_tracker.py:184-194 | Events that all yield the last status send nothing and leave the tracker unchanged. |
| `LoggingConfig.ParseLevel` | src/frequenz/sdk/config/_logging_actor.py:21-26 | A level name is accepted iff it is one of the eight standard names, and then it is parsed to the level with that name. |
| `LoggingConfig.ParseName` | src/frequenz/sdk/config/_logging_actor.py:21-26 | Every level's name parses back to that level. |
| `LoggingConfig.ConfigOrDefault` | src/frequenz/sdk/config/_logging_actor.py:149-155 | A received configuration is used as is; `None` means the default: root NOTSET and no named loggers. |
| `LoggingConfig.UnsetLevels` | src/frequenz/sdk/config/_logging_actor.py:159-163 | Every logger named is set to NOTSET, and no logger not named (after resolving root aliases) changes. |
| `LoggingConfig.ApplyLevels` | src/frequenz/sdk/config/_logging_actor.py:171-178 | Every configured logger other than the root gets exactly its level; the root, if named, gets the level of one of its names; nothing else changes. |
| `LoggingConfig.UpdateLogging` | src/frequenz/sdk/config/_logging_actor.py:157-180 | Afterwards the new configuration is current; loggers it names get exactly their levels; loggers only the old one named are NOTSET; the root gets the new root level (unless the new configuration names the root itself); loggers neither names keep their levels. |
| `LoggingConfig.NewActor` | src/frequenz/sdk/config/_logging_actor.py:131-147 | The constructor leaves the default configuration current, sets the root logger to NOTSET and changes no other logger. |
| `LoggingConfig.Receive` | src/frequenz/sdk/config/_logging_actor.py:149-155 | The received configuration (the default for `None`) is applied with all the effects stated for `UpdateLogging`. In particular, receiving `None` applies the default: the root and every previously configured logger become NOTSET, and all other loggers keep their levels. |
| `LoggingConfig.DropLogger` | tests/config/test_logging_actor.py:117-138 | Going from {actor: DEBUG, timeseries: ERROR} to {actor: INFO} with root WARNING leaves actor at INFO, timeseries at NOTSET and root at WARNING. |

## Left out

- `refresh_from_api` and the API client: fetching is I/O. Its result reaches
  the model as the arguments of `RefreshFrom`.
- `Component.is_valid()` and `Connection.is_valid()` are not part of this model.
  They are taken as parameters.
- Connection payloads: a `Connection` is its `(start, end)` pair only.
- Metadata fields of `Component` other than id, category and inverter type.
- networkx internals: the graph is a value, not a mutable networkx object.
  `old_graph.clear()` has no counterpart.
- `Refresh.RefreshFrom`: a hook that rebinds the staging graph's `_graph`
  attribute, instead of mutating it, would make `refresh_from` install the
  original, unvalidated candidate. The model assumes the hook mutates in place,
  so its output is the graph installed.
- `Refresh.RefreshFrom`: an exception raised by the hook propagates unchanged,
  because the hook is called at component_graph.py line 546, outside the `try`
  at lines 548-554 that wraps validation errors. The model reports it as
  `HookRaised`.
- `Refresh.RefreshFrom`: the hook's output is a well-formed graph of
  components and `(start, end)` connections, with each component stored under
  its own id. A hook that adds an edge without the `data` attribute, a node
  whose attributes do not include `data`, or a node whose component has another
  id is not represented. In Python, the first two make `connections()` or
  `components()` raise a `KeyError` at lines 927-929 of the second `validate`,
  which line 550 wraps as an InvalidGraphError. The third is accepted only when
  that other id is itself a node. Otherwise `degree` at line 935 raises a
  networkx error for it, which line 550 also wraps as an InvalidGraphError.
- `Validation.ValidateGraph`: the re-checks at component_graph.py lines 926-930
  ("at least one component / connection") cannot fail for a graph built from
  the input, after the earlier checks. They can raise a `KeyError` for a
  hook-modified graph with a missing `data` attribute, which the model does not
  represent (see above). They have no separate failure reason.
- `Search.Dfs`: on the `KeyError` path, `dfs` has already added the start to
  `visited` (line 826) before `successors` raises. The `Err` result does not
  carry that update.
- `Refresh.RefreshRoundTrip`: requires the input components to have distinct
  ids. With two different components sharing an id, only the last one is
  stored (`Refresh.BuildNodesLastWins`), so `components()` returns fewer.
- Logging messages and warnings of every operation.
- `EvChargerStatus`: the async `select` loop, the channels, `Timer` (including
  its reset on each sample) and `datetime.now`. Events arrive as an explicit
  sequence, and time is an integer tick count.
- `EvChargerStatus.Step`: `BlockingStatus` is not part of this model. Whether it
  reports itself blocked is an input of each event. `block()` becomes an output
  flag, so the model does not tie that flag to the next `is_blocked()` answer.
- `LoggingConfig.ApplyLevels`: when the configuration names the root logger
  twice (as `""` and as `"root"`), the root ends with one of the two levels.
  Python's dict insertion order decides which (the later one wins, lines
  171-178); the model keeps loggers in an unordered map and does not say
  which.
- `LoggingConfig.UpdateLogging`: the same; with the root named twice, the root
  ends with one of the two levels, and the model does not say which.
- `LoggingConfig.Receive`: the same, for a received configuration that names
  the root twice.
- `EvChargerStatus.Track`: describes one call of `_run`. `start()` runs `_run`
  under `run_forever` (line 85), and each call first sends the last status
  (lines 157-159). After a restart, the status just sent is sent again; the
  model does not represent restarts.
- `LoggingConfig`: `logging.basicConfig` formatting, the config manager and the
  marshmallow schema loading. A configuration with an invalid level name never
  reaches `_update_logging`, and level values are the standard numeric ones.
