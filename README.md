# Is Swarming Enabled — a Dafny model

This project models the "Is Swarming Enabled" GQI data source of the DataMiner swarming
playground. The data source asks every agent in the cluster for its DataMiner info. It answers
with one boolean: `true` when every agent has swarming enabled, `false` when every agent has it
disabled. A cluster with mixed settings is reported as an invalid configuration, together with
the number of enabled agents over the total.

Modules:

- `Wrappers`: `Option`, `Result` and `Outcome`. A C# null is `None`; a thrown exception is `Failure`/`Fail`.
- `Errors`: one abstract error kind per exception the data source throws.
- `GqiPage`: the page, row and cell returned to the query engine, plus `BoolToPage`.
- `AgentReplies`: the platform's reply messages and the type filter that keeps only the
  DataMiner-info responses, in order.
- `Consensus`: the all/none/mixed decision over the agents' flags.
- `SwarmingSource`: the data-source class. Its `dms`/`logger` fields are set by `OnInit`, and
  `LoadAgents` and `GetNextPage` read them.

The platform call `SendMessages` is an input, not a behaviour of the model. `LoadAgents` and
`GetNextPage` take a `Reply` value: the call either threw or returned a message array, which
may be null.

## Model

| member | source | states |
|---|---|---|
| GqiPage.BoolToPage | IsSwarmingEnabled_1/IsSwarmingEnabled_1.cs:130-141 | the page has exactly one row with exactly one cell; the cell's value is the given boolean and its display text is that boolean's .NET text ("True"/"False"); there is no next page |
| GqiPage.PageValue | IsSwarmingEnabled_1/IsSwarmingEnabled_1.cs:130-141 | a single-boolean page is read back only when it has one row, one cell, no next page, and a display text that matches the cell's value |
| GqiPage.PageRoundTrip | IsSwarmingEnabled_1/IsSwarmingEnabled_1.cs:130-141 | reading back the page built for `v` gives `v`; a page reads back as `v` exactly when it is the page built for `v`, so the `true` and `false` pages differ |
| AgentReplies.InfoFlags | IsSwarmingEnabled_1/IsSwarmingEnabled_1.cs:123 | the filtered list is no longer than the reply; it is empty exactly when no message of the reply is a DataMiner-info response |
| AgentReplies.InfoFlagsAppend | IsSwarmingEnabled_1/IsSwarmingEnabled_1.cs:123 | filtering a concatenation is the concatenation of the filtered parts, so the filter never reorders messages |
| AgentReplies.InfoFlagsInOrder | IsSwarmingEnabled_1/IsSwarmingEnabled_1.cs:123 | there is one kept flag per DataMiner-info message; the k-th kept flag belongs to the k-th such message; those messages are at strictly increasing positions; no DataMiner-info message is dropped |
| AgentReplies.InfoFlagsUniform | IsSwarmingEnabled_1/IsSwarmingEnabled_1.cs:88-94 | every kept flag equals `v` exactly when every DataMiner-info message in the reply reports `v` |
| Consensus.CountEnabled | IsSwarmingEnabled_1/IsSwarmingEnabled_1.cs:98 | the number of enabled agents never exceeds the number of agents |
| Consensus.CountEnabledAll | IsSwarmingEnabled_1/IsSwarmingEnabled_1.cs:88-98 | the enabled count equals the total exactly when every agent is enabled |
| Consensus.CountEnabledNone | IsSwarmingEnabled_1/IsSwarmingEnabled_1.cs:92-98 | the enabled count is zero exactly when every agent is disabled |
| Consensus.Decide | IsSwarmingEnabled_1/IsSwarmingEnabled_1.cs:88-101 | all enabled gives the `true` page; otherwise all disabled gives the `false` page; an error occurs exactly when the agents are mixed, and it reports the enabled count over the total with 0 < enabled < total |
| Consensus.DecideByCount | IsSwarmingEnabled_1/IsSwarmingEnabled_1.cs:88-101 | on a non-empty list, the decision depends only on the enabled count: `true` when it equals the total, `false` when it is zero, otherwise the mixed error with that count and total |
| Consensus.ExactlyOneOutcome | IsSwarmingEnabled_1/IsSwarmingEnabled_1.cs:88-101 | on a non-empty list, exactly one of the three outcomes occurs: the `true` page, the `false` page, or the mixed error; the `true` page comes exactly when all agents are enabled and the `false` page exactly when all are disabled |
| SwarmingSource.IsSwarmingEnabled.constructor | IsSwarmingEnabled_1/IsSwarmingEnabled_1.cs:63-64 | a new data source has no connection and no logger |
| SwarmingSource.IsSwarmingEnabled.OnInit | IsSwarmingEnabled_1/IsSwarmingEnabled_1.cs:73-82 | null arguments or a null connection raise the argument error and store nothing; otherwise the connection and logger are stored and init succeeds |
| SwarmingSource.IsSwarmingEnabled.LoadAgents | IsSwarmingEnabled_1/IsSwarmingEnabled_1.cs:104-128 | fails if no connection is stored; fails if the request threw; fails on a null or empty reply; fails if the reply has no DataMiner-info response; succeeds exactly in every other case, and then returns the non-empty, in-order flags of the DataMiner-info responses |
| SwarmingSource.IsSwarmingEnabled.GetNextPage | IsSwarmingEnabled_1/IsSwarmingEnabled_1.cs:84-102 | a loading error is passed on unchanged; the `true` page comes exactly when loading succeeds and all agents are enabled, and the `false` page exactly when loading succeeds and all are disabled; any page produced reads back as a boolean; any other failure after a successful load is the mixed error, with 0 < enabled < total |
| SwarmingSource.UninitialisedSourceFails | IsSwarmingEnabled_1/IsSwarmingEnabled_1.cs:104-107 | with no stored connection, every page request fails with the missing-connection error, whatever the reply |
| SwarmingSource.PageByMessages | IsSwarmingEnabled_1/IsSwarmingEnabled_1.cs:84-128 | for a non-empty reply, the page holding `v` is produced exactly when the reply has at least one DataMiner-info message and every such message reports `v` |

## Left out

- Sending the DataMiner-info request (`SendMessages` with a `GetInfoMessage`) is network messaging to the platform; its result is the `Reply` input.
- Exception types and message texts are not modelled. This includes wrapping a send failure in a security exception and the mixed-configuration message. Each becomes one `Errors.Error` kind; the mixed error keeps its two numbers.
- A null entry inside the reply array is modelled as a non-info message (`Other`), because the type filter drops it the same way.
- The logger is stored but never used for output; logging, the column list (`GetColumns`) and the GQI metadata attribute are framework glue.
- The redistribution planner, the per-agent count cache, its event queue and its debounce timer are not part of this model. Other scripts of the repository implement them; this data source does not use them.
