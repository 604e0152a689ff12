# The mesh-security consumer module, modelled and verified

This project is a Dafny 4.11 model of `x/meshsecurity`, the consumer-chain
module of the mesh-security SDK, with proofs of what it promises. It covers

- the block scheduler: tasks under ordered byte keys, scanned while they change,
  and the plain table from (type, height, contract) to a repeat flag that this
  index stands for (`Bytes`, `Order`, `Keys`, `Scheduler`, `SchedulerKeeper`);
- the validator-set event pipeline: piping, the binary key of an event, the
  report, the end blocker with its proportional slash amounts (`SlashCodec`,
  `Decimal`, `Dec`, `Valset`, `ValsetKeeper`, `EndBlock`);
- caps and the governance message (`Amounts`, `CapKeeper`, `MsgServer`);
- whole runs of blocks: delivery of events, what every call is told, the epoch
  schedule (`Runs`, `Delivery`, `Attempts`, `Epochs`);
- the virtual-stake ledger and its runs (`Bank`, `Ledger`, `LedgerRuns`);
- the protobuf codec of `ScheduledWork`, `ValidatorAddress`, `Params` and
  `MsgSetVirtualStakingMaxCap`, with the skipping of unknown fields (`Varints`,
  `Skip`, `Decoding`, `Messages`, `RoundTrips`, `Marshalling`). The format is that
  of the Protocol Buffers Encoding specification, sections "Base 128 Varints",
  "Message Structure" and "Groups".

`dafny verify dfyconfig.toml` checks all of it.

## How it is built

A keeper method works on a `Context`: height, time, decoded parameters, the
persistent and the in-memory store as maps from bytes to bytes, and the rest of
the application as a value of a type parameter. `CacheContext` copies it and
`Commit` writes it back. Loops over a store use `Seek`, the next key in byte
order. Where the source writes to a store it iterates over, a parameter `live`
says whether the iterator sees those writes; the contracts do not depend on it.

Every such method is proved equal to a function on plain tables (`Tasks`, `Caps`,
`Delegated`, together `Records`), and what the source promises is proved about
these functions. What each of them stands for is spelled out by lemmas that do not
lean on it, such as `MsgServer.AcceptedIff`, `Ledger.DelegateMeans` or
`Skip.EntryLayout`. A run is a sequence of blocks, a block a sequence of steps before
and after the module's end blocker; `Runs.ExecuteBlock` shows that the methods do
what these steps say. The module's end blocker is the last one
(`demo/app/app.go:733`), so the results about exactly one call per block assume no
event after it; delivery, what a call is told, and the bound of two calls do not.

A contract call and the staking module are functions that are parameters of the
model. A call may change the application in any way and, because a contract can
answer with messages to bond and unbond (`x/meshsecurity/keeper/handler_plugin.go`),
the delegated totals (`SchedulerKeeper.World`); it may read the caps, fail or panic.
Tasks, caps and pipe are beyond its reach. What the results need of the staking
module is written as a predicate (`StakingKeepsSupply`, `StakingBalances`, and
`Lawful` for the coin codec).

The wire codec is written once for the four messages; the generated code repeats
the same text in three files and differs in the field switch only.

## Where the code does not do what one might expect

- The writer and the reader of slash keys disagree on the order of power and
  height. The order of arguments in the staking decorator cancels this
  (`ValsetKeeper.SlashFieldsEndToEnd`).
- The reader computes indices in eight bits. `SlashCodec.PipedRoundTrip` gives the
  exact bound; events of the module stay within it (`ValsetKeeper.SlashEventsFit`).
- `Delegate` commits the issued coins and the new record even when the staking
  module refuses them (`Ledger.FailedDelegation`). Conservation holds nevertheless.
- `Undelegate` has a branch for a negative record. It is never taken, because
  `Coin.Sub` of the Cosmos SDK (version 0.47.5) panics first: an undelegation that
  returns more than is recorded is undone as a whole, and conservation holds without
  a condition (`LedgerRuns.UndelegateConserves`).
- A cap of zero does not mean that no repeating epoch task exists: setting zero
  when there is none starts one (`Epochs.ZeroCapTurnsSchedule`).
- A report is not made at all when a bonded or modified validator of the block is
  unknown; the events of the block are cleared nevertheless.
- `GetTotalDelegated` is described as never negative; the code turns a negative
  record into zero.

## Model

| member | source | states |
|---|---|---|
| `Bytes.BeOrder` | x/meshsecurity/keeper/scheduler.go:84-103 | Big-endian texts of the same width are ordered like the numbers, so stopping a scan at the first future height loses nothing. |
| `Keys.TaskKeyRoundTrip` | x/meshsecurity/types/keys.go:84-90 | A task key gives back type, height and contract. |
| `Keys.TaskKeyInjective` | x/meshsecurity/types/keys.go:84-90 | Different tasks have different keys. |
| `Keys.TaskKeyOrder` | x/meshsecurity/types/keys.go:67-90 | Within a type, key order is ascending height and then contract, both directions. |
| `Keys.TypePrefixCovers` | x/meshsecurity/types/keys.go:67-72 | A task key lies under a type prefix exactly when the task has the type. |
| `Keys.KeyLayout` | x/meshsecurity/types/keys.go:47-90 | The bytes of the keys: prefix, type, eight bytes of the height, contract. |
| `Bytes.LtMeans` | x/meshsecurity/keeper/scheduler.go:84-103 | Iteration order: at the first difference the smaller byte, or the end of the string, comes first. |
| `Bytes.TwosComplement` | x/meshsecurity/types/keys.go:93-121 | A signed number is written as its two's complement. |
| `Keys.BuildSchedulerContractKey` | x/meshsecurity/types/keys.go:84-90 | The key of a task, or an error exactly for the undefined type. |
| `SchedulerKeeper.ScheduleOneShotTask` | x/meshsecurity/keeper/scheduler.go:49-64 | Adds a one-shot task unless an entry exists (a repeating one is never demoted); refused exactly for past heights and the undefined type; nothing else changes. |
| `SchedulerKeeper.ScheduleRepeatingTask` | x/meshsecurity/keeper/scheduler.go:68-81 | Sets a repeating task, overwriting; same refusals; nothing else changes. |
| `Scheduler.DueCharacterised` | x/meshsecurity/keeper/scheduler.go:84-103 | The due list has exactly the tasks of the type up to the height, each once, by height and then contract. |
| `Scheduler.DueUnique` | x/meshsecurity/keeper/scheduler.go:84-103 | These properties determine the due list. |
| `SchedulerKeeper.IterateScheduledTasks` | x/meshsecurity/keeper/scheduler.go:84-103 | For every store the callback sees the due list from its start, up to and including the first task it stops at, or all of it. |
| `SchedulerKeeper.HasScheduledTask` | x/meshsecurity/keeper/scheduler.go:27-34 | True exactly when some task of the contract and type has the repeat flag. |
| `SchedulerKeeper.GetNextScheduledTaskHeight` | x/meshsecurity/keeper/scheduler.go:37-45 | The least height of a task of the contract and type, if there is one. |
| `SchedulerKeeper.DeleteAllScheduledTasks` | x/meshsecurity/keeper/scheduler.go:106-119 | Removes exactly the tasks of the contract and type while iterating; the same for a live and a snapshot iterator. |
| `Scheduler.AfterPassCharacterised` | x/meshsecurity/keeper/scheduler.go:161-198 | After a pass: the other tasks as they were, and one repeating task an epoch ahead for each repeating task that was due, when the epoch length is positive. |
| `Scheduler.AfterVisitsStep` | x/meshsecurity/keeper/scheduler.go:183-193 | Re-registering and then deleting one visited task: the deletion never hits the new entry. |
| `SchedulerKeeper.ExecScheduledTasks` | x/meshsecurity/keeper/scheduler.go:161-198 | New task table, new application and delegated totals, and one result per due task, in order; caps and every other key of the store unchanged; the table is independent of outcomes and of how the iterator sees the writes made during the scan. |
| `SchedulerKeeper.SafeExec` | x/meshsecurity/keeper/scheduler.go:201-208 | Application and delegated totals become what the call leaves in the branch, nothing else in the store changes, and a panic comes back as an error. |
| `SchedulerKeeper.ExecTask` | x/meshsecurity/keeper/scheduler.go:165-182 | One task in a branch: what the call did to application and delegated totals is kept on success, dropped on error or panic; then the task is re-scheduled and deleted. |
| `SchedulerKeeper.Provision` | x/meshsecurity/keeper/scheduler.go:183-193 | Re-registers a repeating task an epoch ahead and deletes the executed one, neither of which can fail. |
| `SchedulerKeeper.FailureIsolation` | x/meshsecurity/keeper/scheduler.go:165-197 | The state after a pass is that of running only the successful executors, unprotected, in the same order. |
| `SchedulerKeeper.ResultMeans` | x/meshsecurity/keeper/scheduler.go:161-198 | What a result says about one task: no error exactly when the call was done, otherwise its own or a panic; next run and re-scheduling error by the 64-bit sum. |
| `SlashCodec.BuildPipedValsetOpKey` | x/meshsecurity/types/keys.go:93-121 | Fills the buffer in place with prefix, length, address, code and slash data; panics exactly for an undefined code, missing slash data or an over-long address. |
| `SlashCodec.PipedRoundTrip` | x/meshsecurity/keeper/valset_updates.go:160-185 | Reading a written key gives the event back, power and height exchanged, if and only if addrLen + 19 + len(amount) <= 255 and amount and fraction are not both empty (addrLen <= 254 for other codes). |
| `SlashCodec.SlashDoesNotFit` | x/meshsecurity/keeper/valset_updates.go:173-178 | Beyond the bound the two strings come out with other lengths, if at all. |
| `SlashCodec.KeyLayout` | x/meshsecurity/types/keys.go:93-121 | The bytes of a key, field by field. |
| `Decimal.TextRoundTrip` | x/meshsecurity/keeper/valset_updates.go:28-36 | Reading the decimal text of an integer gives the integer. |
| `Decimal.DigitsMean` | x/meshsecurity/keeper/valset_updates.go:28-36 | The characters of a number are its decimal digits, with no leading zero. |
| `Decimal.TextMeans` | x/meshsecurity/keeper/valset_updates.go:28-36 | A negative number is its digits behind a minus sign. |
| `Decimal.Accepted` | x/meshsecurity/abci.go:37-41 | Text that is read as a number: one or more digits, perhaps behind a minus sign. |
| `Decimal.AmountLength` | x/meshsecurity/keeper/valset_updates.go:28-36 | An amount below 2^256 has at most 78 digits. |
| `ValsetKeeper.SlashEventsFit` | x/meshsecurity/keeper/valset_updates.go:28-36 | Slash events with addresses of up to 158 bytes and amounts below 2^256 fit the reader. |
| `ValsetKeeper.Slash` | x/meshsecurity/keeper/adapter.go:117-130 | Pipes the slash event with the arguments as they come, under the key spelled out here, and notifies every contract with a positive cap, exactly when the validator is known and its address can be a key; passes the slashed amount on, or panics with nothing changed. |
| `ValsetKeeper.SlashWithInfractionReason` | x/meshsecurity/keeper/adapter.go:133-135 | Pipes the event of an infraction at the given height by a validator of the given power. |
| `ValsetKeeper.SlashFieldsEndToEnd` | x/meshsecurity/keeper/adapter.go:117-135 | For every height and power, negative ones included, the entry read back has InfractionHeight and Power as given: the three exchanges cancel. |
| `ValsetKeeper.SendAsync` | x/meshsecurity/keeper/valset_updates.go:60-75 | Adds the key to the pipe, and afterwards an update task at this height is there if and only if it was or the cap of the contract is positive; panics with nothing changed when the key cannot be built. |
| `ValsetKeeper.NotifiedNotifies` | x/meshsecurity/keeper/valset_updates.go:60-75 | The same for the specification: exactly the contracts with a positive cap, whatever their address, get a task that does not repeat; all other tasks stay as they were. |
| `ValsetKeeper.ScheduleSlashed` | x/meshsecurity/keeper/valset_updates.go:28-36 | Pipes a slash event with these four values. |
| `ValsetKeeper.ValsetUpdateReport` | x/meshsecurity/keeper/valset_updates.go:80-143 | The report over the pipe, equal to the fold over its keys in order. |
| `ValsetKeeper.ClearPipedValsetOperations` | x/meshsecurity/keeper/valset_updates.go:146-157 | Removes exactly the keys of the pipe. |
| `Valset.FoldLists` | x/meshsecurity/keeper/valset_updates.go:80-143 | The report succeeds exactly when every event can be reported, and then is the lists of the events by category, in key order. |
| `Valset.ReportContents` | x/meshsecurity/keeper/valset_updates.go:80-143 | For a pipe holding a set of events: made exactly when all bonded or modified validators are known, and then each list has exactly the events of its category. |
| `Valset.ReportError` | x/meshsecurity/keeper/valset_updates.go:80-143 | A report that is not made fails with the error for an unknown validator. |
| `Valset.ReportOrdered` | x/meshsecurity/keeper/valset_updates.go:80-143 | Every list, that of slashes included, is free of duplicates and in the order of the keys of its events. |
| `Valset.PipeOne` | x/meshsecurity/keeper/valset_updates.go:60-62 | Piping an event adds it to the set; piping it again changes nothing. |
| `Valset.DeliverableInjective` | x/meshsecurity/keeper/valset_updates.go:160-185 | Different events have different keys and are read back differently. |
| `Valset.DeliverableIff` | x/meshsecurity/types/keys.go:93-121 | Which events have a key that is read back: codes 1 to 7, slash data for code 7 alone, addresses and amounts within the eight-bit indices. |
| `Attempts.SameEventsSameReport` | x/meshsecurity/keeper/valset_updates.go:80-143 | Runs that pipe the same set of events lead to equal reports, whatever the order, repetition and other activity. |
| `Dec.SlashWithinTotal` | x/meshsecurity/abci.go:46-62 | The share lies between 0 and the total. |
| `Dec.SlashMonotone` | x/meshsecurity/abci.go:46-62 | More delegator shares never give a smaller share of the slash. |
| `Dec.SlashError` | x/meshsecurity/abci.go:46-62 | The share differs from total * shares / validatorShares by at most 1/2 + total * 10^-18. |
| `Dec.RoundIsNearest` | x/meshsecurity/abci.go:46-62 | Rounding to 18 decimals less is to the nearest, and to the even one in between, and nothing else is. |
| `Dec.SlashMeans` | x/meshsecurity/abci.go:46-62 | The exact amount: the quotient of the shares cut off at 36 decimals and rounded to 18, times the total, rounded; zero without any shares. |
| `Dec.SlashesBounded` | x/meshsecurity/abci.go:46-62 | The shares of n contracts with disjoint delegations add up to at most total + n * (1/2 + total * 10^-18). |
| `EndBlock.ApportionSlashes` | x/meshsecurity/abci.go:31-64 | Overwrites every slash amount in place with the share of the contract, or stops with the first error. |
| `EndBlock.PrepareReport` | x/meshsecurity/abci.go:25-64 | Report and shares, step by step. |
| `EndBlock.ShareMeans` | x/meshsecurity/abci.go:32-62 | The amount a contract is told is its share by its own delegation to the slashed validator; an amount that is no number is found out before an unknown validator. |
| `EndBlock.RunPass` | x/meshsecurity/keeper/scheduler.go:161-198 | One pass: tasks, application and delegated totals afterwards, with no re-scheduling or deletion error for the response handler. |
| `EndBlock.EndBlocker` | x/meshsecurity/abci.go:20-71 | Update calls, then an empty pipe, then epoch calls: the whole new state, what every contract was sent in the world it found, that its effects are kept exactly on success, and all results. |
| `EndBlock.ResultsAreCalls` | x/meshsecurity/abci.go:25-70 | Every contract with a due update task is sent its report, every contract with a due epoch task the epoch message; the world of the next call and the error in the result are those of the answer. |
| `EndBlock.BlockEndWorld` | x/meshsecurity/abci.go:68-70 | What the block leaves of application and delegated totals is what the last of these calls leaves. |
| `EndBlock.BlockEndMeans` | x/meshsecurity/abci.go:20-71 | Tasks, caps and pipe after a block, entry by entry. |
| `EndBlock.TwoPasses` | x/meshsecurity/abci.go:25-70 | The second pass sees exactly the epoch tasks the block started with. |
| `EndBlock.NeverReschedulesIntoThePast` | x/meshsecurity/abci.go:95-111 | No result carries a re-scheduling or deletion error, so the default handler never halts the chain. |
| `EndBlock.NoErrorIff` | x/meshsecurity/abci.go:31-64 | The loop ends without error exactly when every share can be computed. |
| `CapKeeper.HasMaxCapLimit` | x/meshsecurity/keeper/keeper.go:85-88 | True exactly when a cap is stored, zero included. |
| `CapKeeper.GetMaxCapLimit` | x/meshsecurity/keeper/keeper.go:92-94 | The stored cap, or zero. |
| `CapKeeper.SetMaxCapLimit` | x/meshsecurity/keeper/keeper.go:98-124 | Stores the cap exactly when the denomination is right and the sum of all caps with it stays within the parameter; other records unchanged. |
| `CapKeeper.TotalOfOthers` | x/meshsecurity/keeper/keeper.go:103-109 | The loop adds up the caps of all other contracts. |
| `CapKeeper.GetTotalDelegated` | x/meshsecurity/keeper/keeper.go:128-134 | The recorded total, at least zero. |
| `CapKeeper.SetTotalDelegated` | x/meshsecurity/keeper/keeper.go:137-148 | Writes the total; another denomination panics with nothing written. |
| `Amounts.SetCap` | x/meshsecurity/keeper/keeper.go:114-120 | Writing a cap changes that cap and neither tasks nor totals. |
| `Amounts.SetDelegated` | x/meshsecurity/keeper/keeper.go:142-147 | Writing a total changes that total and neither tasks nor caps. |
| `Amounts.SumUpdate` | x/meshsecurity/keeper/keeper.go:102-113 | Replacing one amount moves the sum by the difference. |
| `MsgServer.ScheduleRegularRebalanceTask` | x/meshsecurity/keeper/scheduler.go:17-24 | A repeating epoch task one epoch ahead, for contracts only. |
| `MsgServer.SetVirtualStakingMaxCap` | x/meshsecurity/keeper/msg_server.go:26-62 | Accepted if and only if both addresses decode, the signer is the authority, the amount is a staking coin that is not negative, all caps stay within the parameter, and the address is a contract or has its repeating task; then the new cap and the new epoch schedule. |
| `MsgServer.AcceptedIff` | x/meshsecurity/keeper/msg_server.go:26-62 | The same for the specification. |
| `MsgServer.RefusedBecause` | x/meshsecurity/keeper/msg_server.go:26-62 | Which error a refused message gets: the first in this order. |
| `MsgServer.AcceptedChanges` | x/meshsecurity/keeper/msg_server.go:41-61 | What an accepted message does to caps and tasks, task by task. |
| `MsgServer.DeliverMsg` | x/meshsecurity/keeper/msg_server.go:26-62 | A refused message leaves no trace. |
| `Runs.Execute` | x/meshsecurity/keeper/msg_server.go:26-62 | The keeper operations do what the steps of a run say. |
| `Runs.CapMessage` | x/meshsecurity/keeper/msg_server.go:26-62 | In a run: under these conditions the records change so, and otherwise, for instance for another signer, the state is as it was. |
| `Runs.ExecuteBlock` | x/meshsecurity/abci.go:20-71 | Any sequence of operations with the end blocker behind it does what a block of a run says, delegations made by contract calls included. |
| `Delivery.PipingOwes` | x/meshsecurity/keeper/valset_updates.go:60-75 | After an event was piped it waits, with a pending task, for every contract whose cap was positive. |
| `Delivery.StepKeepsOwed` | x/meshsecurity/keeper/valset_updates.go:60-75 | No step takes an event or its pending task away, a changed cap included. |
| `Delivery.DeliveredInBlock` | x/meshsecurity/abci.go:20-71 | From any state: an event piped before an end blocker, while the contract had a positive cap, is in the pipe when that end blocker calls the contract, and gone afterwards. |
| `Delivery.DeliveredInNextBlock` | x/meshsecurity/abci.go:20-71 | From any state: an event piped after the end blocker is delivered by the next one. |
| `Delivery.ExactlyOneCall` | x/meshsecurity/abci.go:25-67 | In any block of a run without events behind the end blocker a contract is called once if it was notified in the block, however often, and otherwise not at all. |
| `Delivery.CallsOfARun` | x/meshsecurity/abci.go:25-67 | With events behind the end blocker: the calls of a block are one for every contract notified behind the last end blocker and one for every contract notified in the block, so two at most, the earlier first. |
| `Delivery.RunSettles` | x/meshsecurity/abci.go:25-67 | At the start of every block of such a run no update task is left and the pipe is empty. |
| `Attempts.EveryCallOfARun` | x/meshsecurity/abci.go:25-67 | In any block of any run, every call prepares a report of exactly the events piped since the last end blocker, with the slash shares of the contract; this fails exactly when a needed validator is unknown or an amount is no number. |
| `Attempts.PipedIsTold` | x/meshsecurity/abci.go:25-67 | From the event to the contract: an event piped in a block while the cap of a contract is positive has its entry, spelled out by category, in the report that the end blocker of that block sends to the contract, unless no report can be made. |
| `Attempts.PipedBehindIsTold` | x/meshsecurity/abci.go:25-67 | The same for an event piped behind the end blocker, and the next one. |
| `Attempts.PreparedContents` | x/meshsecurity/abci.go:25-65 | The same for any state whose pipe holds a set of events. |
| `Epochs.RunKeepsSchedule` | x/meshsecurity/keeper/msg_server.go:41-61 | At the start of every block of a run each contract has at most one repeating epoch task, exactly one if its cap is positive, due within the epoch. |
| `Epochs.BlockKeepsSchedule` | x/meshsecurity/keeper/scheduler.go:183-193 | After the end blocker at H all of them lie in (H, H + E]. |
| `Epochs.FreshIsScheduled` | x/meshsecurity/keeper/msg_server.go:41-61 | A store without caps and tasks satisfies the invariant. |
| `Epochs.CalledEveryEpoch` | x/meshsecurity/abci.go:68-70 | A contract whose cap stays positive through any E consecutive blocks of a run is sent the epoch message at the end of one of them, and what it does is part of the state. |
| `Epochs.CalledUntilZeroed` | x/meshsecurity/abci.go:68-70 | So a contract with a positive cap is called in every epoch of a run until a message sets its cap to zero. |
| `Epochs.ZeroEpochEndsSchedule` | x/meshsecurity/keeper/scheduler.go:183-193 | With an epoch length of zero a repeating task survives an end blocker if and only if it is not yet due. |
| `Epochs.CapChangeCallsContract` | x/meshsecurity/keeper/msg_server.go:44-61 | A contract whose cap is changed while it has its repeating task, to zero or not, is sent the epoch message at the end of the same block. |
| `Epochs.ZeroCapTurnsSchedule` | x/meshsecurity/keeper/msg_server.go:41-61 | After an accepted cap of zero the contract has a repeating epoch task if and only if it had none before. |
| `Epochs.ZeroCapStartsSchedule` | x/meshsecurity/keeper/msg_server.go:41-49 | For instance, in a new chain a cap of zero leaves a repeating task one epoch ahead. |
| `Epochs.ZeroCapStopsSchedule` | x/meshsecurity/keeper/msg_server.go:50-60 | A change to zero leaves exactly the one call of this block. |
| `Ledger.Delegate` | x/meshsecurity/keeper/stake.go:16-65 | Checks, then issues coins, then stakes them, as the next row says; the keeper method on its context. |
| `Ledger.DelegateMeans` | x/meshsecurity/keeper/stake.go:16-65 | The staking module is asked to delegate the amount from the actor to the validator, with supply and account raised and the offset lowered by it; bank and answer are its own and the record rises, even if it refuses; otherwise the first failing condition is the error and nothing changes. |
| `Ledger.FailedDelegation` | x/meshsecurity/keeper/stake.go:16-65 | A failed delegation leaves records and bank as they were if and only if no coins were issued. |
| `Ledger.NetOfIssuing` | x/meshsecurity/keeper/stake.go:40-50 | Issuing raises supply and account by the amount, lowers the offset by it, and leaves the module account alone. |
| `Ledger.InstantUndelegate` | x/meshsecurity/keeper/adapter.go:49-74 | Unbonds and moves what came back from the pool of the validator to the delegator. |
| `Ledger.Undelegate` | x/meshsecurity/keeper/stake.go:70-117 | All or nothing: on every error, when more comes back than is recorded, and without a delegation, store and bank are unchanged; otherwise coins are destroyed and the record is lowered by exactly their amount. |
| `Ledger.UnstakeMeans` | x/meshsecurity/keeper/stake.go:85-108 | The staking module is asked for the shares and to unbond them for the actor from the validator; what comes back leaves the pool of that validator, the supply and, upwards, the offset; which refusal gives which error. |
| `Ledger.UndelegateMeans` | x/meshsecurity/keeper/stake.go:70-117 | Refused at once unless the amount is positive, in the staking denomination and recorded; the record then falls by what came back. |
| `Ledger.NetOfUnstaking` | x/meshsecurity/keeper/stake.go:93-108 | Account and module balances end as the unbonding left them; the pool of the validator and the supply drop, and the offset rises, by the same amount. |
| `LedgerRuns.DelegateConserves` | x/meshsecurity/keeper/stake.go:38-64 | Records, supply and offset move together, also when staking fails. |
| `LedgerRuns.UndelegateConserves` | x/meshsecurity/keeper/stake.go:81-116 | They move together in every undelegation: what is destroyed is what the record loses. |
| `LedgerRuns.RunConserves` | x/meshsecurity/keeper/stake.go:16-117 | Over any run the records move with the supply and against the offset, apart from coins made by others. |
| `LedgerRuns.RecordsAreTheOffset` | x/meshsecurity/keeper/stake.go:16-117 | From an empty ledger the records add up to the negated offset. |
| `LedgerRuns.RunBalances` | x/meshsecurity/keeper/stake.go:16-117 | Over any run every coin of the supply is in an account or a pool, when the staking module only moves coins. |
| `LedgerRuns.CapsStayWithinTotal` | x/meshsecurity/keeper/keeper.go:98-124 | Over any run the stored caps add up to at most the parameter. |
| `LedgerRuns.DelegatedWithinHighestCap` | x/meshsecurity/keeper/stake.go:31-36 | Over any run a recorded total never exceeds the highest cap the contract has had. |
| `LedgerRuns.HighestIsBound` | x/meshsecurity/keeper/stake.go:31-36 | That bound is no less than the cap after any number of moves. |
| `LedgerRuns.HighestIsReached` | x/meshsecurity/keeper/stake.go:31-36 | It is the cap after some number of them. |
| `LedgerRuns.WithinCapAfter` | x/meshsecurity/keeper/keeper.go:98-124 | A total stays within the current cap if and only if the move is not a cap below it. |
| `LedgerRuns.Execute` | x/meshsecurity/keeper/stake.go:16-117 | The keeper operations do what the moves say. |
| `Varints.VarintRoundTrip` | x/meshsecurity/types/scheduler.pb.go:242-257 | The bytes of a number are read back as the number, whatever follows. |
| `Varints.VarintIs` | x/meshsecurity/types/scheduler.pb.go:196-206 | The bytes of a number: seven bits each, lowest first, all but the last with the top bit, and no more of them than needed. |
| `Varints.VarintInMeans` | x/meshsecurity/types/scheduler.pb.go:243-257 | Which bytes are read as which number, and which of the two errors the others give. |
| `Varints.SovIsLength` | x/meshsecurity/types/scheduler.pb.go:232-234 | sov is the number of bytes of the varint. |
| `Varints.EncodeVarint` | x/meshsecurity/types/scheduler.pb.go:196-206 | Writes exactly sov(v) bytes before the offset, and no others. |
| `Varints.ReadVarint` | x/meshsecurity/types/scheduler.pb.go:243-257 | The shift loop reads the varint cut off to the width of its variable, with both errors. |
| `Varints.WrapIsRemainder` | x/meshsecurity/types/meshsecurity.pb.go:573-587 | Cutting off is the remainder modulo the width. |
| `Skip.ScanFinishesGroup` | x/meshsecurity/types/scheduler.pb.go:393-465 | Inside depth + 1 groups the scan finishes the innermost one first. |
| `Skip.ScanIsField` | x/meshsecurity/types/scheduler.pb.go:390-467 | The scan with a depth counter is the recursive grammar of one field or group, errors included. |
| `Skip.SkipField` | x/meshsecurity/types/scheduler.pb.go:390-467 | The loop returns where the field ends, for any bytes at all: after n bytes if and only if they are one complete field or balanced group. |
| `Skip.ScanIffTree` | x/meshsecurity/types/scheduler.pb.go:390-467 | It ends within the data after n bytes if and only if they are one complete field or balanced group by the layout of the wire format. |
| `Skip.EntryLayout` | x/meshsecurity/types/scheduler.pb.go:412-461 | What is taken for one entry, without the reader: a tag and, by wire type, a varint, eight bytes, a length and as many bytes, or four bytes; a start tag; an end tag; nothing else. |
| `Skip.HeadRefuses` | x/meshsecurity/types/scheduler.pb.go:412-461 | Where the reader stops and with which error. |
| `Skip.SkipRefuses` | x/meshsecurity/types/scheduler.pb.go:390-467 | An end of a group where none began is refused as such; a group without an end, whatever it holds, runs out of data. |
| `Messages.SizeIsLength` | x/meshsecurity/types/scheduler.pb.go:207-230 | Size is the length of the encoding, for all four messages. |
| `Messages.WorkByNumber` | x/meshsecurity/types/scheduler.pb.go:148-164 | The encoding by field number. |
| `Messages.AddressByNumber` | x/meshsecurity/types/scheduler.pb.go:181-194 | The encoding by field number. |
| `Messages.ParamsByNumber` | x/meshsecurity/types/meshsecurity.pb.go:281-307 | The encoding by field number, zero numbers left out. |
| `Messages.SetMaxCapByNumber` | x/meshsecurity/types/tx.pb.go:253-283 | The encoding by field number, empty strings left out. |
| `Messages.FieldNumMeans` | x/meshsecurity/types/meshsecurity.pb.go:529-536 | The field number is a signed 32-bit number. |
| `Messages.KnownNumbers` | x/meshsecurity/types/meshsecurity.pb.go:536-606 | Which field numbers a message knows. |
| `Messages.ChunkMeans` | x/meshsecurity/types/meshsecurity.pb.go:538-568 | What stands behind a length, or which error. |
| `Messages.TagsRefused` | x/meshsecurity/types/meshsecurity.pb.go:527-536 | Which tags are refused, and how. |
| `Messages.WireTypesChecked` | x/meshsecurity/types/meshsecurity.pb.go:537-606 | A known field with another wire type is refused. |
| `Marshalling.PutWork` | x/meshsecurity/types/scheduler.pb.go:148-164 | ScheduledWork, written backwards. |
| `Marshalling.PutAddress` | x/meshsecurity/types/scheduler.pb.go:181-194 | ValidatorAddress, written backwards. |
| `Marshalling.PutParams` | x/meshsecurity/types/meshsecurity.pb.go:281-307 | Params, written backwards, zero numbers left out. |
| `Marshalling.PutSetMaxCap` | x/meshsecurity/types/tx.pb.go:253-283 | MsgSetVirtualStakingMaxCap, written backwards, empty strings left out. |
| `Marshalling.MarshalToSizedBuffer` | x/meshsecurity/types/meshsecurity.pb.go:281-307 | Fills the end of the buffer with the encoding and nothing else. |
| `Marshalling.Marshal` | x/meshsecurity/types/scheduler.pb.go:133-141 | The buffer of the computed size is filled to the last byte. |
| `Marshalling.ReadKnownField` | x/meshsecurity/types/meshsecurity.pb.go:537-606 | The field switch: wire type checks, lengths, nested message, numbers. |
| `Marshalling.Holder.Unmarshal` | x/meshsecurity/types/meshsecurity.pb.go:508-628 | The loop decodes field after field on top of the message, for any bytes, with the errors of the source. |
| `Messages.StepExtend` | x/meshsecurity/types/meshsecurity.pb.go:511-622 | A field that was read is read the same whatever follows it and wherever it stands. |
| `Decoding.ReadsThen` | x/meshsecurity/types/meshsecurity.pb.go:508-628 | Decoding two parts one after the other is decoding them together. |
| `RoundTrips.RoundTrip` | x/meshsecurity/types/tx.pb.go:238-499 | Unmarshal(Marshal(m)) = m for all four messages. |
| `RoundTrips.NumbersAreSet` | x/meshsecurity/types/meshsecurity.pb.go:569-606 | A number field replaces that number in any message, cut off to its width. |
| `RoundTrips.StringsAreSet` | x/meshsecurity/types/tx.pb.go:359-446 | A string field replaces that string in any message. |
| `RoundTrips.CoinsAreSet` | x/meshsecurity/types/tx.pb.go:447-478 | A coin field is decoded on top of the coin in any message. |
| `RoundTrips.ParamsIgnoreUnknownFields` | x/meshsecurity/types/meshsecurity.pb.go:607-627 | Unknown fields before, between and behind the fields of encoded parameters leave the result unchanged. |
| `RoundTrips.UnknownFieldsMakeNoDifference` | x/meshsecurity/types/meshsecurity.pb.go:607-627 | For any message and any boundary between fields: decoded with unknown fields inserted exactly as without. |

## Left out

- Events, logging, telemetry, queries, the command line, genesis wiring and the `demo` application.
- Gas: the gas limit is part of the results, running out of it is one of the ways a contract call fails.
- The one-line wrappers around `sendAsync` (bonded, unbonded, jailed, tombstoned, unjailed, modified) and the other hooks and decorators; `SlashWithInfractionReason` stands for them.
- Parameters are kept decoded in the context; their encoding is covered by the codec.
- MsgServer.ValidateBasic: the pattern of a denomination is not checked; any denomination but the staking one is refused by the next step.
- Bech32 text and address checks: addresses are byte strings and the decoder of a message's contract address is a parameter.
- Bit-length panics of `Int` and `Dec` in the Cosmos SDK, and an amount that is nil.
- Decimal.Parse: reads decimal text, the only form the module pipes; `NewIntFromString` of the Cosmos SDK also takes other bases by their prefix.
- The staking, bank and wasm keepers: parameters with stated laws, and balances of one denomination.
- `|=` of bit groups that do not overlap is written as addition, cut off to the width of the variable.
- The Go slices of the codec are sequences and arrays; their length is below 2^63.
- Marshalling.Holder.Unmarshal: what is left in the message after an error is not stated, because callers drop it.
- `Equal`, `String`, `Reset`, `MarshalTo` and the other generated text, the remaining messages, and `soz`, which nothing calls.
- Events piped, tasks scheduled and caps changed by contract calls during the end blocker.
- Genesis export, and a change of parameters in the middle of a run.
- SchedulerKeeper.IterateScheduledTasks: the callback only decides whether to stop; the loops that write while they iterate are modelled each for itself.
- Runs.Execute: the step `Other`, arbitrary outside activity, has no operation of the module behind it.
