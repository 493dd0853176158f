# Vonk Forge: a model of its protocols

Vonk Forge's control plane holds several small protocols: admission transactions that lock node keys
and rows, an observation transfer read from a byte stream, recovery of a request whose outcome is
unknown, a request identity kept in a directory, optional evidence dropped from a report, and a
handful of agreement checks. This project models them in Dafny and proves what they are for.

Code that steps through state is modelled as methods with loops, as classes, or as an in-place
rewrite of an array. Code that runs concurrently is modelled as a step system: a state, the actions
enabled in it, and statements over every run of actions. JSON, base64, SHA-256, hashes of lock keys,
clocks and the database's answers are parameters: a function or an oracle about which nothing is
assumed beyond what a statement says.

| file | what it models |
|---|---|
| `LockManager.dfy`, `Deadlock.dfy`, `Admission.dfy` | admission locking: FIFO lock queues, try and patient transactions, the canonical lock order |
| `SqliteReport.dfy`, `ConstraintDecision.dfy` | deciding a constraint violation from PostgreSQL's name or SQLite's columns |
| `Transport.dfy`, `ObservationTransfer.dfy`, `TransferGrammar.dfy`, `TransferRefusals.dfy` | the buffered body reader, the transfer reader, the grammar it accepts, and what it refuses with which error |
| `Recovery.dfy`, `InputDelivery.dfy` | bounded recovery of an unknown outcome, and the delivery of a job's inputs with it |
| `DurableIdentity.dfy` | the identity a scope directory keeps |
| `Json.dfy`, `CopiedDocument.dfy` | documents, and their deep copies in memory |
| `Removal.dfy`, `OptionalEvidence.dfy`, `EvidenceDrop.dfy` | removing paths from a copy in place, the search for the fewest groups to drop, and what a report says it lost |
| `Redaction.dfy`, `ProseRedaction.dfy` | redacting host paths in a text, and in a copied document in place |
| `Swap.dfy` | swap sizes |
| `ContentIdentity.dfy`, `WheelIdentity.dfy` | the identity of installed code and of a wheel, and the comparison an update makes |
| `SingleFlight.dfy` | shared name lookups |
| `ArtifactIdentity.dfy` | the identity checks over a compiled plan's artifacts |
| `ModelClosure.dfy` | which classes are models |
| `Basics.dfy`, `Ordering.dfy` | optional values, bytes and white space; string order, `sorted`, filters and bags |

## Where a promise needs a condition

- Admission is deadlock-free when no transaction declares two row groups on one table out of
  primary-key order, and when among the identities in use the key hash never gives two one value
  and one between them another. Both conditions are exact and finite (`SafeIffGroupsOrdered`,
  `SafeIffConvex`); a hash that is injective on those identities and one group per table satisfy
  them. Outside them two patient transactions can wait for each other (`TwoGroupsDeadlock`,
  `CollisionDeadlocks`).
- Two returns of `_durable_key` with no removal between them can differ, because a removal made
  between a call's scan and its return separates it from later calls
  (`ForgetDuringCallSeparates`). What counts are the moments at which the two calls find or create
  their keys: the returns are equal exactly when the earlier key's entry is there at the later
  moment, and it is there if nobody removed it in between, crashes or not (`DurableKey`). Without a
  crash in between that is exact (`DurableKeyWithoutCrash`); a crash can undo a removal
  (`CrashRestoresForgotten`).
- `usable_swap_bytes` is the largest fill that keeps both margins exactly from 2 GiB of swap on;
  below that no fill keeps them and it answers 0 (`LargestFill`).
- SQLite's decision is PostgreSQL's or DEFECT for every schema exactly when the report reads back
  as the violated key's columns or as nothing (`SoundIffRead`). A comma in a column name breaks
  this (`CommaMisreads`); identifiers that read back are characterised by `ReadsBackIff`. This
  takes PostgreSQL to report the default name; when two default names collide
  (`DefaultNamesCollide`) it reports another for one of them. For any reported name the decisions
  agree exactly under the condition of `SoundForName`. It fails whenever the default name is
  registered and the numbered one is not (`NumberedName`), as for a second key of the jobs on
  `request` and `id` (`JobsNumbered`).
- A wheel and a package installed from it are hashed alike exactly when the package has no stamp
  file below its top level outside a cache and no plain file with the cache directory's name
  (`SameIdentity`). A package whose only file is a stamp in a subdirectory, and the wheel it came
  from, break this (`NestedStamp`): with hashes that tell contents apart the comparison then reports
  an update (`UpdateAvailable`).
- "Completed answers are not cached" holds of a call exactly when no lookup of its name stands
  between its worker's completion and the removal of its entry (`CallShares`); a call made there is
  handed the completed future (`SettledIsShared`).
- "The waiter must always complete" holds exactly while the start of the lookup's thread did not fail
  with an error other than `RuntimeError` and `OSError` (`CompletableIff`). After such a failure,
  such as `MemoryError`, the entry stays and every later call for the name waits on a future nobody
  completes (`StartCanBeLost`).

The error that the budget check of `_recover` raises is caught by its loop like any other, so after
the deadline the remaining attempts run through without sending or observing. The deadline itself is
kept (`Recover`).

## Model

| member | source | states |
|---|---|---|
| `LockManager.StepKeeps` | control/src/vonk_control/admission_locking.py:466-483 | every take, grant, timeout, savepoint end, commit and rollback keeps the lock table consistent: exclusive holders, each transaction holding exactly a prefix of its requests, queues without repeats that hold exactly the waiters |
| `LockManager.ExclusionAndPrefix` | control/src/vonk_control/admission_locking.py:444-483 | in every run no two transactions hold one lock, an open one holds exactly a prefix of its lock sequence, also when a savepoint frees what a refused statement took, an ended one holds nothing, a committed one had taken all |
| `LockManager.TakeIs` | control/src/vonk_control/admission_locking.py:466-483 | a take is granted exactly when the transaction has the lock or no other transaction holds it or waits for it; otherwise a try is refused and a patient transaction waits |
| `LockManager.StepIs` | control/src/vonk_control/admission_locking.py:466-483 | a step changes its own transaction alone, and what each step makes of it; only a lock no other transaction holds is granted |
| `LockManager.RefusedTryWasContended` | control/src/vonk_control/admission_locking.py:466-483 | in every run a try is refused only by a take that met another transaction holding or waiting for its lock |
| `LockManager.CanGiveUp` | control/src/vonk_control/admission_locking.py:466-483 | in every consistent state any unfinished transaction can, by its own steps, roll back and hold nothing |
| `Deadlock.NoCycleInState` | control/src/vonk_control/admission_locking.py:466-483 | with every sequence in one strict order, no reachable state has a cycle of waits |
| `Deadlock.SomebodyMoves` | control/src/vonk_control/admission_locking.py:466-483 | in such a state, if a transaction is unfinished then some transaction can step without a timeout |
| `Deadlock.StepLowers` | control/src/vonk_control/admission_locking.py:466-483 | every step of every transaction lowers the work left, so no schedule goes on for ever |
| `Deadlock.EverybodyEnds` | control/src/vonk_control/admission_locking.py:466-483 | from every consistent state of ordered sequences all transactions can finish with no wait expiring and no rollback but of refused ones: every patient transaction that has not been refused commits |
| `Deadlock.DeadlockFree` | control/src/vonk_control/admission_locking.py:31-48 | both, over every run of any number of try and patient transactions; every run ends within a number of steps fixed at its start, and from every state all can finish without a timeout, the patient ones that were not refused by a commit |
| `Deadlock.CrossedPairDeadlocks` | control/src/vonk_control/admission_locking.py:466-483 | a sequence that takes two locks in one order and a patient peer that takes them in the other reach a cycle |
| `Deadlock.SafeIffOrdered` | control/src/vonk_control/admission_locking.py:466-483 | a transaction is safe beside every ordered peer exactly when it only tries or is ordered itself |
| `Deadlock.RunOvertakes` | control/src/vonk_control/admission_locking.py:104-123 | while a transaction stays queued, only those ahead of it in the queue get the lock |
| `Deadlock.BoundedOvertaking` | control/src/vonk_control/admission_locking.py:104-123 | from joining until grant or timeout, the grants ahead number at most the queue met on joining, and none goes to a try |
| `Deadlock.AcquirersNext` | control/src/vonk_control/admission_locking.py:104-123 | one more step adds its transaction to those that acquired a lock exactly when it did not hold it and now does |
| `Deadlock.WaitsThroughoutIs` | control/src/vonk_control/admission_locking.py:104-123 | to stay queued is to wait after every part of the run |
| `Admission.DeclaredLocksOrdered` | control/src/vonk_control/admission_locking.py:503-515 | with at most one group per table, the declared keys and rows are taken in the canonical order of the identities in use |
| `Admission.AdmissionDeadlockFree` | control/src/vonk_control/admission_locking.py:444-529 | over a hash that is convex on the identities the transactions lock, no run of declared admissions has a cycle of waits, an unfinished one always leaves a step to make, every run ends, and all can finish without a timeout, the patient ones that were not refused by a commit |
| `Admission.SafeIffConvex` | control/src/vonk_control/admission_locking.py:466-471 | over any finite set of identities, any two canonical declarations are safe together exactly when the hash is convex on those identities |
| `Admission.CollisionDeadlocks` | control/src/vonk_control/admission_locking.py:466-471 | a hash collision around another identity makes two key sets deadlock |
| `Admission.SafeIffGroupsOrdered` | control/src/vonk_control/admission_locking.py:503-515 | a declaration is safe beside every canonical one exactly when its declared rows, read by rank, name and key, never step back |
| `Admission.BackStepDeadlocks` | control/src/vonk_control/admission_locking.py:503-515 | declared rows with a step back have a canonical peer they deadlock with |
| `Admission.TwoGroupsDeadlock` | control/src/vonk_control/admission_locking.py:503-515 | two groups on one table, named against their keys' order, are such a declaration |
| `Admission.AcquireAdmissionKeys` | control/src/vonk_control/admission_locking.py:444-483 | a normal return holds every requested key's lock; a refusal holds exactly the sorted keys before the first refused; nothing is locked without keys or off PostgreSQL |
| `Admission.LockAdmissionRows` | control/src/vonk_control/admission_locking.py:486-529 | repeated names are refused; on PostgreSQL success, exactly when every row lock is granted, locks every row as often as the groups on its table list it and nothing else, the tables in the order of the list, and a refusal inside a group keeps exactly the rows of the groups before it; elsewhere nothing is locked or refused; success returns the rows by name |
| `Admission.DeclaredAllLocked` | control/src/vonk_control/admission_locking.py:31-48 | of any groups on listed tables every row is locked as often as it is listed under its table, and nothing else, tables by their position in the list |
| `Admission.GroupsInSequence` | control/src/vonk_control/admission_locking.py:503-510 | the groups are taken by the position of their table in the list, and on one table by name |
| `Admission.LockEach` | control/src/vonk_control/admission_locking.py:511-529 | the same for the groups in the order given |
| `Admission.LockGroup` | control/src/vonk_control/admission_locking.py:523-528 | one statement takes all its rows, or none of them is kept |
| `SqliteReport.ReadsBack` | control/src/vonk_control/admission_locking.py:387-392 | a report over plain identifiers reads back as the table and columns it was written for |
| `SqliteReport.ReadsBackIff` | control/src/vonk_control/admission_locking.py:387-392 | exactly the identifiers without separators and outer white space read back |
| `SqliteReport.ParseIs` | control/src/vonk_control/admission_locking.py:387-395 | a report is read as a table and columns exactly when, cut at every comma and without outer white space, each part is that table, a dot and its column |
| `ConstraintDecision.PostgresDecides` | control/src/vonk_control/admission_locking.py:348-381 | a violation PostgreSQL names is decided by the key's own or default name |
| `ConstraintDecision.SqliteDecides` | control/src/vonk_control/admission_locking.py:348-381 | a violation SQLite reports is decided by the name found for its columns, and is a DEFECT when there is none |
| `ConstraintDecision.OnlyUniqueKeys` | control/src/vonk_control/admission_locking.py:348-381 | without one of the three unique-key states and without a unique-key report the decision is DEFECT, whatever the name |
| `ConstraintDecision.NamedDecides` | control/src/vonk_control/admission_locking.py:348-381 | under each of those states a reported name decides by the registry, and is a DEFECT if it is not registered |
| `ConstraintDecision.ReportDecides` | control/src/vonk_control/admission_locking.py:348-381 | a unique-key report without a name decides by the name found for its columns, whatever the state |
| `ConstraintDecision.EvidenceIs` | control/src/vonk_control/admission_locking.py:348-381 | the evidence is the reported name, else the one found for the columns, else the check, and a placeholder unless it is up to 128 letters, digits and underscores |
| `ConstraintDecision.DefaultNameIs` | control/src/vonk_control/admission_locking.py:411-418 | a key without a name is called by its table and `pkey`, or by its table, its columns and `key`, joined by underscores |
| `ConstraintDecision.MatchingIs` | control/src/vonk_control/admission_locking.py:396-403 | the names found are those of the primary keys, unique keys and unique indexes over exactly the columns |
| `ConstraintDecision.FirstNameFound` | control/src/vonk_control/admission_locking.py:396-408 | the name found is the least of them by code points |
| `ConstraintDecision.RegisteredDecides` | control/src/vonk_control/admission_locking.py:230-254 | a key with a registered plan assumption is a REPLAN and with a registered request identity a REPLAY in both dialects, any other a DEFECT, if the keys over its columns are registered alike |
| `ConstraintDecision.RegisteredPrimaryKeys` | control/src/vonk_control/admission_locking.py:230-254 | the five unnamed primary keys of the registry have their registered names |
| `ConstraintDecision.RegisteredRequestIds` | control/src/vonk_control/admission_locking.py:230-254 | so do its unnamed unique keys on request ids and profile names |
| `ConstraintDecision.RegisteredRequestKeys` | control/src/vonk_control/admission_locking.py:230-254 | and on request keys and the active slot |
| `ConstraintDecision.DecidedWhenRead` | control/src/vonk_control/admission_locking.py:384-408 | a report that reads back decides as PostgreSQL does when the keys over those columns are decided alike, else DEFECT |
| `ConstraintDecision.MisreadIsUnsound` | control/src/vonk_control/admission_locking.py:384-408 | a report read as other columns has a schema in which SQLite says REPLAN where PostgreSQL says REPLAY |
| `ConstraintDecision.SoundIffRead` | control/src/vonk_control/admission_locking.py:384-408 | over all schemas SQLite's decision is PostgreSQL's or DEFECT exactly when the report reads back as nothing or as the key |
| `ConstraintDecision.CrossDialect` | control/src/vonk_control/admission_locking.py:230-254 | with the registered constraints and plain identifiers, a REPLAN or REPLAY on SQLite is the same on PostgreSQL for any schema |
| `ConstraintDecision.CommaMisreads` | control/src/vonk_control/admission_locking.py:387-392 | a column name with a comma gives a REPLAN on SQLite for a REPLAY on PostgreSQL |
| `ConstraintDecision.DefaultNamesCollide` | control/src/vonk_control/admission_locking.py:411-418 | unnamed unique keys over two columns and over one column named like both have one default name |
| `ConstraintDecision.SoundForName` | control/src/vonk_control/admission_locking.py:384-418 | for any name PostgreSQL reports, SQLite's decision is PostgreSQL's or DEFECT exactly when the keys are not alike, or the default name is a DEFECT or decided like the reported one |
| `ConstraintDecision.NumberedName` | control/src/vonk_control/admission_locking.py:384-418 | under any rules, of two unnamed keys with one default name SQLite decides the second by that name and PostgreSQL, under a name that is not registered, DEFECT |
| `ConstraintDecision.JobsNumbered` | control/src/vonk_control/admission_locking.py:230-254 | with the registered constraints, a second such key of the jobs is a REPLAY on SQLite and a DEFECT on PostgreSQL |
| `ConstraintDecision.ConstraintsRegistered` | control/src/vonk_control/admission_locking.py:230-261 | every registered name passes the evidence filter, so it is never replaced by the placeholder |
| `ConstraintDecision.KeyOrderIgnored` | control/src/vonk_control/admission_locking.py:396-408 | the order in which a table lists its keys does not change the name found |
| `Transport.HttpsBody.Read` | src/cluster_profiles/control_transport.py:164-186 | successive reads concatenate to the body, a read is short only at its end, empty network pieces included; a negative or closed read fails and consumes nothing |
| `ObservationTransfer.FeedSplit` | src/cluster_profiles/observation_transfer_reader.py:82-173 | feeding a stream piecewise is feeding it at once |
| `ObservationTransfer.FullBufferRefuses` | src/cluster_profiles/observation_transfer_reader.py:82-97 | a buffer filled without a newline is refused whatever follows |
| `ObservationTransfer.Reader.TakeLine` | src/cluster_profiles/observation_transfer_reader.py:98-169 | one record moves the phase machine as the specification does, or fails with its error, or the deadline passed |
| `ObservationTransfer.Reader.Accept` | src/cluster_profiles/observation_transfer_reader.py:88-169 | one read feeds the machine its bytes and keeps the buffer within the allocation |
| `ObservationTransfer.Receive` | src/cluster_profiles/observation_transfer_reader.py:51-181 | whatever pieces a stream answers with, the outcome is the verdict on their concatenation, unless a checkpoint is late or a read raises; answers beyond what was asked for are refused for that, or for what came before; a payload is returned only if every checkpoint, around reads and lines and at the end, was in time |
| `ObservationTransfer.ReceiveHttps` | src/cluster_profiles/observation_transfer_reader.py:51-181 | over the buffered body the outcome is the verdict on the body, unless a checkpoint is late or a read raises; a payload is returned only if the checkpoints were in time |
| `ObservationTransfer.Conclude` | src/cluster_profiles/observation_transfer_reader.py:170-181 | a complete transfer is decoded and validated between checkpoints before, between and after |
| `TransferGrammar.AcceptsExactly` | src/cluster_profiles/observation_transfer_reader.py:81-181 | a body is received as a value exactly when it is a start record, contiguous chunks from 0, at least one, a matching receipt and nothing more, each line within the record size, with a payload that decodes and validates to that value |
| `TransferGrammar.TransferAccepted` | src/cluster_profiles/observation_transfer_reader.py:81-181 | a body of that form is received or refused for its payload alone |
| `TransferGrammar.EncodedIsTransfer` | src/cluster_profiles/observation_transfer_reader.py:115-157 | the records written for any non-empty list of chunks have that form |
| `TransferGrammar.RoundTrip` | src/cluster_profiles/observation_transfer_reader.py:81-181 | writing chunks and reading the bytes gives back exactly their concatenation |
| `TransferGrammar.RoundTripOverHttps` | src/cluster_profiles/control_transport.py:164-186 | the same through the buffered body reader, for any network chunking, if no checkpoint is late and no read raises |
| `TransferRefusals.RefusesExactly` | src/cluster_profiles/observation_transfer_reader.py:51-181 | with each error exactly those bodies are refused that break the grammar, the allocation or the payload in the way the error names, at the first place they do |
| `TransferRefusals.BreaksIs` | src/cluster_profiles/observation_transfer_reader.py:98-169 | after lines that keep the grammar, the reader refuses a line with an error exactly when the line breaks the grammar as that error says; an error record gives its own reason and detail |
| `ObservationTransfer.WithinIs` | src/cluster_profiles/observation_transfer_reader.py:88-97 | the answers keep the allocation exactly when none exceeds what the buffer has left |
| `Recovery.Delay` | src/cluster_profiles/cli_artifact_jobs.py:1219-1223 | the pause never exceeds the time left |
| `Recovery.Send` | src/cluster_profiles/cli_artifact_jobs.py:1200-1206 | a send is the next event of the script: it returns, is refused, or leaves the outcome to an observation; after the deadline nothing is sent |
| `Recovery.LookOnce` | src/cluster_profiles/cli_artifact_jobs.py:1208-1218 | an observation is the next event of the script: it decides, finds nothing, or fails |
| `Recovery.Look` | src/cluster_profiles/cli_artifact_jobs.py:1207-1218 | after a send one observation is made, and one more exactly if it fails |
| `Recovery.Recover` | src/cluster_profiles/cli_artifact_jobs.py:1176-1230 | for any idempotent request the loop is the script to its end: it begins with a send at once; at most 3 sends and 6 observations, each within its budget; an accepted answer or an observation that shows the request done is a return, and only that; nothing after a confirmation or an authorization refusal; without one 3 sends are made or time is up; no replay without an observation; the owner is as before or has received the request; with punctual calls the end is by start + 3 timeouts |
| `Recovery.RunStarts` | src/cluster_profiles/cli_artifact_jobs.py:1200-1202 | every run begins with a send at its start, with the whole timeout |
| `Recovery.ReturnsAt` | src/cluster_profiles/cli_artifact_jobs.py:1200-1211 | an event ends the run with a return exactly when it is an answered send the client accepts or an observation that shows the request done |
| `Recovery.LooksAre` | src/cluster_profiles/cli_artifact_jobs.py:1207-1218 | after an undecided send an observation is made if there is time; a failed one is repeated once, one that finds nothing is not |
| `Recovery.PausedBefore` | src/cluster_profiles/cli_artifact_jobs.py:1219-1225 | every send but the first directly follows a pause |
| `Recovery.PauseIs` | src/cluster_profiles/cli_artifact_jobs.py:1219-1225 | each pause is 0.1 seconds doubled per earlier attempt, or what the peer asked for if longer, cut to the time left |
| `Recovery.BudgetIs` | src/cluster_profiles/cli_artifact_jobs.py:1192-1198 | every call is given the timeout or what is left until three timeouts after the start |
| `Recovery.RunRaises` | src/cluster_profiles/cli_artifact_jobs.py:1226-1230 | an undecided run raises its last failure exactly when it finished in time and that is an HTTP error; otherwise the outcome is unknown |
| `Recovery.LastFailureIs` | src/cluster_profiles/cli_artifact_jobs.py:1203-1218 | the last failure is that of the last event that failed, not-found observations aside |
| `Recovery.RefusalsAre` | src/cluster_profiles/cli_artifact_jobs.py:1167-1173 | exactly statuses 401 and 403, of an HTTP error or a malformed response, refuse at once |
| `Recovery.RunOwner` | src/cluster_profiles/cli_artifact_jobs.py:1176-1230 | the owner has received the request exactly when a send, or one that came late, reached it |
| `Recovery.ActsOnce` | src/cluster_profiles/cli_artifact_jobs.py:1176-1230 | however often a request is recovered, the owner acts on its key once, under its intent if the key was free, and on nothing else |
| `InputDelivery.UploadAgain` | control/src/vonk_control/artifact_jobs/inputs.py:132-187 | attaching an input is idempotent, so an upload may be recovered |
| `InputDelivery.UploadIs` | control/src/vonk_control/artifact_jobs/inputs.py:132-187 | an upload changes a draft only, and there one file, declared with its media type, size and digest, as it was declared |
| `InputDelivery.FinalizationShown` | src/cluster_profiles/cli_artifact_jobs.py:482-496 | an observation accepts exactly a ready job or one that a concurrent submit gave an operation, which finalizing again leaves alone; a draft is accepted after finalizing exactly with complete and available inputs |
| `InputDelivery.UploadEach` | src/cluster_profiles/cli_artifact_jobs.py:406-458 | after each declaration the owner has every one so far exactly as declared; what a failed upload leaves keeps them |
| `InputDelivery.CoveredIsComplete` | control/src/vonk_control/artifact_jobs/inputs.py:189-211 | declarations that cover the job's leave exactly the declared files |
| `InputDelivery.DeliverInputs` | src/cluster_profiles/cli_artifact_jobs.py:398-498 | a return means that the owner has every declared input exactly as declared and no draft is left; a draft is then ready exactly when its files are the declared ones and available; a draft's own declarations are delivered whenever the owner answers; whatever the outcome, every input reported as uploaded is at the owner and had not been shown, and nothing else changed there |
| `DurableIdentity.StepKeeps` | src/cluster_profiles/fleet_qualification_observation.py:29-75 | every step of any process, removal or crash keeps at most one key in every directory image, the log true of the directory, and returned keys durable |
| `DurableIdentity.DurableKey` | src/cluster_profiles/fleet_qualification_observation.py:29-75 | over every run, two returns are equal exactly when the earlier key's entry is there when the later call finds or creates its own, and it is there if it was not removed between the two choices |
| `DurableIdentity.OneKey` | src/cluster_profiles/fleet_qualification_observation.py:29-75 | in every run neither the scope directory nor any image a crash could bring back holds two keys |
| `DurableIdentity.DurableKeyWithoutCrash` | src/cluster_profiles/fleet_qualification_observation.py:29-75 | without a crash or a repeated name between the choices, two returns are equal exactly when the entry was not removed between them |
| `DurableIdentity.ForgetDuringCallSeparates` | src/cluster_profiles/fleet_qualification_observation.py:29-75 | a removal between a call's scan and its return lets the next call return another key |
| `DurableIdentity.CrashRestoresForgotten` | src/cluster_profiles/fleet_qualification_observation.py:70-75 | an unsynced removal can be undone by a crash, so a removal need not change the key |
| `DurableIdentity.CallCompletes` | src/cluster_profiles/fleet_qualification_observation.py:29-67 | from every consistent state with the lock free, a call can run to its return of the key that is there, or of any new one if there is none |
| `DurableIdentity.DeathFreesLock` | src/cluster_profiles/fleet_qualification_observation.py:66-67 | a call that dies or a crash frees the lock and leaves the directory as it was, or as it was at some operation since the last sync |
| `Removal.StripInsert` | agent_protocol/src/vonk_agent_protocol/optional_evidence.py:125-136 | removing one more path is removing the larger set of paths, so order and prefixes do not matter |
| `Removal.PopPath` | agent_protocol/src/vonk_agent_protocol/optional_evidence.py:130-135 | the walk along one path and the pop at its end remove that path from the document held in memory, and nothing if a step is missing |
| `CopiedDocument.Copy` | agent_protocol/src/vonk_agent_protocol/optional_evidence.py:98-128 | every document has a deep copy that reads back as it and shares no container |
| `OptionalEvidence.Without` | agent_protocol/src/vonk_agent_protocol/optional_evidence.py:125-136 | popping the groups' paths from a deep copy, in place and one by one, leaves the document without exactly that set of paths |
| `Removal.StripFrame` | agent_protocol/src/vonk_agent_protocol/optional_evidence.py:125-136 | a place at or below a removed path is gone, every other place is there if it was, with only the paths below it removed |
| `Removal.LeavesKept` | agent_protocol/src/vonk_agent_protocol/optional_evidence.py:125-136 | every leaf outside the removed paths is unchanged |
| `Removal.StripTwice` | agent_protocol/src/vonk_agent_protocol/optional_evidence.py:125-136 | removal is idempotent |
| `OptionalEvidence.CombinationsExact` | agent_protocol/src/vonk_agent_protocol/optional_evidence.py:256-257 | the choices tried at a size are exactly the sub-lists of that size |
| `OptionalEvidence.PicksIs` | agent_protocol/src/vonk_agent_protocol/optional_evidence.py:256-257 | a choice of groups is some of their positions in order |
| `OptionalEvidence.CombinationsAre` | agent_protocol/src/vonk_agent_protocol/optional_evidence.py:256-257 | the choices tried are the groups at the listed positions |
| `OptionalEvidence.PositionsInOrder` | agent_protocol/src/vonk_agent_protocol/optional_evidence.py:256-257 | of two choices the one with the earlier position at their first difference is tried first |
| `OptionalEvidence.OnlyPresentMatter` | agent_protocol/src/vonk_agent_protocol/optional_evidence.py:250-254 | dropping a group with no part present changes nothing |
| `OptionalEvidence.LessIsEnough` | agent_protocol/src/vonk_agent_protocol/optional_evidence.py:250-254 | searching only the present groups loses nothing |
| `OptionalEvidence.FirstValid` | agent_protocol/src/vonk_agent_protocol/optional_evidence.py:257-268 | the first choice that validates, or none does |
| `OptionalEvidence.Search` | agent_protocol/src/vonk_agent_protocol/optional_evidence.py:250-269 | the accepted document drops a least number of declared groups, the first such choice in order; rejection is exactly that no choice validates |
| `OptionalEvidence.DropInvalidOptionalEvidence` | agent_protocol/src/vonk_agent_protocol/optional_evidence.py:229-269 | a valid report is kept; otherwise the report, redacted if it has a host path, loses a minimum set of groups over all subsets, the first in order, and is refused exactly when none validates; each dropped group has its drop, which fits the wire format; no host path is left in its prose |
| `EvidenceDrop.LeadingReaches` | agent_protocol/src/vonk_agent_protocol/optional_evidence.py:139-151 | what is kept of an error's location is the way to a field of the document, and all of a location that is one |
| `EvidenceDrop.TagSkipped` | agent_protocol/src/vonk_agent_protocol/optional_evidence.py:139-151 | a part that addresses nothing where it stands, as a union member's tag, is skipped and the rest followed as if it were not there |
| `EvidenceDrop.DataLocation` | agent_protocol/src/vonk_agent_protocol/optional_evidence.py:139-151 | the walk gives the labels of that way, keys that are not safe to show as `*` |
| `EvidenceDrop.Deepest` | agent_protocol/src/vonk_agent_protocol/optional_evidence.py:176 | the first of the located errors that reach deepest |
| `EvidenceDrop.DropSpeaks` | agent_protocol/src/vonk_agent_protocol/optional_evidence.py:158-187 | a drop names a deepest error inside a present path of its group, or the first present path with the first error's type when no error lies inside the group |
| `EvidenceDrop.ErrorTypeIs` | agent_protocol/src/vonk_agent_protocol/optional_evidence.py:154-155 | the error type is the lower-cased name, character by character, cut to 64, or `value_error` if empty |
| `EvidenceDrop.DottedNext` | agent_protocol/src/vonk_agent_protocol/optional_evidence.py:179-185 | keys are joined by dots |
| `EvidenceDrop.LabelIs` | agent_protocol/src/vonk_agent_protocol/optional_evidence.py:145-150 | a key is shown as it is or as `*`, a list position in decimal |
| `EvidenceDrop.DecimalIs` | agent_protocol/src/vonk_agent_protocol/optional_evidence.py:149 | the decimal shown has the value of the position |
| `EvidenceDrop.DropOnWire` | agent_protocol/src/vonk_agent_protocol/optional_evidence.py:54-61 | for every document, refusal and error name a drop fits the wire patterns, so reporting a loss never fails and never shows an unsafe key |
| `Redaction.LeftmostGreedy` | agent_protocol/src/vonk_agent_protocol/optional_evidence.py:69-85 | up to the next path token the text is kept, the whole token is replaced, and the rest is substituted likewise |
| `Redaction.SubstitutesMatches` | agent_protocol/src/vonk_agent_protocol/optional_evidence.py:69-85 | for every text: without a separator it is kept, and otherwise it has exactly one next match, replaced as stated |
| `Redaction.SubstituteLeavesNone` | agent_protocol/src/vonk_agent_protocol/optional_evidence.py:69-85 | no separator survives |
| `Redaction.RedactTextClean` | agent_protocol/src/vonk_agent_protocol/optional_evidence.py:72-86 | after the cut too neither slash nor backslash is left, within the longer of the original length and 128; a text without them is untouched |
| `Redaction.RedactTextIs` | agent_protocol/src/vonk_agent_protocol/optional_evidence.py:79-86 | the redacted text is the rewriting in which each successive path token of the text is `<host-path>` and all else is kept, cut to the longer of its length and 128 if longer |
| `Redaction.RewritingExists` | agent_protocol/src/vonk_agent_protocol/optional_evidence.py:79-86 | every text has such a rewriting |
| `Redaction.SubstitutedIsRewritten` | agent_protocol/src/vonk_agent_protocol/optional_evidence.py:69-85 | and only one |
| `Redaction.PathReplaced` | agent_protocol/src/vonk_agent_protocol/optional_evidence.py:66-69 | a path between white space, quotes, brackets, `,`, `;`, `=` or `:` is replaced whole, and what is around it kept |
| `Redaction.KeyAndLineKept` | agent_protocol/src/vonk_agent_protocol/optional_evidence.py:66-69 | `key=` before a path and `:line` after it are kept |
| `ProseRedaction.RedactedClean` | agent_protocol/src/vonk_agent_protocol/optional_evidence.py:89-113 | the redacted tree has no host path under a prose name, and is unchanged if there was none |
| `ProseRedaction.RedactedFrame` | agent_protocol/src/vonk_agent_protocol/optional_evidence.py:89-113 | the shape is kept, and of the leaves only strings under a prose name change |
| `ProseRedaction.RedactedOnce` | agent_protocol/src/vonk_agent_protocol/optional_evidence.py:89-113 | a second redaction finds nothing to do |
| `ProseRedaction.VisitItem` | agent_protocol/src/vonk_agent_protocol/optional_evidence.py:106-112 | one item is either a prose string, redacted if it has a separator, or is queued |
| `ProseRedaction.VisitItems` | agent_protocol/src/vonk_agent_protocol/optional_evidence.py:106-112 | visiting a dictionary redacts its own prose strings and queues every other value |
| `ProseRedaction.Visit` | agent_protocol/src/vonk_agent_protocol/optional_evidence.py:101-112 | one turn of the worklist rewrites one container in place and leaves the others |
| `ProseRedaction.RedactInPlace` | agent_protocol/src/vonk_agent_protocol/optional_evidence.py:98-113 | the worklist ends with the tree that the recursive map gives, and reports a change exactly when some prose string had a separator |
| `ProseRedaction.RedactedProse` | agent_protocol/src/vonk_agent_protocol/optional_evidence.py:89-113 | copying, redacting in place and reading back gives the redacted document, or nothing exactly when it is no object or has no host path |
| `Swap.UsableIs` | agent_protocol/src/vonk_agent_protocol/swap.py:141-156 | usable swap is what the tighter of the two margins leaves, never below 0 |
| `Swap.UsableMonotone` | agent_protocol/src/vonk_agent_protocol/swap.py:141-156 | more swap never means less usable swap, despite the floors |
| `Swap.LargestFill` | agent_protocol/src/vonk_agent_protocol/swap.py:141-156 | it is the largest fill within both margins exactly from 2 GiB on; below, none is within them |
| `Swap.SwapNeededBytes` | agent_protocol/src/vonk_agent_protocol/swap.py:159-167 | a load fits n GiB exactly when the needed size is at most n GiB, and the size is linear in the load |
| `Swap.EnoughSwap` | agent_protocol/src/vonk_agent_protocol/swap.py:159-167 | a size linear in the load is enough, so the loop ends |
| `ContentIdentity.PushKeeps` | src/cluster_profiles/runtime_identity.py:99-104 | not descending into caches loses no file that would be kept |
| `ContentIdentity.FilesAre` | src/cluster_profiles/runtime_identity.py:88-114 | the files of a package are exactly those that names lead to through its directories |
| `ContentIdentity.InstalledContentIdentity` | src/cluster_profiles/runtime_identity.py:88-114 | the stack walk gives the identity of the kept files as a bag, for any listing order, and is unknown exactly over 64 MiB if nothing fails; an identity means that no entry outside caches was late or failed |
| `WheelIdentity.SelectedIs` | src/cluster_profiles/runtime_identity.py:122-129 | on a file's archive name the wheel's string tests are tests on its path components |
| `WheelIdentity.SelectedExactly` | src/cluster_profiles/runtime_identity.py:122-129 | exactly directory entries, members outside the package, members with a cache among their directories and the own stamp are skipped |
| `WheelIdentity.WalksKeep` | src/cluster_profiles/runtime_identity.py:99-129 | what the two walks keep of the package, by its own names |
| `WheelIdentity.PackageRulesProper` | src/cluster_profiles/runtime_identity.py:124-127 | the package, cache and stamp names are single path components, as the agreement asks |
| `WheelIdentity.WheelContentIdentity` | src/cluster_profiles/runtime_identity.py:117-138 | the flat walk gives the identity of the selected members, if not late and with true sizes; a value is never anything else, and means that no selected member was late or declared more than was left |
| `WheelIdentity.IdentityOfBag` | src/cluster_profiles/runtime_identity.py:114-138 | the order of the files does not show in the identity |
| `WheelIdentity.IdentityTells` | src/cluster_profiles/runtime_identity.py:14-138 | with hashes that tell contents apart, two known identities are equal exactly when the files are |
| `WheelIdentity.SameKept` | src/cluster_profiles/runtime_identity.py:99-129 | both walks keep the same files exactly when none is disputed |
| `WheelIdentity.SameIdentity` | src/cluster_profiles/runtime_identity.py:88-138 | a wheel and a package with the same files, caches and the package's own stamp aside, are hashed alike exactly when no installed file is disputed, and then have one identity, known or not |
| `WheelIdentity.SameFiles` | src/cluster_profiles/runtime_identity.py:88-138 | the two walks hash one bag exactly when the files they keep are one bag |
| `WheelIdentity.UpdateAvailable` | src/cluster_profiles/cli_update.py:336-362 | with no lateness or failure each identity is unknown exactly over 64 MiB; a package installed from the wheel gets the wheel's identity; with telling hashes no update is reported exactly when the kept files are the same, and for a package with the wheel's files one is reported exactly when a file is disputed |
| `WheelIdentity.NestedStamp` | src/cluster_profiles/runtime_identity.py:99-129 | a stamp in a subdirectory, shipped and installed alike, is disputed: such an update is reported |
| `SingleFlight.StepMatched` | src/cluster_profiles/control_transport.py:28-52 | every step keeps pending entries and owners that have yet to remove theirs in one-to-one match |
| `SingleFlight.OneOwner` | src/cluster_profiles/control_transport.py:28-52 | in every run an entry belongs to exactly one unfinished owner, a removal finds the remover's own entry, and no name has two lookups in flight |
| `SingleFlight.CallShares` | src/cluster_profiles/control_transport.py:31-35 | a call hands out the future of an owner that has not removed its entry, completed exactly when the call falls between the worker's completion and its removal of the entry |
| `SingleFlight.SettledIsShared` | src/cluster_profiles/control_transport.py:28-46 | a run in which a call is handed a completed answer |
| `SingleFlight.CompletedOnce` | src/cluster_profiles/control_transport.py:37-52 | a future is completed at most once, exactly once when its owner is over, and until then its owner can step unless it was lost |
| `SingleFlight.AnswersAreGiven` | src/cluster_profiles/control_transport.py:37-52 | in every run a future is completed with what its worker found, or with the error that kept its thread from starting |
| `SingleFlight.CompletableIff` | src/cluster_profiles/control_transport.py:37-52 | in every run a future can still be completed, or is, exactly when its owner was not lost at the start of its thread; a lost owner's future is handed out for ever |
| `SingleFlight.StartCanBeLost` | src/cluster_profiles/control_transport.py:47-52 | a run in which a start fails uncaught and the future handed out is never completed |
| `SingleFlight.ThreeSteps` | src/cluster_profiles/control_transport.py:37-52 | an owner is over after three steps of its own at most, and no other step sets it back |
| `ArtifactIdentity.AcceptedIsPairwise` | agent_protocol/src/vonk_agent_protocol/compiled_execution_plan.py:484-509 | acceptance is agreement of every two artifacts |
| `ArtifactIdentity.AcceptedExactly` | agent_protocol/src/vonk_agent_protocol/compiled_execution_plan.py:484-509 | a plan is accepted exactly when within a selection one path has one file id, digest, size and model, one file id one path, and no target and path occur twice |
| `ArtifactIdentity.PermutationInvariant` | agent_protocol/src/vonk_agent_protocol/compiled_execution_plan.py:484-509 | acceptance does not depend on the order |
| `ArtifactIdentity.AcceptedIdentity` | agent_protocol/src/vonk_agent_protocol/compiled_execution_plan.py:484-509 | within a selection file id and path stand for each other, either fixes digest, size and model, and mount target and path are never shared |
| `ArtifactIdentity.FirstClashIs` | agent_protocol/src/vonk_agent_protocol/compiled_execution_plan.py:484-509 | a refusal is the first clash, a different file at one path before another path of one file before a taken mount |
| `ArtifactIdentity.CheckArtifacts` | agent_protocol/src/vonk_agent_protocol/compiled_execution_plan.py:484-509 | the loop with two dictionaries and a set finds the first artifact that clashes with an earlier one, and how, field by field and in the order of the checks |
| `ModelClosure.LeastIsReached` | tools/contract_scans.py:164-171 | the least closed set is reachability along base names, cycles included |
| `ModelClosure.OrderIndependent` | tools/contract_scans.py:164-171 | the order of the classes does not matter |
| `ModelClosure.ModelNames` | tools/contract_scans.py:164-171 | the repeat-until-unchanged loop ends with the least set that has the roots and is closed |
| `ModelClosure.PythonModels` | tools/contract_scans.py:164-175 | a class is a model exactly when one of its bases is reached from a root |

## Left out

- LockAdmissionRows: a primary key is its position in the database's key order, and the rows a statement selects are given; `KEY SHARE` traffic, `FOR NO KEY UPDATE` and the rows PostgreSQL re-checks are not modelled.
- AcquireAdmissionKeys: holders' labels, timeouts as numbers and the diagnostics queries are not modelled; a lock timeout is an answer of the oracle.
- ExclusionAndPrefix: a savepoint's end may free any part of what a refused transaction took, at any moment before its rollback, which covers what the statements' savepoints free.
- CrossDialect: takes PostgreSQL to report the default name; `SoundForName` and `NumberedName` say what holds for any other name; which number it picks is not modelled.
- SoundIffRead: a report is one line; reports of expression indexes are read as nothing.
- DurableKey: directory operations are taken to persist in order, and `os.mkdir`, the lock file and torn file contents are not modelled.
- Recover: the timeout is a real number and time passes in calls and pauses only, so infinite and NaN timeouts and rounding are not modelled; of its clients only the delivery of inputs is.
- DeliverInputs: other clients of the job, malformed listings of its files, damaged manifests and the retention of inputs after the job are not modelled; the outer recovery of a create repeats it.
- DropOf: lower-casing is any function of the error's name.
- WheelContentIdentity: a member's declared size is taken from the archive as given; damaged archives raise in the source and are not modelled.
- InstalledContentIdentity: a read that fails and a deadline that passes are one oracle.
- UpdateAvailable: the download, its digest and its retries are not modelled.
- CompletedOnce: a waiter cannot cancel a shared future, as the source shields it.
- `patient_admission` as a context variable: whether a transaction tries or waits is part of its plan.
- `_durable_deadline` and `_observe`: reading a wall-clock expiry back from a file, where damage gives no time at all, and repeating one read until a deadline.
- The field checks of `cross_fields_match` around the artifact loop, which are single branches.
- Signal handling and task cancellation in `HTTPSResponse`.
- SQL text, lock reports, schema rewriting, vocabularies, command lines, packaging and installers.
