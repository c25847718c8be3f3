# Harmonograf: a verified model

Harmonograf records what a fleet of agents does (spans, plans, tasks, drifts, payloads), lets an
operator steer it, and draws it. This project models the parts of the client, the server and the
frontend whose behaviour depends on state, order or arithmetic, and proves what they guarantee for
every input and every sequence of calls. `dafny verify dfyconfig.toml` checks everything.

Code that changes state step by step is a class or a method with loops; each method is proved
against a specification on values, and the laws are lemmas about that specification.

| file | what it models |
|---|---|
| `lanes.dfy` | greedy lane packing of one agent row |
| `stages.dfy` | layering of a task graph by Kahn's algorithm, cycles included |
| `control_router.dfy` | fan-out of control events, acks, departures, full queues, deadlines |
| `interventions.dfy`, `intervention_laws.dfy` | the collapse and merge passes over intervention rows, and their laws |
| `intervention_fields.dfy`, `timeline_fields.dfy` | field by field: which row stands for a group, where its fields come from, which outcome a row is given |
| `intervention_passes.dfy`, `intervention_timeline.dfy` | the same passes on records updated in place, outcome attribution, the legacy pass, and their composition |
| `event_buffer.dfy` | the client's event buffer with tiered overflow |
| `payload_buffer.dfy`, `payload_upload.dfy` | payload staging and chunked upload on the client |
| `payload_intake.dfy` | payload reassembly on the server |
| `payload_delivery.dfy`, `payload_reupload.dfy` | client and server together: delivery over whole runs, and when a repeated upload is safe |
| `span_index.dfy` | the per-agent span index and its window query |
| `span_ledger.dfy` | the telemetry plugin's ledger of open spans |
| `task_binding.dfy` | joining tasks and spans that arrive in either order |
| `connection.dfy`, `send_loop.dfy` | reconnect loop with breaker and backoff; the frames of one connection |
| `plan_registry.dfy`, `delegations.dfy` | plan diffs, plan history, delegation re-anchoring |
| `context_band.dfy` | the step-function edge of the context-window band |
| `sorting.dfy`, `common.dfy` | stable sorting, filtering and set lemmas the others share |

An asyncio handler that never suspends inside its critical section is one atomic method; a protocol
is a class whose invariant every method keeps. Digests, clocks, jitter and pixel axes are inputs.

## Where the code and its own documentation differ

The model follows the code. Each difference is proved.

* Lane packing returns the peak concurrency except when a zero-length span starts inside a full
  peak, and it returns one lane for no spans (`Lanes.LaneCountIsMaxConcurrency`,
  `Lanes.InstantAddsALane`).
* A task on or behind a cycle is not always put in stage 0 (`Stages.BlockedTaskStage`,
  `Stages.CyclicTaskOnStageOne`).
* A `require_all` delivery succeeds without the streams that left (`ControlRouting.EveryoneAckedIffNoneLeft`,
  `ControlRouting.SuccessWithoutEveryone`).
* Stripping a payload reference frees no slot, so the event buffer can exceed its capacity without
  bound, and `push` never refuses (`EventBuffer.EventRingBuffer.Push`, `EventBuffer.FloodWithReferences`).
* The shutdown flush takes at most the buffer's capacity, so an overfull buffer loses events
  (`SendLoop.Sender.Shutdown`).
* Hello is not always ahead of the traffic: payload chunks get ahead of it exactly when a turn takes no
  envelope that has a frame, Hello has not been sent, and a chunk waits (`SendLoop.Sender.Turn`). Over a
  connection whose envelopes all have frames that is exactly a turn with a waiting chunk before any envelope
  has waited or been pushed (`SendLoop.Sender.Run`, `SendLoop.ChunksWithoutHello`).
* Uploading a digest again is not always harmless: the stream survives exactly when the queued chunks of that
  digest begin a whole upload or go on where its last chunk left off (`PayloadReupload.EnqueueSurvivesIffResumes`).
* The span query overlooks running spans beyond its horizon
  (`SpanIndexing.QueryAgainstNaive`, `SpanIndexing.RunningSpanIsMissed`).
* The root session is not always released when the root's run ends: it stays cached for a wrapper, for a root
  without an invocation id, and when the id is still noted as a wrapper's, and only then
  (`SpanLedger.RootIsReleasedIff`, `SpanLedger.RootOutlivesItsRun`).
* A full context window does not always reach the height asked for: a low row or a very low band changes it
  (`ContextBand.FullHeightIff`).
* A cancellation ends exactly the spans of its invocation unless a span without an invocation id is filed under a
  key that reads like that id (`SpanLedger.CancelEndsItsOwn`).
* The band has an odd number of points when a sample sits at the right edge (`ContextBand.PointCount`,
  `ContextBand.OddNumberOfPoints`), and its reported peak need not be drawn: it is drawn exactly when no
  replaced sample left of the clip exceeds every sample shown (`ContextBand.PeakIsDrawnInOrder`,
  `ContextBand.PeakIsDrawnIff`, `ContextBand.PeakNeedNotBeDrawn`).
* The plan diff can overlook a change of edges: edges collide when an arrow inside a task id can be read as the
  edge's own (`PlanRegistry.SameKeyIff`, `PlanRegistry.EdgesChangedIff`, `PlanRegistry.EdgeKeysCanCollide`).
* The breaker's separate half-open case is unreachable (`Connection.Reconnector.OnFailedAttempt`).
* The legacy pass says strict-id rows are never touched; they are never dropped, but such a row takes the
  outcome, revision or severity it lacks from an orphan plan row for which it is the latest row of the lane in
  the window, and keeps its fields exactly when no such orphan has one (`InterventionTimeline.KeptUntouchedIff`,
  `InterventionTimeline.StrictRowIsTouched`).
* The key of a delegation is not unique when agent ids contain the separator (`Delegations.KeysCanCollide`,
  `Delegations.KeysTellApart`).

## Model

| member | source | states |
|---|---|---|
| Lanes.PackLanes | frontend/src/gantt/layout.ts:15-43 | The list is stably sorted in place, every span gets the lowest lane free at its start, spans of one lane follow each other, no two overlapping spans share a lane, the result is the number of lanes, and for spans that all last it is the peak concurrency |
| Lanes.SortSpans | frontend/src/gantt/layout.ts:18-23 | The in-place sort is stable, and its result runs by start, of equal starts by end, and of those a running span last |
| Lanes.AssignLanes | frontend/src/gantt/layout.ts:24-43 | The loop over the sorted spans assigns first-fit lanes and counts them |
| Lanes.FindLane | frontend/src/gantt/layout.ts:27-33 | The inner scan finds the lowest lane that has ended, or none |
| Lanes.FirstFitUnique | frontend/src/gantt/layout.ts:3-6 | The first-fit rule determines every lane |
| Lanes.FirstFitIsValid | frontend/src/gantt/layout.ts:3-6 | First-fit lanes never hold two overlapping half-open spans |
| Lanes.LaneMatesFollow | frontend/src/gantt/layout.ts:27-33 | Of two spans on a lane the earlier has ended by the time the later starts |
| Lanes.LaneCountIsPeakLoad | frontend/src/gantt/layout.ts:26-43 | For every input the lane count is the largest number of spans running or starting at some span's start |
| Lanes.LaneCountIsMaxConcurrency | frontend/src/gantt/layout.ts:11-13 | The count is the maximum concurrency if and only if there is a span and every zero-length span starts where the peak leaves a lane idle |
| Lanes.PeakForLastingSpans | frontend/src/gantt/layout.ts:11-13 | For spans with end after start the documented law holds |
| Lanes.PackingIsOptimal | frontend/src/gantt/layout.ts:3-6 | No valid assignment of lasting spans uses fewer lanes |
| Lanes.InstantAddsALane | frontend/src/gantt/layout.ts:11-13 | A zero-length span inside a running one takes a second lane at peak concurrency one |
| Stages.ComputeStages | frontend/src/gantt/stages.ts:12-80 | The stages hold the tasks of each stage in plan order, each task's stage is the length of its longest chain of runnable predecessors, no stage is empty, and no tasks give no stages |
| Stages.BuildAdjacency | frontend/src/gantt/stages.ts:19-29 | The adjacency lists hold exactly the edges between known tasks |
| Stages.FillUnresolved | frontend/src/gantt/stages.ts:60-70 | Tasks the queue gave no stage get stage 0, the others keep theirs |
| Stages.LayeredIsLongestChain | frontend/src/gantt/stages.ts:31-70 | On any graph, cyclic or not, the layering equals the longest-runnable-chain definition |
| Stages.DoneIffNotBehindCycle | frontend/src/gantt/stages.ts:44-58 | The queue processes exactly the tasks that are on no cycle and behind none |
| Stages.AcyclicStages | frontend/src/gantt/stages.ts:5-7 | On an acyclic graph every task is processed, its stage is the longest path ending at it, and every edge goes strictly forward |
| Stages.NoGap | frontend/src/gantt/stages.ts:72-79 | Below an occupied stage every stage is occupied |
| Stages.BlockedTaskStage | frontend/src/gantt/stages.ts:9-11 | A task behind a cycle lands in stage 0 if and only if no predecessor of it can run |
| Stages.CyclicTaskOnStageOne | frontend/src/gantt/stages.ts:9-11 | A task that depends on itself and on a free task lands in stage 1 |
| Stages.StagesPartitionTasks | frontend/src/gantt/stages.ts:75-79 | The stages together hold every task exactly once |
| Stages.StageKeepsPlanOrder | frontend/src/gantt/stages.ts:75-79 | Within a stage the tasks stand in the order of the plan |
| Stages.LayeringIsDetermined | frontend/src/gantt/stages.ts:12-80 | Two results that meet the specification of a plan are the same list of stages |
| Stages.StagesRespectEdges | frontend/src/gantt/stages.ts:5-7 | In an acyclic plan a dependency lies in an earlier stage than its dependant |
| ControlRouting.ControlRouter.Subscribe | server/harmonograf_server/control_router.py:139-151 | A new subscription joins its agent's bucket; all router invariants are kept |
| ControlRouting.ControlRouter.Unsubscribe | server/harmonograf_server/control_router.py:153-175 | The stream and no other leaves its bucket and every delivery that awaited it, deliveries whose condition became true settle and no settled one changes its outcome, and exactly the aliases of an agent left without streams go |
| ControlRouting.ControlRouter.MaybeResolve | server/harmonograf_server/control_router.py:351-378 | An open delivery settles with its verdict and leaves the table exactly when its condition holds; a done one is untouched |
| ControlRouting.ControlRouter.RecordAck | server/harmonograf_server/control_router.py:292-341 | An ack counts for the stream it names if that is awaited, else for some awaited stream; unknown deliveries and surplus acks change nothing; an open delivery settles with its verdict exactly when ready; a success that answers a status query is handed on with its session, agent and detail |
| ControlRouting.ControlRouter.Offer | server/harmonograf_server/control_router.py:262-278 | A full queue is an immediate failure ack, any other queue gets the event at its end |
| ControlRouting.ControlRouter.BeginDeliver | server/harmonograf_server/control_router.py:213-278 | An event goes to exactly the open streams of the agent, or of the agent it is an alias of when it has none, that are of the session, or to all of them when none is; each gets it once at the end of its queue or, with 256 waiting, fails at once, and no other queue changes; without such a stream the call is unavailable and changes nothing; otherwise the delivery is filed and open, or already resolved when every queue was full |
| ControlRouting.ControlRouter.Expire | server/harmonograf_server/control_router.py:280-283 | A deadline cancels the future and nothing else |
| ControlRouting.ControlRouter.Finish | server/harmonograf_server/control_router.py:280-290 | A call returns its verdict, or after a timeout the acks so far, and its row is gone |
| ControlRouting.ControlRouter.DepartAll | server/harmonograf_server/control_router.py:161-166 | Every waiting delivery loses the stream and the table keeps its invariants |
| ControlRouting.ControlRouter.WaitingIsServed | server/harmonograf_server/control_router.py:247-258 | A waiting delivery is in the table, no success has settled it unless all acks are required, some stream can still settle it, and with unique stream ids every awaited stream is live |
| ControlRouting.SettledMeaning | server/harmonograf_server/control_router.py:354-369 | A settled delivery reports its acks, and succeeded exactly when some stream acked success and, under require_all, every recipient that did not leave acked success; else it failed |
| ControlRouting.EveryoneAckedIffNoneLeft | server/harmonograf_server/control_router.py:357-365 | A settled require_all delivery has an ack of every recipient if and only if none left |
| ControlRouting.AckThenLeave | server/harmonograf_server/control_router.py:161-173 | When all but one awaited stream acked and the last one leaves, a require_all delivery resolves without it |
| ControlRouting.SuccessWithoutEveryone | server/harmonograf_server/control_router.py:357-365 | A require_all delivery to two streams succeeds although one of them left without an ack |
| ControlRouting.HomeAndSession | server/harmonograf_server/control_router.py:221-244 | With a home stream and a stream of the session, an event for the session reaches the latter alone, and one for another session under an alias reaches both |
| InterventionPasses.CollapseByConditionId | server/harmonograf_server/interventions.py:1039-1132 | Collapsing records in place yields the specified rows, from the given objects, each once |
| InterventionPasses.CollapseMany | server/harmonograf_server/interventions.py:1060-1129 | A group of observations becomes its latest record with count, times, history and absorbed ids, other records unchanged |
| InterventionPasses.MergeByTriggerEventId | server/harmonograf_server/interventions.py:1163-1251 | Merging records in place yields the merged rows, from the given objects, each once; which row stands for a group, under which key, and where its fields come from is stated by `InterventionFields.SurvivorRule`, `KeyRule` and `MergedFields` |
| InterventionPasses.ChooseSurvivor | server/harmonograf_server/interventions.py:1201-1232 | The survivor is the first annotation, else the first condition row, else the first plain drift, else the earliest |
| InterventionPasses.AbsorbRecord | server/harmonograf_server/interventions.py:1234-1247 | Absorbing another record in place is the absorption of its row, which fills in exactly the fields the survivor lacks (`InterventionFields.MergedFields`) |
| InterventionPasses.BuildAlias | server/harmonograf_server/interventions.py:1168-1176 | The alias map is the one of `InterventionFields.AliasRule`: every absorbed id leads to its first absorber |
| InterventionLaws.CollapseOneRowPerCondition | server/harmonograf_server/interventions.py:1039-1058 | Every non-empty condition has exactly one row afterwards, and no condition appears or disappears |
| InterventionLaws.CollapsePassesOthers | server/harmonograf_server/interventions.py:1041-1045 | Rows without a condition keep their contents and order, and the result stays in time order |
| InterventionLaws.CollapseConservesCount | server/harmonograf_server/interventions.py:1095-1097 | The total of counts is conserved |
| InterventionLaws.CollapsedRow | server/harmonograf_server/interventions.py:1065-1117 | A collapsed row gives the number of observations, the first and last time, every observation in order, and every severity change once and in order |
| InterventionLaws.CollapsedOutcome | server/harmonograf_server/interventions.py:1081-1093 | The collapsed row has an outcome exactly when some observation had one |
| InterventionLaws.CollapseIsWellAliased | server/harmonograf_server/interventions.py:1118-1128 | With trigger ids not shared across conditions, the collapse gives the merge unambiguous aliases |
| InterventionLaws.MergeKeepsAndFolds | server/harmonograf_server/interventions.py:1178-1251 | Every row that merges with nothing is kept, and every key gives exactly one row |
| InterventionLaws.MergedOutcome | server/harmonograf_server/interventions.py:1234-1239 | A merged row has an outcome exactly when some row of its group had one |
| InterventionLaws.MergeIsIdempotent | server/harmonograf_server/interventions.py:1163-1251 | Merging again changes nothing, down to the order, when aliases are unambiguous |
| InterventionLaws.NoPhantomPlanRow | server/harmonograf_server/interventions.py:1118-1250 | After collapse and merge, any row carrying the trigger of an observation of a condition, absorbed ones included, is that condition's row or an annotation |
| InterventionLaws.ConditionMergedOnce | server/harmonograf_server/interventions.py:1118-1250 | Every condition has exactly one merged row that carries a trigger of its observations |
| InterventionFields.SurvivorRule | server/harmonograf_server/interventions.py:1201-1232 | The first annotation of a group stands for it, else its first drift of a condition, else its first drift without a plan revision, else its earliest row |
| InterventionFields.MergedFields | server/harmonograf_server/interventions.py:1234-1247 | Severity, plan revision, drift kind and annotation id of a merged row are each the survivor's own when set, else those of the first row of the group that has one, and empty exactly when they are in every row; its outcome is the survivor's when it says more than "recorded", else the first that does, else "recorded" exactly when some row was; no other field changes |
| InterventionFields.AliasRule | server/harmonograf_server/interventions.py:1168-1176 | An id has an alias exactly when a row with a trigger took it in, and the alias is the trigger of the first such row |
| InterventionFields.KeyRule | server/harmonograf_server/interventions.py:1178-1196 | Refine and transition rows merge with nothing; any other row merges under the trigger of the first row that took its own trigger in, else under its own trigger |
| InterventionFields.KeysInOrder | server/harmonograf_server/interventions.py:1178-1199 | Groups come in the order in which their keys first appear |
| InterventionFields.SameTimeOrder | server/harmonograf_server/interventions.py:1198-1251 | Of rows at the same time, those that merge with nothing come first, in their order, then the rows of the groups, in the order of the groups |
| InterventionFields.CollapsedFields | server/harmonograf_server/interventions.py:1060-1128 | A collapsed row is the latest observation except for the history, the count and times, the triggers of the others, and an outcome it has not earned: that comes, with its plan revision when it has none, from the first observation that has one |
| InterventionFields.SteeringIsOneCard | server/tests/test_interventions.py:584-600 | An annotation and the drift it caused become one card: the annotation with the drift's severity, kind, outcome and plan revision |
| InterventionTimeline.AttributeOutcomes | server/harmonograf_server/interventions.py:887-965 | Each drift and user row gets the outcome of the strict match, the legacy match, the cascade count, or "recorded", in this order |
| InterventionTimeline.FindMatchingRevision | server/harmonograf_server/interventions.py:968-988 | The legacy matcher finds the first fitting revision inside the window, the closest one as plans are in order |
| InterventionTimeline.CountCascadeCancels | server/harmonograf_server/interventions.py:1254-1280 | The cancelled tasks of the newest plan created after the row are counted |
| InterventionTimeline.StrictIdDecides | server/harmonograf_server/interventions.py:899-901 | A row whose trigger a revision names gets the earliest such revision, whatever the window |
| TimelineFields.AttributionRule | server/harmonograf_server/interventions.py:887-965 | A drift or user row without an outcome gets the first revision that names its trigger, else with a window the first revision of its kind inside it, else the number of cancelled tasks of the newest later plan when there are some, else "recorded"; nothing else of it and no other row changes |
| InterventionTimeline.ListInterventions | server/harmonograf_server/interventions.py:375-394 | All passes in turn give what the row functions say: sort, attribute, collapse, merge, and the legacy pass only with a positive window |
| InterventionTimeline.ShownInOrder | server/harmonograf_server/interventions.py:375-394 | What is shown is in time order, whatever the legacy window |
| InterventionTimeline.ConditionShownOnce | server/harmonograf_server/interventions.py:375-394 | Whatever the legacy window, every condition is shown by exactly one row: the one the merge left for it, filled in at most with outcome, revision and severity |
| InterventionTimeline.TimelineIsSettled | server/harmonograf_server/interventions.py:375-394 | Before the legacy pass the rows are in time order and merging them again changes nothing, whatever window attributed them |
| InterventionTimeline.RefinedConditionHasOutcome | server/harmonograf_server/interventions.py:1081-1093 | When any observation of a condition is named by a revision, the one row shown for the condition has an outcome, whatever the legacy window |
| InterventionTimeline.FoldOrphanRecords | server/harmonograf_server/interventions.py:397-457 | The legacy pass folds each orphan plan row onto its target, in place, and keeps all other rows, as the row function says |
| InterventionTimeline.TargetIsLatest | server/harmonograf_server/interventions.py:422-435 | The target is the latest row of the lane inside the window, and there is none exactly when no row fits |
| InterventionTimeline.FoldsOntoLatest | server/harmonograf_server/interventions.py:422-435 | At every point of the pass over sorted rows an orphan plan row folds onto the latest kept row of its lane inside the window, and onto no other |
| InterventionTimeline.FoldKeepsOthers | server/harmonograf_server/interventions.py:409-421 | The legacy pass drops nothing but orphan plan rows, keeps the order, invents nothing, and fills in nothing but a missing outcome, revision or severity |
| InterventionTimeline.TouchedOnce | server/harmonograf_server/interventions.py:436-455 | One orphan plan row changes a kept row exactly when it folds onto it and the row lacks something it has |
| InterventionTimeline.KeptUntouchedIff | server/harmonograf_server/interventions.py:409-410 | Over the whole pass a kept row, strict-id or not, keeps all its fields if and only if no orphan plan row for which it is the latest row of the lane inside the window has something it lacks |
| InterventionTimeline.StrictRowIsTouched | server/harmonograf_server/interventions.py:409-410 | A strict-id drift row takes the severity of an orphan plan row, whose revision disappears |
| TimelineFields.FoldRule | server/harmonograf_server/interventions.py:409-457 | An orphan plan row is folded onto the last user or drift row of its kind inside the window, which takes its outcome unless it has earned one, and its revision and severity where it has none; every other row is kept as it is |
| EventBuffer.EventRingBuffer.EvictOne | client/harmonograf_client/buffer.py:152-175 | The oldest update leaves; with no update the oldest payload reference is stripped and nothing leaves; with neither the oldest envelope leaves |
| EventBuffer.EventRingBuffer.Push | client/harmonograf_client/buffer.py:129-150 | Every push is stored; the exact new contents in each of the four cases; the length grows exactly when there was room or a reference was stripped, and stays within capacity plus stripped references |
| EventBuffer.EventRingBuffer.PopBatch | client/harmonograf_client/buffer.py:177-183 | The oldest envelopes leave in order; a limit of zero or less takes none |
| EventBuffer.NothingLostUncounted | client/harmonograf_client/buffer.py:87-98 | Over any run, span updates pushed equal popped plus held plus dropped updates, and the same for all other envelopes with dropped spans |
| EventBuffer.FloodWithReferences | client/harmonograf_client/buffer.py:160-167 | For any capacity, span starts with payload references fill the buffer to any length |
| PayloadStaging.PayloadBuffer.Put | client/harmonograf_client/buffer.py:213-236 | Oversized data is refused and counted, a known digest changes nothing, otherwise the shortest oldest prefix that makes room is evicted; offered bytes equal held plus taken plus dropped |
| PayloadStaging.PayloadBuffer.Take | client/harmonograf_client/buffer.py:238-247 | The blob leaves with its bytes, or nothing changes |
| PayloadStaging.PeekEvictsNothing | client/harmonograf_client/transport.py:766-773 | Taking a blob and putting it back evicts nothing and moves it to the newest end |
| PayloadIntake.StreamContext.HandlePayload | server/harmonograf_server/ingest.py:663-702 | The handler with its assembler objects does exactly what the specification says, for every frame and every error |
| PayloadIntake.OutcomeMeans | server/harmonograf_server/ingest.py:663-702 | In terms of the bytes received so far: a frame is refused exactly for a missing digest, for exceeding the limit, or as a last one whose bytes do not hash to its digest; an eviction notice drops the bytes, a good last frame stores them, any other adds to them |
| PayloadIntake.Assembler.Add | server/harmonograf_server/ingest.py:114-120 | The byte count rises before the limit is checked, and a chunk over it is not kept |
| PayloadIntake.ArbitraryFramesAreSafe | server/harmonograf_server/ingest.py:685-702 | For any frames in any order, bytes are stored only under their own digest, other payloads stay, and live assemblers stay within the limit |
| PayloadIntake.InterleavedUploadsRoundTrip | server/harmonograf_server/ingest.py:673-702 | Any interleaving of chunked uploads of any lengths, zero included, stores exactly the bytes and clears every assembler |
| PayloadIntake.ChunkIsTakenIn | server/harmonograf_server/ingest.py:682-702 | The next chunk of an upload is always accepted and extends the assembled prefix, or completes the payload |
| PayloadUpload.Uploader.EnqueuePayload | client/harmonograf_client/transport.py:259-275 | The blob is staged and one job per chunk is queued, at least one; a refused blob is counted and queues nothing |
| PayloadUpload.Uploader.MaybeSendChunk | client/harmonograf_client/transport.py:733-764 | The head job becomes one frame: its slice of the payload, or the eviction notice; the last chunk takes the blob |
| PayloadUpload.SendMeans | client/harmonograf_client/transport.py:733-773 | A sent frame is the slice of the job, or a notice when the bytes are gone; the bytes leave with the last chunk and move to the newest end with any other, evicting nothing |
| PayloadUpload.Uploader.HandlePayloadRequest | client/harmonograf_client/transport.py:1102-1118 | A staged payload is queued again in full, a missing one as a single empty job |
| PayloadDelivery.UploadsArrive | client/harmonograf_client/transport.py:259-275 | In every fair run of uploads, re-uploads, evictions, requests and sends the server rejects nothing and holds, at every moment, exactly the payloads whose last chunk left while they were staged, with the bytes handed in; once the queue is empty nothing is open and nothing staged |
| PayloadDelivery.AllUploadsArrive | client/harmonograf_client/transport.py:259-275 | When no hand-in had to evict, the drained server holds exactly the payloads the client accepted |
| PayloadDelivery.OpenIffMidUpload | server/harmonograf_server/ingest.py:663-702 | On an accepted stream the server has an assembler for exactly the digests whose last frame was a chunk with more to come |
| PayloadDelivery.SendKeepsSync | client/harmonograf_client/transport.py:733-764 | Each sent frame is accepted and keeps client queue and server assemblers in step |
| PayloadReupload.EnqueueSurvivesIffResumes | client/harmonograf_client/transport.py:766-773 | After any fair run, handing in a payload that is not staged and not too large, with whatever that evicts, is followed by a rejection-free drain if and only if its queued jobs, if any, begin a whole upload of it or go on where its last chunk left off |
| PayloadReupload.SyncedSurvives | client/harmonograf_client/transport.py:733-764 | From any state in step, draining the queue adds exactly the staged payloads to the server's store and leaves nothing open |
| PayloadReupload.RequestThenEnqueueIsRejected | client/harmonograf_client/transport.py:1102-1108 | A request for a payload that has left, followed by a new upload of it before the answer is sent, ends the stream |
| SpanIndexing.SpanIndex.Append | frontend/src/gantt/spatialIndex.ts:60-94 | A new span joins its agent's row behind all that start no later (`SpanIndexing.InsertBehindEquals`); a known id only updates; rows stay sorted and in bijection with the id map; the recorded maximum covers every end |
| SpanIndexing.InsertBehindEquals | frontend/src/gantt/spatialIndex.ts:75-89 | The place of a new span is behind every span that starts no later and before every other |
| SpanIndexing.SpanIndex.MaximumCovers | frontend/src/gantt/spatialIndex.ts:90-91 | The recorded maximum covers the end of every stored span, and the start of one without an end |
| SpanIndexing.SpanIndex.Update | frontend/src/gantt/spatialIndex.ts:96-117 | A known span takes the new fields and keeps its place and agent; an unknown one is stored like a new one |
| SpanIndexing.SpanIndex.Remove | frontend/src/gantt/spatialIndex.ts:119-133 | The span leaves its row and the id map, an unknown id changes nothing |
| SpanIndexing.SpanIndex.ReassignAgent | frontend/src/gantt/spatialIndex.ts:194-228 | All spans move to the other agent's row, which becomes the stable sort of both; an empty name or the same name changes nothing |
| SpanIndexing.ReassignKeepsOrder | frontend/src/gantt/spatialIndex.ts:194-228 | Of spans that start together, those already in the row come first, then those moved to it, each in their order |
| SpanIndexing.SpanIndex.QueryAgent | frontend/src/gantt/spatialIndex.ts:138-170 | The query appends exactly the overlapping spans within reach, straddlers newest first, then the window in order |
| SpanIndexing.FindPlace | frontend/src/gantt/spatialIndex.ts:80-88 | The binary search finds the place behind equals |
| SpanIndexing.FindStart | frontend/src/gantt/spatialIndex.ts:144-150 | The binary search finds the first span starting in the window |
| SpanIndexing.QueryAgainstNaive | frontend/src/gantt/spatialIndex.ts:151-169 | Nothing twice, nothing that does not overlap, and an overlapping span is missed if and only if a later span of the row starts more than 65536 ms before the window |
| SpanIndexing.RunningSpanIsMissed | frontend/src/gantt/spatialIndex.ts:135-137 | A running span is missed by every window far enough after a later span's start |
| SpanLedger.PairedMeaning | client/harmonograf_client/telemetry_plugin.py:1193-1225 | Each span has at most one end, after its start, and exactly the counted spans started and ended |
| SpanLedger.Ledger.BeforeRun | client/harmonograf_client/telemetry_plugin.py:1484-1575 | The first run with a session becomes the root; a wrapper opens no span; otherwise a span starts, pushing out one filed under the same key |
| SpanLedger.Ledger.AfterRun | client/harmonograf_client/telemetry_plugin.py:1577-1682 | A wrapper's end closes nothing and keeps the root cached; any other end closes the run and its model spans and releases the root exactly when the run is the root |
| SpanLedger.Ledger.AfterModel | client/harmonograf_client/telemetry_plugin.py:1788-1871 | A final response ends the oldest model span open under its invocation, or under its context object without one; a partial or stray one ends nothing |
| SpanLedger.Ledger.AfterTool | client/harmonograf_client/telemetry_plugin.py:1908-1950 | The tool span of the context ends with its status; a stray end closes nothing |
| SpanLedger.Ledger.OnCancellation | client/harmonograf_client/telemetry_plugin.py:1017-1191 | Exactly the open spans found under the invocation end, all as cancelled, and its root session is released; a model call opened under it is among them (`SpanLedger.ModelEndsByCancellation`) |
| SpanLedger.Ledger.OnRunEnd | client/harmonograf_client/telemetry_plugin.py:1193-1313 | Nothing stays open, and everything that was open has ended as completed |
| SpanLedger.CancelEndsItsOwn | client/harmonograf_client/telemetry_plugin.py:1041-1045 | With no slot ever taken over, what a cancellation ends is exactly what callbacks of that invocation opened and did not close, if and only if no span opened without an invocation id is filed under a key that reads like that id |
| SpanLedger.ModelEndsByInvocation | client/harmonograf_client/telemetry_plugin.py:1749-1766 | Whatever context of the invocation a final response comes with, it ends the oldest model call open there, and the one just opened when there is no other |
| SpanLedger.ModelEndsByCancellation | client/harmonograf_client/telemetry_plugin.py:1053-1073 | A model call opened under an invocation ends as cancelled with it |
| SpanLedger.RootOutlivesItsRun | client/harmonograf_client/telemetry_plugin.py:1592-1594 | The session of a wrapper root, or of a root without an invocation id, still stamps a later run of another session |
| SpanLedger.RootIsReleasedIff | client/harmonograf_client/telemetry_plugin.py:1647-1659 | The first run with a session is released by its own end if and only if it is no wrapper, has an invocation id, and that id is not still noted as a wrapper's; later spans are stamped with it until then, and with their own session or the home session afterwards |
| TaskBinding.Ingest.OnTaskStarted | server/harmonograf_server/ingest.py:1137-1161 | A started task runs and is bound to the latest-started running invocation of its agent, else to its latest-started one, or waits for the first one |
| TaskBinding.Ingest.OnSpanStart | server/harmonograf_server/ingest.py:406-469 | An invocation span binds every task waiting for its agent without changing any status; a known id keeps its span; a leaf span with a task id sets that task running on itself |
| TaskBinding.Ingest.DrainPendingBindings | server/harmonograf_server/ingest.py:1960-1994 | The waiting list of the agent is emptied and exactly its tasks get the span |
| TaskBinding.Ingest.FindInvocationSpan | server/harmonograf_server/ingest.py:1930-1958 | The choice is an invocation of the agent in the session such that when any of these runs it runs, and of those alike in running none started later; there is none exactly when the agent has none or a name is empty |
| TaskBinding.LatestIsBound | server/harmonograf_server/ingest.py:1957-1958 | Of two running invocations the task is bound to the one started last |
| TaskBinding.StartedMeans | server/harmonograf_server/ingest.py:1871-1900 | The started task runs, is bound to the span chosen for its assignee or keeps an earlier one, and waits exactly when it has an assignee and no span was chosen; no other task changes |
| TaskBinding.ArrivedMeans | server/harmonograf_server/ingest.py:1960-1994 | A known span id keeps its span; an invocation is given to exactly the tasks that wait for its agent, which keep all else, and nobody waits for that agent any more |
| TaskBinding.Ingest.FindPlan | server/harmonograf_server/ingest.py:1239-1253 | The index answers what a scan of the plans would, and remembers what a scan finds |
| TaskBinding.Ingest.UpsertPlan | server/harmonograf_server/ingest.py:1082-1135 | The index points at the plan for exactly its present tasks, agrees with the stored plans and stays complete |
| TaskBinding.Ingest.ApplyStatus | server/harmonograf_server/ingest.py:1222-1269 | One task row changes its status, and its span and cancel reason when given; none does for an unknown or empty id |
| TaskBinding.SetRowAt | server/harmonograf_server/ingest.py:1222-1269 | One row takes the status, the span when one is given, and the reason when it is not empty; every other row stays |
| TaskBinding.StartAndFirstSpanCommute | server/harmonograf_server/ingest.py:1140-1151 | A task start and the first invocation span of its agent give the same tasks, spans and waiting table in either order |
| TaskBinding.LaterSpanMatters | server/harmonograf_server/ingest.py:1862-1870 | When the agent already has an invocation, the order matters if the new span runs and the chosen one does not, or they are alike in running and it started later, and without ties only then |
| Connection.Reconnector.OnFailedAttempt | client/harmonograf_client/transport.py:442-459 | The failure counts and the breaker opens exactly at the threshold; the half-open case is unreachable |
| Connection.Reconnector.MarkHealthy | client/harmonograf_client/transport.py:471-480 | The first message of a connection closes the breaker and clears the failures |
| Connection.Reconnector.Turn | client/harmonograf_client/transport.py:382-428 | One turn of the loop for every outcome and stop: the exact actions, failures, breaker and delay; the delay is the initial one doubled per wait since the reset, capped |
| Connection.Reconnector.Run | client/harmonograf_client/transport.py:380-428 | In every run no attempt starts while the breaker is open, every half-open trial directly follows a cooldown or a half-open attempt that returned without an error, and no wait exceeds threshold minus one doublings |
| Connection.Reconnector.Outage | client/harmonograf_client/transport.py:410-423 | In an outage the threshold's worth of attempts with doubling waits is followed by one half-open trial per cooldown |
| Connection.DelayGrows | client/harmonograf_client/transport.py:422-422 | Delays never shrink between resets |
| Connection.DelayDoubles | client/harmonograf_client/transport.py:422-422 | Each delay is twice the one before it, capped |
| SendLoop.Sender.SendItem | client/harmonograf_client/transport.py:647-668 | An envelope that has a frame is queued, behind Hello when it is the first; the resume token follows |
| SendLoop.Sender.Turn | client/harmonograf_client/transport.py:637-689 | Up to 64 envelopes leave the event buffer and go out in order, more than ten in a row only when no chunk is left, all chunks are flushed, a heartbeat ends the turn exactly when one is due and Hello was sent; Hello is sent by the end exactly when it was before or one of the envelopes taken has a frame, and otherwise every waiting chunk goes out without it |
| SendLoop.ChunksWithoutHello | client/harmonograf_client/transport.py:673-682 | A client that emits nothing but payloads sends all chunks and no Hello |
| SendLoop.Sender.Shutdown | client/harmonograf_client/transport.py:690-731 | At most the capacity is flushed, Goodbye is sent exactly when Hello was, then the end; chunks stay, and envelopes stay behind exactly when the buffer was overfull |
| SendLoop.Sender.Run | client/harmonograf_client/transport.py:632-731 | Over a whole connection, with pushes that may evict in between: one Hello at most, before every envelope, heartbeat and goodbye; the envelopes sent are a subsequence of those pushed; what waited or was pushed equals sent plus frameless plus held plus dropped; all chunks that arrived before the last turn go out in order, each behind Hello if and only if no turn with a waiting chunk ends before an envelope was sent, which for envelopes that all have frames means before one waited or was pushed; the end is last |
| SendLoop.SentInPushOrder | client/harmonograf_client/transport.py:647-668 | What a connection sends is a subsequence of everything ever pushed, evictions and earlier connections included |
| SendLoop.Balance | client/harmonograf_client/transport.py:647-668 | What waited before plus what was pushed equals what was sent, has no frame, is held, or was evicted since |
| PlanRegistry.ComputePlanDiff | frontend/src/gantt/index.ts:227-279 | For any two plans the diff describes the change: added, modified and removed tasks, each in order; a task is modified exactly when its title, description, assignee or status differs from the task its id stood for, and the report names exactly the fields that differ, each once and in that order; edges are changed exactly when the key sets differ |
| PlanRegistry.DiffPartitionsIds | frontend/src/gantt/index.ts:237-256 | Every id is added, removed or kept, the new ids are the old less the removed plus the added, and no id is removed twice |
| PlanRegistry.DiffNamesOnce | frontend/src/gantt/index.ts:237-252 | In a plan without repeated ids no id is added or modified twice |
| PlanRegistry.ReportNamesFields | frontend/src/gantt/index.ts:243-252 | Between plans without repeated ids a task is reported if and only if one of the four fields differs, and each field is named if and only if it differs |
| PlanRegistry.StatusAloneIsReported | frontend/src/gantt/index.ts:247-248 | A task that only goes from pending to running is reported as a change of its status and nothing else |
| PlanRegistry.SameKeyIff | frontend/src/gantt/index.ts:260-267 | Two edges share a key if and only if they are equal or one's source continues past the other's arrow and the rest matches |
| PlanRegistry.EdgesChangedIff | frontend/src/gantt/index.ts:258-276 | The flag is raised if and only if some edge of either plan has no counterpart in the other, colliding ones included |
| PlanRegistry.EdgesChangedMeans | frontend/src/gantt/index.ts:258-259 | Between plans without a colliding pair the flag says whether the edge sets differ, and a change that goes unnoticed has a colliding pair |
| PlanRegistry.EdgeKeysTellApart | frontend/src/gantt/index.ts:260-267 | Edge keys are unambiguous when no task id contains ">" |
| PlanRegistry.EdgeKeysCanCollide | frontend/src/gantt/index.ts:260-267 | Two different edges can have the same key |
| PlanRegistry.TaskRegistry.UpsertPlan | frontend/src/gantt/index.ts:315-373 | The plan replaces its id and any other plan of its invocation, a new id joins in creation order; a changed revision index adds one snapshot of the old plan to an otherwise unchanged history; a new reason is noted with its difference from the replaced plan of the invocation, else of the id |
| PlanRegistry.TaskRegistry.Store | frontend/src/gantt/index.ts:333-358 | A known plan is replaced in place, a new one joins in creation order |
| PlanRegistry.TaskRegistry.NoteRevision | frontend/src/gantt/index.ts:359-371 | A new reason is noted with its time and the difference from the replaced plan, and at most twenty are kept |
| PlanRegistry.TaskRegistry.ClonePlan | frontend/src/gantt/index.ts:281-287 | The copy has the same value and shares no task object |
| PlanRegistry.TaskRegistry.UpdateTaskStatus | frontend/src/gantt/index.ts:396-409 | The first task of that id in the current plan changes and no snapshot does |
| PlanRegistry.TaskRegistry.UpdateTaskStatusByTaskId | frontend/src/gantt/index.ts:415-434 | The first task of that id in the first plan that has one is updated, no other task and no snapshot is |
| Delegations.RunIsStamped | frontend/src/gantt/index.ts:1263-1312 | After any stream of timed delegations and session starts the list is the first delivery of each, stamped against the final start |
| Delegations.OrderDoesNotMatter | frontend/src/gantt/index.ts:1232-1240 | The list is the same wherever the session start falls |
| Delegations.RedeliveryChangesNothing | frontend/src/gantt/index.ts:1250-1257 | Deliveries of known delegations change nothing |
| Delegations.UntimedDependsOnOrder | frontend/src/gantt/index.ts:1304-1304 | A single delegation gives the same list in either order if and only if it has a time or the start is zero |
| Delegations.Registry.Append | frontend/src/gantt/index.ts:1263-1289 | A record with a new key text joins at the end with its agents, task and invocation in their places, a duplicate changes nothing, and a missing wall-clock time is the relative one |
| Delegations.KeysTellApart | frontend/src/gantt/index.ts:1273-1281 | When no agent id contains the separator, two records share a key if and only if they name the same agents and the same invocation or, without one, the same time |
| Delegations.KeysCanCollide | frontend/src/gantt/index.ts:1273-1281 | Two different delegations share a key when an agent id reads like an invocation |
| Delegations.Registry.Rebase | frontend/src/gantt/index.ts:1300-1312 | Exactly the timed records are re-anchored, each to its time less the start |
| ContextBand.ContextRatio | frontend/src/gantt/contextOverlay.ts:53-57 | The ratio lies between zero and one, is one exactly at or above a known limit, zero exactly without tokens or limit, and proportional in between |
| ContextBand.HeightIsLinear | frontend/src/gantt/contextOverlay.ts:73-75 | An empty window stands on the baseline, two pixels above the row's bottom, and heights are linear in the ratio |
| ContextBand.FullHeightIff | frontend/src/gantt/contextOverlay.ts:140-142 | A full window stands at the height asked for if and only if that is at least two pixels and leaves four of the row, or is just two; in a low row or for a low band it stands two pixels up |
| ContextBand.ComputeContextBandGeom | frontend/src/gantt/contextOverlay.ts:123-204 | For any samples and any axis: the polyline traces the last carry and the samples inside the clip, the walk stops at the first one beyond it or at the end of the view, the last ratio is the last sample's looked at and the peak is the maximum over them |
| ContextBand.CarryIsLatest | frontend/src/gantt/contextOverlay.ts:143-153 | In time order the sample carried over the left edge is the last one no later than the start of the view |
| ContextBand.BandIsStepFunction | frontend/src/gantt/contextOverlay.ts:77-82 | In time order, at every pixel of the clip a horizontal run stands at the height of the sample in force there |
| ContextBand.EdgeStaysInBand | frontend/src/gantt/contextOverlay.ts:93-98 | The edge runs from the left to the right clip inside the band, and in time order without turning back |
| ContextBand.PointCount | frontend/src/gantt/contextOverlay.ts:196-201 | There are two points per drawn sample unless the last one sits at or beyond the right clip, then one fewer |
| ContextBand.OddNumberOfPoints | frontend/src/gantt/contextOverlay.ts:93-98 | Two samples, the second at the right edge, give three points |
| ContextBand.PeakIsDrawnIff | frontend/src/gantt/contextOverlay.ts:100-103 | Some point stands at the height of the reported peak if and only if no replaced sample left of the clip exceeds every sample shown |
| ContextBand.PeakIsDrawnInOrder | frontend/src/gantt/contextOverlay.ts:100-103 | In time order the peak is drawn if and only if no sample before the one in force at the left clip has a ratio above all samples from there to the end of the walk, which is the first sample at or beyond the right edge or the end of the view |
| ContextBand.PeakNeedNotBeDrawn | frontend/src/gantt/contextOverlay.ts:100-103 | The reported peak may belong to a sample that is nowhere drawn |

## Left out

- Transport and storage: gRPC, asyncio scheduling, threads, protobuf encoding and SQL storage; handlers are atomic and the store is a map.
- Clocks, jitter, logging, metrics and listeners: times are inputs and notifications are not modelled.
- Floating point: milliseconds and bytes are integers, ratios and pixels are reals; NaN and infinities do not occur.
- Control router: the tasks that call status-query callbacks, generated control ids, ack timestamps and `clear_aliases_for_stream`.
- Interventions: loading and projecting annotations, drifts, plans and sidecar events into rows; `Projected` and `UnsharedTriggers` state what the laws need of the rows. Outcome texts are a datatype.
- InterventionTimeline.ListInterventions: starts from projected rows; a failed read of the store, which the code treats as no plans, is an empty plan list.
- EventBuffer: `drain` is a pop of everything; the thread lock is not modelled.
- PayloadIntake: the mime type, the declared total size and the stored summary, which no branch depends on.
- PayloadReupload.EnqueueSurvivesIffResumes: assumes that no proper suffix of the payload has the payload's own digest.
- SpanIndexing: `queryRange` and `all`, whose order is the map's insertion order; `maxEndPrefix` and `minStartMs`, which no query reads.
- SpanLedger: span attributes, reasoning trails, agent stacks and live-session caches; the duplicate-plugin guard, which turns every callback into a no-op; errors raised while emitting.
- TaskBinding: plan revisions, delegation assignees, span updates and ends; a span start repeated on one stream, which the code ignores before it reaches the store.
- TaskBinding.Ingest.FindInvocationSpan: among equally preferred spans it may return any, as the store's order of equal start times is not fixed.
- TaskBinding.Ingest.UpsertPlan: assumes that a plan id belongs to one session and a task id to one plan of its session.
- TaskBinding.LaterSpanMatters: between equally preferred spans the outcome is left open, as the store's order of equal start times is not fixed.
- Connection.Reconnector.Turn: a stop is noticed after the cooldown or after an attempt; cancellation during a sleep ends the loop like a stop.
- SendLoop.Sender.Run: what arrives in the middle of a turn counts as arriving between turns.
- SendLoop: frame contents, control acks put on the same queue by other tasks, and the Hello fields other than the session.
- Stages.ComputeStages: assumes distinct task ids; with a repeated id the source would release the same edges twice.
- PlanRegistry.TaskRegistry.UpsertPlan: assumes that an incoming plan shares no task object with a stored snapshot, which only the registry creates.
- Delegations: times are integers, as the text of a fractional time is not modelled.
- ContextBand: colours and token formatting.
- Not modelled because they would only add simple members: field-by-field conversions and enum tables, the session bus, retention, heartbeats, viewport, configuration, authentication, the command line and all drawing code.
